/**
 * `oneOf(list)` from packages/lib: a guard that returns its argument when it is
 * one of the listed constants and throws a descriptive error otherwise.
 */
module OneOf {
  import opened Wrappers

  /** `[...new Set(list)]`: the elements of `list` without repeats, in the order of their first occurrence. */
  function Distinct(list: seq<string>): (r: seq<string>)
    ensures forall x :: x in r <==> x in list
    ensures forall i, j :: 0 <= i < j < |r| ==> r[i] != r[j]
    ensures |r| <= |list|
  {
    if list == [] then []
    else
      var d := Distinct(list[..|list| - 1]);
      var last := list[|list| - 1];
      assert list == list[..|list| - 1] + [last];
      if last in d then d else d + [last]
  }

  /** `xs.join(sep)`. */
  function Join(xs: seq<string>, sep: string): string
  {
    if xs == [] then ""
    else if |xs| == 1 then xs[0]
    else xs[0] + sep + Join(xs[1..], sep)
  }

  /** `s` occurs in `t` starting at position `k`. */
  predicate OccursAt(s: string, t: string, k: int)
  {
    0 <= k && k + |s| <= |t| && t[k..k + |s|] == s
  }

  const Expectation := "\". Expected one of: "

  /** The message of the thrown error. */
  function ErrorMessage(list: seq<string>, value: string): string
  {
    "Invalid value: \"" + value + Expectation + Join(Distinct(list), ", ")
  }

  /** The validator `oneOf(list)` applied to `value`: the value itself, or the thrown message. */
  function Check(list: seq<string>, value: string): (r: Result<string, string>)
    ensures r.Ok? <==> value in list
    ensures r.Ok? ==> r.value == value
    ensures r.Err? ==> r.error == ErrorMessage(list, value)
  {
    if value in Distinct(list) then Ok(value) else Err(ErrorMessage(list, value))
  }

  /** Every joined element occurs in the joined string. */
  lemma {:induction false} JoinContains(xs: seq<string>, sep: string, i: nat)
    requires i < |xs|
    ensures exists k :: OccursAt(xs[i], Join(xs, sep), k)
  {
    if |xs| == 1 {
      assert OccursAt(xs[0], Join(xs, sep), 0);
    } else if i == 0 {
      assert Join(xs, sep) == xs[0] + (sep + Join(xs[1..], sep));
      assert OccursAt(xs[0], Join(xs, sep), 0);
    } else {
      JoinContains(xs[1..], sep, i - 1);
      var k :| OccursAt(xs[1..][i - 1], Join(xs[1..], sep), k);
      var prefix := xs[0] + sep;
      assert Join(xs, sep) == prefix + Join(xs[1..], sep);
      assert Join(xs, sep)[|prefix| + k..|prefix| + k + |xs[i]|] == Join(xs[1..], sep)[k..k + |xs[i]|];
      assert OccursAt(xs[i], Join(xs, sep), |prefix| + k);
    }
  }

  /** The error message quotes the rejected value and names every allowed value. */
  lemma MessageNamesValueAndAllowed(list: seq<string>, value: string, allowed: string)
    requires value !in list
    requires allowed in list
    ensures Check(list, value).Err?
    ensures OccursAt("Invalid value: \"" + value + "\"", Check(list, value).error, 0)
    ensures exists k :: OccursAt(allowed, Check(list, value).error, k)
  {
    var msg := Check(list, value).error;
    var head := "Invalid value: \"" + value + Expectation;
    var d := Distinct(list);
    assert msg == head + Join(d, ", ");
    assert msg[0..|"Invalid value: \"" + value + "\""|] == "Invalid value: \"" + value + "\"";
    var i :| 0 <= i < |d| && d[i] == allowed;
    JoinContains(d, ", ", i);
    var k :| OccursAt(allowed, Join(d, ", "), k);
    assert msg[|head| + k..|head| + k + |allowed|] == Join(d, ", ")[k..k + |allowed|];
    assert OccursAt(allowed, msg, |head| + k);
  }

  /** Acceptance depends only on which values are listed, not on their order or repetition. */
  lemma AcceptanceIgnoresOrderAndRepeats(a: seq<string>, b: seq<string>, value: string)
    requires forall x :: x in a <==> x in b
    ensures Check(a, value).Ok? == Check(b, value).Ok?
    ensures Check(a, value).Ok? ==> Check(a, value) == Check(b, value)
  {
  }
}
