/** `exclude(list, value)` from packages/lib: `list.filter(item => item !== value)`. */
module Exclude {

  /** Number of occurrences of `v` in `s`. */
  function Occurrences<T(==)>(s: seq<T>, v: T): nat
  {
    if s == [] then 0 else (if s[0] == v then 1 else 0) + Occurrences(s[1..], v)
  }

  function Exclude<T(==)>(list: seq<T>, v: T): (r: seq<T>)
    ensures v !in r
    ensures |r| == |list| - Occurrences(list, v)
    ensures forall i :: 0 <= i < |list| && list[i] != v ==> list[i] in r
    ensures forall j :: 0 <= j < |r| ==> r[j] in list
  {
    if list == [] then []
    else
      assert list == [list[0]] + list[1..];
      (if list[0] == v then [] else [list[0]]) + Exclude(list[1..], v)
  }

  /**
   * Order is kept: the element at position `i` of `list`, when it is not `v`,
   * lands at the position given by the number of kept elements before it.
   */
  lemma {:induction false} ExcludeKeepsOrder<T>(list: seq<T>, v: T, i: nat)
    requires i < |list| && list[i] != v
    ensures var p := i - Occurrences(list[..i], v);
            0 <= p < |Exclude(list, v)| && Exclude(list, v)[p] == list[i]
  {
    if i > 0 {
      var tail := list[1..];
      ExcludeKeepsOrder(tail, v, i - 1);
      assert tail[..i - 1] == list[..i][1..];
      assert Occurrences(list[..i], v) == (if list[0] == v then 1 else 0) + Occurrences(tail[..i - 1], v);
      var head: seq<T> := if list[0] == v then [] else [list[0]];
      assert Exclude(list, v) == head + Exclude(tail, v);
    }
  }

  /** Excluding a value that does not occur gives back the list itself. */
  lemma {:induction false} ExcludeAbsent<T>(list: seq<T>, v: T)
    requires v !in list
    ensures Exclude(list, v) == list
  {
    if list != [] {
      ExcludeAbsent(list[1..], v);
      assert list == [list[0]] + list[1..];
      assert Exclude(list, v) == [list[0]] + Exclude(list[1..], v);
    }
  }

  /** Exclusion removes every copy of `v` and nothing else. */
  lemma {:induction false} ExcludeMultiset<T>(list: seq<T>, v: T)
    ensures multiset(Exclude(list, v)) == multiset(list)[v := 0]
  {
    if list != [] {
      var tail := list[1..];
      ExcludeMultiset(tail, v);
      assert list == [list[0]] + tail;
      assert multiset(list) == multiset{list[0]} + multiset(tail);
      DropAll(multiset(tail), list[0], v);
      if list[0] == v {
        assert Exclude(list, v) == Exclude(tail, v);
      } else {
        assert Exclude(list, v) == [list[0]] + Exclude(tail, v);
      }
    }
  }

  /** Zeroing the count of `v` commutes with adding one `x` other than `v`, and absorbs an added `v`. */
  lemma DropAll<T>(m: multiset<T>, x: T, v: T)
    ensures (multiset{x} + m)[v := 0] == if x == v then m[v := 0] else multiset{x} + m[v := 0]
  {
  }
}
