/**
 * packages/node_lib/src/insensitive_like.ts: `iLike`, the SQL fragment and
 * binding of a case-insensitive substring match. Lower-casing is the ASCII
 * mapping of `A`-`Z` to `a`-`z`.
 */
module InsensitiveLike {

  function LowerChar(c: char): (r: char)
    ensures 'A' <= c <= 'Z' ==> r == c - 'A' + 'a'
    ensures !('A' <= c <= 'Z') ==> r == c
  {
    if 'A' <= c <= 'Z' then c - 'A' + 'a' else c
  }

  /** `String.prototype.toLowerCase` on ASCII letters. */
  function Lower(s: string): (r: string)
    ensures |r| == |s|
    ensures forall i :: 0 <= i < |s| ==> r[i] == LowerChar(s[i])
  {
    if s == [] then [] else [LowerChar(s[0])] + Lower(s[1..])
  }

  /** The fragment and its one binding, as `whereRaw` takes them. */
  datatype Clause = Clause(sql: string, bindings: seq<string>)

  function ILike(columnName: string, value: string): (r: Clause)
    ensures r.sql == "LOWER(" + columnName + ") LIKE ?"
    ensures |r.bindings| == 1 && r.bindings[0] == "%" + Lower(value) + "%"
  {
    Clause("LOWER(" + columnName + ") LIKE ?", ["%" + Lower(value) + "%"])
  }

  /** Lower-casing twice is lower-casing once. */
  lemma {:induction false} LowerIdempotent(s: string)
    ensures Lower(Lower(s)) == Lower(s)
  {
    if s != [] {
      LowerIdempotent(s[1..]);
      assert Lower(s)[1..] == Lower(s[1..]);
    }
  }

  /** The search is case-insensitive: a value and its lower-case form give the same clause. */
  lemma SameForLowerCase(columnName: string, value: string)
    ensures ILike(columnName, Lower(value)) == ILike(columnName, value)
  {
    LowerIdempotent(value);
  }

  /** Values that differ only in letter case give the same clause. */
  lemma CaseBlind(columnName: string, a: string, b: string)
    requires Lower(a) == Lower(b)
    ensures ILike(columnName, a) == ILike(columnName, b)
  {
  }

  /** The binding holds no upper-case ASCII letter, and the column name sits in the fragment unchanged. */
  lemma BindingIsLowerCase(columnName: string, value: string)
    ensures forall c :: c in ILike(columnName, value).bindings[0] ==> !('A' <= c <= 'Z')
    ensures ILike(columnName, value).sql[6..6 + |columnName|] == columnName
  {
    var b := ILike(columnName, value).bindings[0];
    forall c | c in b
      ensures !('A' <= c <= 'Z')
    {
      var i :| 0 <= i < |b| && b[i] == c;
      if 0 < i < |b| - 1 {
        assert b[i] == Lower(value)[i - 1];
      }
    }
  }
}
