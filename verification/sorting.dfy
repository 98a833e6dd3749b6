/** Stable insertion sort by an integer-sequence key: the model of SQL
    `ORDER BY` (titles compare by code points, positions as one-element keys)
    and of Python's `sorted` on strings. */
module Sorting {

  /** Lexicographic order on integer sequences; a proper prefix comes first. */
  predicate LexLe(a: seq<int>, b: seq<int>)
    decreases |a|
  {
    |a| == 0 || (|b| > 0 && (a[0] < b[0] || (a[0] == b[0] && LexLe(a[1..], b[1..]))))
  }

  lemma {:induction false} LexLeTotal(a: seq<int>, b: seq<int>)
    ensures LexLe(a, b) || LexLe(b, a)
    decreases |a|
  {
    if |a| > 0 && |b| > 0 && a[0] == b[0] {
      LexLeTotal(a[1..], b[1..]);
    }
  }

  lemma {:induction false} LexLeTransitive(a: seq<int>, b: seq<int>, c: seq<int>)
    requires LexLe(a, b) && LexLe(b, c)
    ensures LexLe(a, c)
    decreases |a|
  {
    if |a| > 0 && a[0] == b[0] && b[0] == c[0] {
      LexLeTransitive(a[1..], b[1..], c[1..]);
    }
  }

  /** One-element keys compare as their elements. */
  lemma LexLeSingle(a: int, b: int)
    ensures LexLe([a], [b]) <==> a <= b
  {
    assert [a][1..] == [];
  }

  /** Code points of a string, the key of a string under code-point order. */
  function Codes(s: string): (r: seq<int>)
    ensures |r| == |s|
  {
    seq(|s|, i requires 0 <= i < |s| => s[i] as int)
  }

  predicate SortedBy<T>(s: seq<T>, key: T -> seq<int>) {
    forall i, j :: 0 <= i < j < |s| ==> LexLe(key(s[i]), key(s[j]))
  }

  /** Inserts `x` after every element whose key is not greater than its own. */
  function InsertBy<T>(x: T, s: seq<T>, key: T -> seq<int>): (r: seq<T>)
    requires SortedBy(s, key)
    ensures multiset(r) == multiset(s) + multiset{x}
    ensures SortedBy(r, key)
    decreases |s|
  {
    if |s| == 0 then [x]
    else if !LexLe(key(s[0]), key(x)) then
      LexLeTotal(key(s[0]), key(x));
      forall j | 0 <= j < |s| ensures LexLe(key(x), key(s[j])) {
        if j > 0 { LexLeTransitive(key(x), key(s[0]), key(s[j])); }
      }
      [x] + s
    else
      var rest := InsertBy(x, s[1..], key);
      assert s == [s[0]] + s[1..];
      forall y | y in rest ensures LexLe(key(s[0]), key(y)) {
        assert y in multiset(rest);
        if y != x {
          assert y in multiset(s[1..]);
          var j :| 0 <= j < |s[1..]| && s[1..][j] == y;
          assert s[j + 1] == y;
        }
      }
      [s[0]] + rest
  }

  /** The elements of `s` ordered by key; elements with equal keys keep their order. */
  function SortBy<T>(s: seq<T>, key: T -> seq<int>): (r: seq<T>)
    ensures multiset(r) == multiset(s)
    ensures SortedBy(r, key)
    decreases |s|
  {
    if |s| == 0 then []
    else
      assert s == s[..|s| - 1] + [s[|s| - 1]];
      InsertBy(s[|s| - 1], SortBy(s[..|s| - 1], key), key)
  }
}
