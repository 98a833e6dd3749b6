/** Small sequence combinators: order-preserving filtering and maxima. */
module Seqs {

  /** The elements of `s` satisfying `p`, in their original order (a list comprehension with a guard). */
  function Filter<T(!new)>(s: seq<T>, p: T -> bool): (r: seq<T>)
    ensures |r| <= |s|
    ensures forall x :: x in r <==> x in s && p(x)
    ensures forall i :: 0 <= i < |r| ==> p(r[i])
    decreases |s|
  {
    if |s| == 0 then []
    else if p(s[0]) then [s[0]] + Filter(s[1..], p)
    else Filter(s[1..], p)
  }

  /** The results of `f` on each element, concatenated in order. */
  function FlatMap<A(!new), B(!new)>(s: seq<A>, f: A -> seq<B>): (r: seq<B>)
    ensures forall y :: y in r <==> exists k :: 0 <= k < |s| && y in f(s[k])
    decreases |s|
  {
    if |s| == 0 then []
    else
      assert forall k :: 1 <= k < |s| ==> s[1..][k - 1] == s[k];
      f(s[0]) + FlatMap(s[1..], f)
  }

  /** Filtering distributes over appending one element. */
  lemma {:induction false} FilterAppend<T(!new)>(s: seq<T>, x: T, p: T -> bool)
    ensures Filter(s + [x], p) == Filter(s, p) + (if p(x) then [x] else [])
    decreases |s|
  {
    if |s| > 0 {
      assert (s + [x])[1..] == s[1..] + [x];
      FilterAppend(s[1..], x, p);
    }
  }

  /** What a sequence gained after one append and further appends. */
  lemma AppendedSuffix<T>(before: seq<T>, mid: seq<T>, after: seq<T>, x: T)
    requires mid == before + [x] && mid <= after
    ensures before <= after && after[|before|..] == [x] + after[|mid|..]
  {
  }

  /** Appending a sequence is appending all but its last element, then the last. */
  lemma AppendLast<T>(a: seq<T>, s: seq<T>)
    requires |s| > 0
    ensures (a + s[..|s| - 1]) + [s[|s| - 1]] == a + s
  {
    assert s[..|s| - 1] + [s[|s| - 1]] == s;
  }

  lemma SliceAt<T>(s: seq<T>, i: nat, k: nat)
    requires i + k < |s|
    ensures s[i..][k] == s[i + k]
  {
  }

  lemma InLast<T>(s: seq<T>, x: T)
    ensures x in s + [x]
  {
    assert (s + [x])[|s|] == x;
  }

  /** An element of a concatenation comes from one of its parts. */
  lemma InAppend<T>(a: seq<T>, b: seq<T>, x: T)
    requires x in a + b
    ensures x in a || exists k :: 0 <= k < |b| && b[k] == x
  {
    if x !in a {
      var i :| 0 <= i < |a + b| && (a + b)[i] == x;
      assert b[i - |a|] == x;
    }
  }

  function MaxOr(s: seq<int>, d: int): (r: int)
    ensures |s| == 0 ==> r == d
    ensures |s| > 0 ==> r in s && forall i :: 0 <= i < |s| ==> s[i] <= r
    decreases |s|
  {
    if |s| == 0 then d
    else if |s| == 1 then s[0]
    else
      var m := MaxOr(s[1..], d);
      if s[0] >= m then s[0] else m
  }
}
