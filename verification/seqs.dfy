/** Sequence vocabulary shared by the record store, the report and the
    restaurant registry: order-preserving filtering, sums, removal of
    repeats. */
module Seqs {

  /** `a` is `b` with some elements deleted, the rest in their order. */
  predicate IsSubsequence<T(==,!new)>(a: seq<T>, b: seq<T>)
    decreases |b|
  {
    if |b| == 0 then |a| == 0
    else (|a| > 0 && a[0] == b[0] && IsSubsequence(a[1..], b[1..])) || IsSubsequence(a, b[1..])
  }

  predicate NoDuplicates<T(==,!new)>(s: seq<T>) {
    forall i, j :: 0 <= i < j < |s| ==> s[i] != s[j]
  }

  /** `s.filter(p)`. */
  function Filter<T(==,!new)>(s: seq<T>, p: T -> bool): (r: seq<T>)
    ensures forall x :: x in r <==> x in s && p(x)
    ensures forall x :: multiset(r)[x] == if p(x) then multiset(s)[x] else 0
    ensures IsSubsequence(r, s)
    ensures (forall i :: 0 <= i < |s| ==> p(s[i])) ==> r == s
    decreases |s|
  {
    if |s| == 0 then []
    else
      var rest := Filter(s[1..], p);
      HeadCount(s);
      if p(s[0]) then
        assert ([s[0]] + rest)[1..] == rest;
        assert forall i :: 1 <= i < |s| ==> s[1..][i - 1] == s[i];
        [s[0]] + rest
      else
        rest
  }

  lemma HeadCount<T>(s: seq<T>)
    requires |s| > 0
    ensures multiset(s) == multiset{s[0]} + multiset(s[1..])
  {
    assert s == [s[0]] + s[1..];
  }

  /** Filtering a concatenation filters each part. */
  lemma {:induction false} FilterAppend<T(!new)>(a: seq<T>, b: seq<T>, p: T -> bool)
    ensures Filter(a + b, p) == Filter(a, p) + Filter(b, p)
    decreases |a|
  {
    if |a| == 0 {
      assert a + b == b;
    } else {
      assert (a + b)[1..] == a[1..] + b;
      FilterAppend(a[1..], b, p);
    }
  }

  /** Nothing passes a filter that no element satisfies. */
  lemma {:induction false} FilterNone<T(!new)>(s: seq<T>, p: T -> bool)
    requires forall i :: 0 <= i < |s| ==> !p(s[i])
    ensures Filter(s, p) == []
    decreases |s|
  {
    if |s| > 0 {
      FilterNone(s[1..], p);
    }
  }

  /** The sum of `w` over `s`, added up from a running total of 0. */
  function SumOf<T>(s: seq<T>, w: T -> int): int
    decreases |s|
  {
    if |s| == 0 then 0 else w(s[0]) + SumOf(s[1..], w)
  }

  lemma {:induction false} SumOfAppend<T>(a: seq<T>, b: seq<T>, w: T -> int)
    ensures SumOf(a + b, w) == SumOf(a, w) + SumOf(b, w)
    decreases |a|
  {
    if |a| > 0 {
      assert (a + b)[1..] == a[1..] + b;
      SumOfAppend(a[1..], b, w);
    } else {
      assert a + b == b;
    }
  }

  /** Replacing one element changes the sum by the difference of weights. */
  lemma SumOfUpdate<T>(s: seq<T>, k: nat, x: T, w: T -> int)
    requires k < |s|
    ensures SumOf(s[k := x], w) == SumOf(s, w) - w(s[k]) + w(x)
  {
    assert s == s[..k] + [s[k]] + s[k + 1..];
    assert s[k := x] == s[..k] + [x] + s[k + 1..];
    SumOfAppend(s[..k] + [s[k]], s[k + 1..], w);
    SumOfAppend(s[..k], [s[k]], w);
    SumOfAppend(s[..k] + [x], s[k + 1..], w);
    SumOfAppend(s[..k], [x], w);
  }

  /** A non-empty sequence is its front followed by its last element. */
  lemma SplitLast<T>(s: seq<T>)
    requires |s| > 0
    ensures s == s[..|s| - 1] + [s[|s| - 1]]
  {
  }

  /** `[...new Set(s)]`: the first occurrence of every element, in order. */
  function Dedup<T(==,!new)>(s: seq<T>): (r: seq<T>)
    ensures forall x :: x in r <==> x in s
    ensures NoDuplicates(r)
    decreases |s|
  {
    if |s| == 0 then []
    else
      var r := Dedup(s[..|s| - 1]);
      var last := s[|s| - 1];
      assert forall x :: x in s <==> x in s[..|s| - 1] || x == last by {
        assert s == s[..|s| - 1] + [last];
      }
      if last in r then r else r + [last]
  }
}
