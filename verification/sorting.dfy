/** Sorting by a string key under `Lex.Less`. The sorts modelled here
    order sequences whose keys are distinct (the per-day buckets of a map
    and the elements of a set), where every correct sort gives the same
    result; insertion sort stands in for `Array.prototype.sort`. */
module Sorting {
  import Lex
  import Seqs

  predicate StrictlyAscending<T>(s: seq<T>, key: T -> string) {
    forall i, j :: 0 <= i < j < |s| ==> Lex.Less(key(s[i]), key(s[j]))
  }

  predicate DistinctKeys<T>(s: seq<T>, key: T -> string) {
    forall i, j :: 0 <= i < j < |s| ==> key(s[i]) != key(s[j])
  }

  function Insert<T(==,!new)>(x: T, s: seq<T>, key: T -> string): (r: seq<T>)
    ensures multiset(r) == multiset(s) + multiset{x}
    ensures StrictlyAscending(s, key) && (forall y :: y in s ==> key(y) != key(x))
            ==> StrictlyAscending(r, key)
    decreases |s|
  {
    if |s| == 0 || Lex.Less(key(x), key(s[0])) then
      PrependAscending(x, s, key);
      [x] + s
    else
      var tail := Insert(x, s[1..], key);
      assert s == [s[0]] + s[1..];
      AfterHeadAscending(x, s, tail, key);
      [s[0]] + tail
  }

  /** An element whose key precedes the head's can go in front. */
  lemma PrependAscending<T>(x: T, s: seq<T>, key: T -> string)
    requires |s| == 0 || Lex.Less(key(x), key(s[0]))
    ensures StrictlyAscending(s, key) ==> StrictlyAscending([x] + s, key)
  {
    var r := [x] + s;
    assert s == r[1..];
    if StrictlyAscending(s, key) && |s| > 0 {
      forall j | 1 <= j < |r|
        ensures Lex.Less(key(r[0]), key(r[j]))
      {
        if j > 1 {
          Lex.Transitive(key(x), key(s[0]), key(s[j - 1]));
        }
      }
    }
  }

  /** An element whose key does not precede the head's goes into the tail;
      the head stays in front. */
  lemma AfterHeadAscending<T(!new)>(x: T, s: seq<T>, tail: seq<T>, key: T -> string)
    requires |s| > 0 && !Lex.Less(key(x), key(s[0]))
    requires multiset(tail) == multiset(s[1..]) + multiset{x}
    requires StrictlyAscending(s[1..], key) && (forall y :: y in s[1..] ==> key(y) != key(x))
             ==> StrictlyAscending(tail, key)
    ensures StrictlyAscending(s, key) && (forall y :: y in s ==> key(y) != key(x))
            ==> StrictlyAscending([s[0]] + tail, key)
  {
    var r := [s[0]] + tail;
    if StrictlyAscending(s, key) && (forall y :: y in s ==> key(y) != key(x)) {
      assert StrictlyAscending(s[1..], key);
      assert forall y :: y in s[1..] ==> y in s;
      assert StrictlyAscending(tail, key);
      Lex.Trichotomy(key(x), key(s[0]));
      forall j | 1 <= j < |r|
        ensures Lex.Less(key(r[0]), key(r[j]))
      {
        assert r[j] in multiset(tail);
        assert r[j] == x || r[j] in multiset(s[1..]);
        if r[j] != x {
          var k :| 0 <= k < |s[1..]| && s[1..][k] == r[j];
          assert s[k + 1] == r[j];
        }
      }
      assert r[1..] == tail;
    }
  }

  function Sort<T(==,!new)>(s: seq<T>, key: T -> string): (r: seq<T>)
    ensures multiset(r) == multiset(s)
    ensures DistinctKeys(s, key) ==> StrictlyAscending(r, key)
    decreases |s|
  {
    if |s| == 0 then []
    else
      var rest := Sort(s[1..], key);
      assert s == [s[0]] + s[1..];
      SortStep(s, rest, key);
      Insert(s[0], rest, key)
  }

  /** What inserting the head into the sorted tail needs: distinct keys
      stay distinct in the tail, and none of them is the head's. */
  lemma SortStep<T(!new)>(s: seq<T>, rest: seq<T>, key: T -> string)
    requires |s| > 0 && multiset(rest) == multiset(s[1..])
    requires DistinctKeys(s[1..], key) ==> StrictlyAscending(rest, key)
    ensures DistinctKeys(s, key) ==>
              StrictlyAscending(rest, key) && forall y :: y in rest ==> key(y) != key(s[0])
  {
    if DistinctKeys(s, key) {
      assert DistinctKeys(s[1..], key);
      OthersKeyDiffer(s, rest, key);
    }
  }

  /** In a sequence with distinct keys, no rearrangement of the tail holds
      the head's key. */
  lemma OthersKeyDiffer<T(!new)>(s: seq<T>, rest: seq<T>, key: T -> string)
    requires |s| > 0 && DistinctKeys(s, key)
    requires multiset(rest) == multiset(s[1..])
    ensures forall y :: y in rest ==> key(y) != key(s[0])
  {
    forall y | y in rest
      ensures key(y) != key(s[0])
    {
      assert y in multiset(s[1..]);
      var k :| 0 <= k < |s[1..]| && s[1..][k] == y;
      assert s[k + 1] == y;
    }
  }

  lemma {:induction false} InsertSum<T(!new)>(x: T, s: seq<T>, key: T -> string, w: T -> int)
    ensures Seqs.SumOf(Insert(x, s, key), w) == w(x) + Seqs.SumOf(s, w)
    decreases |s|
  {
    if |s| > 0 && !Lex.Less(key(x), key(s[0])) {
      InsertSum(x, s[1..], key, w);
      assert Insert(x, s, key)[1..] == Insert(x, s[1..], key);
    } else {
      assert Insert(x, s, key)[1..] == s;
    }
  }

  /** Sorting does not change a sum. */
  lemma {:induction false} SortSum<T(!new)>(s: seq<T>, key: T -> string, w: T -> int)
    ensures Seqs.SumOf(Sort(s, key), w) == Seqs.SumOf(s, w)
    decreases |s|
  {
    if |s| > 0 {
      SortSum(s[1..], key, w);
      InsertSum(s[0], Sort(s[1..], key), key, w);
    }
  }
  /** A strictly ascending order of a set of elements is the only one:
      two such sequences with the same elements are equal. */
  lemma {:induction false} AscendingUnique<T(!new)>(a: seq<T>, b: seq<T>, key: T -> string)
    requires StrictlyAscending(a, key) && StrictlyAscending(b, key)
    requires forall x :: x in a <==> x in b
    ensures a == b
    decreases |a|
  {
    SameEmpty(a, b);
    if |a| > 0 {
      HeadIsLeast(a, b, key);
      HeadIsLeast(b, a, key);
      assert a[0] == b[0] by {
        if a[0] != b[0] {
          Lex.Asymmetric(key(a[0]), key(b[0]));
        }
      }
      forall x
        ensures x in a[1..] <==> x in b[1..]
      {
        TailMember(a, x, key);
        TailMember(b, x, key);
      }
      AscendingUnique(a[1..], b[1..], key);
      assert a == [a[0]] + a[1..] && b == [b[0]] + b[1..];
    }
  }

  /** Sequences with the same elements are empty together. */
  lemma SameEmpty<T(!new)>(a: seq<T>, b: seq<T>)
    requires forall x :: x in a <==> x in b
    ensures |a| == 0 <==> |b| == 0
  {
    if |a| > 0 {
      assert a[0] in b;
    }
    if |b| > 0 {
      assert b[0] in a;
    }
  }

  /** The head of a strictly ascending sequence precedes, in key order,
      every element of an equal-membership sequence other than itself. */
  lemma HeadIsLeast<T(!new)>(a: seq<T>, b: seq<T>, key: T -> string)
    requires |a| > 0 && |b| > 0
    requires StrictlyAscending(a, key)
    requires forall x :: x in a <==> x in b
    ensures b[0] == a[0] || Lex.Less(key(a[0]), key(b[0]))
  {
    assert b[0] in a;
    var k :| 0 <= k < |a| && a[k] == b[0];
  }

  /** In a strictly ascending sequence, an element belongs to the tail
      exactly when it belongs and is not the head. */
  lemma TailMember<T(!new)>(a: seq<T>, x: T, key: T -> string)
    requires |a| > 0 && StrictlyAscending(a, key)
    ensures x in a[1..] <==> x in a && x != a[0]
  {
    assert a == [a[0]] + a[1..];
    if x in a[1..] {
      var k :| 0 <= k < |a[1..]| && a[1..][k] == x;
      assert Lex.Less(key(a[0]), key(a[k + 1]));
      Lex.Irreflexive(key(a[0]));
    }
  }
}
