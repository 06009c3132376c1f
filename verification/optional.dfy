/** The optional fields of the tracker's records (`hours?`, `restaurant?`,
    `notes?`) and the bounds of the report range, which may be absent. */
module Optional {

  datatype Option<+T> = None | Some(value: T) {

    /** The value, or `default` when absent: JavaScript's `x ?? default`. */
    function GetOr(default: T): T {
      match this
      case Some(v) => v
      case None => default
    }
  }

  /** The present values, in order: what is left of a list of results once
      the missing ones are skipped. */
  function Values<T>(opts: seq<Option<T>>): (vs: seq<T>)
    ensures |vs| <= |opts|
    decreases |opts|
  {
    if |opts| == 0 then []
    else (if opts[0].Some? then [opts[0].value] else []) + Values(opts[1..])
  }

  /** How many of the results are present. */
  function CountSome<T>(opts: seq<Option<T>>): (n: nat)
    ensures n <= |opts|
    decreases |opts|
  {
    if |opts| == 0 then 0 else (if opts[0].Some? then 1 else 0) + CountSome(opts[1..])
  }

  /** There is one value per present result. */
  lemma {:induction false} ValuesCount<T>(opts: seq<Option<T>>)
    ensures |Values(opts)| == CountSome(opts)
    decreases |opts|
  {
    if |opts| > 0 {
      ValuesCount(opts[1..]);
    }
  }

  /** A present result's value stands among the values at the position
      given by the number of present results before it. */
  lemma {:induction false} ValuesAt<T>(opts: seq<Option<T>>, i: nat)
    requires i < |opts| && opts[i].Some?
    ensures CountSome(opts[..i]) < |Values(opts)|
    ensures Values(opts)[CountSome(opts[..i])] == opts[i].value
    decreases i
  {
    ValuesCount(opts);
    if i > 0 {
      var tail := opts[1..];
      ValuesAt(tail, i - 1);
      assert opts[..i][1..] == tail[..i - 1];
      var head: seq<T> := if opts[0].Some? then [opts[0].value] else [];
      assert Values(opts) == head + Values(tail);
      assert CountSome(opts[..i]) == |head| + CountSome(tail[..i - 1]);
    }
  }

  /** Nothing missing: the values are the results, one for one. */
  lemma {:induction false} ValuesAllPresent<T>(opts: seq<Option<T>>, want: seq<T>)
    requires |opts| == |want|
    requires forall i :: 0 <= i < |opts| ==> opts[i] == Some(want[i])
    ensures Values(opts) == want
    decreases |opts|
  {
    if |opts| > 0 {
      ValuesAllPresent(opts[1..], want[1..]);
      assert want == [want[0]] + want[1..];
    }
  }

  /** Everything missing: there are no values. */
  lemma {:induction false} ValuesNonePresent<T>(opts: seq<Option<T>>)
    requires forall i :: 0 <= i < |opts| ==> opts[i].None?
    ensures Values(opts) == []
    decreases |opts|
  {
    if |opts| > 0 {
      ValuesNonePresent(opts[1..]);
    }
  }

  /** A property every present value has holds of every value. */
  lemma {:induction false} ValuesSatisfy<T>(opts: seq<Option<T>>, p: T -> bool)
    requires forall i :: 0 <= i < |opts| && opts[i].Some? ==> p(opts[i].value)
    ensures forall k :: 0 <= k < |Values(opts)| ==> p(Values(opts)[k])
    decreases |opts|
  {
    if |opts| > 0 {
      ValuesSatisfy(opts[1..], p);
      var head: seq<T> := if opts[0].Some? then [opts[0].value] else [];
      var vs := Values(opts);
      assert vs == head + Values(opts[1..]);
      forall k | 0 <= k < |vs|
        ensures p(vs[k])
      {
        if k >= |head| {
          assert vs[k] == Values(opts[1..])[k - |head|];
        }
      }
    }
  }
}
