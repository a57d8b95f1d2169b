/**
 * The upstream of every operator: a query whose pull cursor (tryAdvance,
 * hasNext/next) and push traversal (traverse, shortCircuit) share one
 * position, and the list source adapter AdvancerList, whose traversal does
 * not share its cursor's position.
 */
module Queries {
  import opened Wrappers

  /** What a traversal callback returns: go on, or raise the finish signal (`Yield.bye()`). */
  datatype Signal = Continue | Finish

  /**
   * A query positioned somewhere in a finite sequence: `rest` holds the
   * elements neither protocol has produced yet. Every operator of the
   * library has one of these as its upstream.
   */
  class Query<T> {
    var rest: seq<T>

    constructor (data: seq<T>)
      ensures rest == data
    {
      rest := data;
    }

    /** Pull one element: yields the head of `rest` and reports whether there was one. */
    method TryAdvance() returns (ok: bool, out: seq<T>)
      modifies this
      ensures ok == (|old(rest)| > 0)
      ensures ok <==> |out| == 1
      ensures out + rest == old(rest)
    {
      if |rest| == 0 {
        ok, out := false, [];
      } else {
        ok, out := true, [rest[0]];
        rest := rest[1..];
      }
    }

    /** Peek: whether a next element exists; consumes nothing. */
    method HasNext() returns (b: bool)
      ensures b == (|rest| > 0)
    {
      b := |rest| > 0;
    }

    /** Take the next element; on an exhausted cursor this throws and consumes nothing. */
    method Next() returns (r: Result<T>)
      modifies this
      ensures |old(rest)| == 0 ==> r == Err(NoSuchElement) && rest == old(rest)
      ensures |old(rest)| > 0 ==> r == Ok(old(rest)[0]) && rest == old(rest)[1..]
    {
      if |rest| == 0 {
        r := Err(NoSuchElement);
      } else {
        r := Ok(rest[0]);
        rest := rest[1..];
      }
    }

    /** Push every remaining element, in order; the query is exhausted afterwards. */
    method Traverse() returns (out: seq<T>)
      modifies this
      ensures out == old(rest)
      ensures rest == []
    {
      out := rest;
      rest := [];
    }

    /**
     * `shortCircuit(yield)`: push elements until the callback `f` raises the
     * finish signal, which is caught here. `stopped` says whether it was raised;
     * the element that raised it is the last one pushed, and the rest stay.
     */
    method ShortCircuit(f: T -> Signal) returns (pushed: seq<T>, stopped: bool)
      modifies this
      ensures pushed + rest == old(rest)
      ensures stopped ==> |pushed| > 0 && f(pushed[|pushed| - 1]) == Finish
      ensures forall i :: 0 <= i < |pushed| - 1 ==> f(pushed[i]) == Continue
      ensures !stopped ==> rest == [] && forall i :: 0 <= i < |pushed| ==> f(pushed[i]) == Continue
    {
      pushed, stopped := [], false;
      while |rest| > 0 && !stopped
        invariant pushed + rest == old(rest)
        invariant stopped ==> |pushed| > 0 && f(pushed[|pushed| - 1]) == Finish
        invariant forall i :: 0 <= i < |pushed| - 1 ==> f(pushed[i]) == Continue
        invariant !stopped ==> forall i :: 0 <= i < |pushed| ==> f(pushed[i]) == Continue
        decreases |rest|
      {
        var item := rest[0];
        pushed, rest := pushed + [item], rest[1..];
        stopped := f(item) == Finish;
      }
    }
  }

  /** Pulling `k` times and then traversing produces every element once, in order. */
  method QueryPullThenPush<T>(data: seq<T>, k: nat) returns (pulled: seq<T>, pushed: seq<T>)
    ensures pulled == data[..if k <= |data| then k else |data|]
    ensures pulled + pushed == data
  {
    var q := new Query(data);
    pulled := [];
    for i := 0 to k
      invariant pulled + q.rest == data
      invariant |pulled| == if i <= |data| then i else |data|
    {
      var ok, out := q.TryAdvance();
      pulled := pulled + out;
    }
    assert pulled == data[..|pulled|];
    pushed := q.Traverse();
  }

  /**
   * `AdvancerList`: a list with an iterator `current`, here the index `pos`
   * of the next element the iterator returns.
   */
  class AdvancerList<U> {
    const data: seq<U>
    var pos: nat

    ghost predicate Valid()
      reads this
    {
      pos <= |data|
    }

    constructor (data: seq<U>)
      ensures Valid() && this.data == data && pos == 0
    {
      this.data := data;
      pos := 0;
    }

    /** Pull: the next list element, or false once the iterator is exhausted. */
    method TryAdvance() returns (ok: bool, out: seq<U>)
      requires Valid()
      modifies this
      ensures Valid()
      ensures ok == (old(pos) < |data|)
      ensures !ok ==> out == [] && pos == old(pos)
      ensures ok ==> out == [data[old(pos)]] && pos == old(pos) + 1
    {
      if pos == |data| {
        ok, out := false, [];
      } else {
        ok, out := true, [data[pos]];
        pos := pos + 1;
      }
    }

    /**
     * Push: throws IllegalStateException once the iterator has no next
     * element, an empty list included; otherwise yields the whole list from
     * index 0 and leaves the iterator where it was.
     */
    method Traverse() returns (r: Result<seq<U>>)
      requires Valid()
      ensures r.Err? <==> pos == |data|
      ensures r.Err? ==> r.failure == IllegalState
      ensures r.Ok? ==> r.value == data
    {
      if pos == |data| {
        r := Err(IllegalState);
      } else {
        r := Ok(data);
      }
    }
  }

  /** On a list of length n, exactly n pulls succeed, yielding the list in order. */
  method ListPullAll<U>(data: seq<U>) returns (n: nat, pulled: seq<U>)
    ensures n == |data|
    ensures pulled == data
  {
    var l := new AdvancerList(data);
    n, pulled := 0, [];
    var ok := true;
    while ok
      invariant l.Valid() && l.data == data
      invariant n == l.pos && pulled == data[..n]
      invariant !ok ==> n == |data|
      decreases |data| - l.pos, ok
    {
      var out;
      ok, out := l.TryAdvance();
      if ok {
        n := n + 1;
        pulled := pulled + out;
      }
    }
  }

  /**
   * Pulling `k` elements of a longer list and then traversing it yields
   * the first `k` elements twice: the traversal starts again at index 0.
   */
  method ListPullThenPush<U>(data: seq<U>, k: nat) returns (pulled: seq<U>, pushed: Result<seq<U>>)
    requires k < |data|
    ensures pulled == data[..k]
    ensures pushed == Ok(data)
  {
    var l := new AdvancerList(data);
    pulled := [];
    for i := 0 to k
      invariant l.Valid() && l.data == data
      invariant l.pos == i && pulled == data[..i]
    {
      var ok, out := l.TryAdvance();
      pulled := pulled + out;
    }
    pushed := l.Traverse();
  }

  /** The list `[1, 2]`, pulled once and then traversed, yields 1 twice. */
  method ListDuplicatesExample() returns (all: seq<int>)
    ensures all == [1, 1, 2]
  {
    var pulled, pushed := ListPullThenPush([1, 2], 1);
    all := pulled + pushed.value;
  }
}
