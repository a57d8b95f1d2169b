/**
 * The 1:1 mapping operators: `DoubleAdvancerMap` (push and pull, the
 * element type kept generic) and `TraversableMapToInt` (push only).
 * Neither holds state beyond its upstream and its mapper.
 */
module MapOps {
  import opened Queries
  import opened Sequences

  class AdvancerMap<T, U> {
    const upstream: Query<T>
    const mapper: T -> U

    constructor (upstream: Query<T>, mapper: T -> U)
      ensures this.upstream == upstream && this.mapper == mapper
    {
      this.upstream := upstream;
      this.mapper := mapper;
    }

    ghost function Pending(): seq<U>
      reads upstream
    {
      Map(mapper, upstream.rest)
    }

    /** Push: `mapper(e)` for each upstream element `e`, in order, one for one. */
    method Traverse() returns (out: seq<U>)
      modifies upstream
      ensures |out| == |old(upstream.rest)|
      ensures forall i :: 0 <= i < |out| ==> out[i] == mapper(old(upstream.rest)[i])
      ensures out == old(Pending()) && upstream.rest == []
    {
      var items := upstream.Traverse();
      out := Map(mapper, items);
      forall i | 0 <= i < |out| ensures out[i] == mapper(items[i]) {
        MapAt(mapper, items, i);
      }
    }

    /** Pull: returns what upstream's pull returns, yielding `mapper(item)` for its item. */
    method TryAdvance() returns (ok: bool, out: seq<U>)
      modifies upstream
      ensures ok == (|old(upstream.rest)| > 0)
      ensures ok ==> out == [mapper(old(upstream.rest)[0])] && upstream.rest == old(upstream.rest)[1..]
      ensures !ok ==> out == [] && upstream.rest == old(upstream.rest)
      ensures out + Pending() == old(Pending())
    {
      var items;
      ok, items := upstream.TryAdvance();
      out := Map(mapper, items);
      if ok {
        MapAt(mapper, items, 0);
      }
      MapAppend(mapper, items, upstream.rest);
    }
  }

  /** Pulling `k` times and then traversing maps every upstream element once, in order. */
  method MapPullThenPush<T, U>(data: seq<T>, f: T -> U, k: nat) returns (pulled: seq<U>, pushed: seq<U>)
    ensures pulled + pushed == Map(f, data)
  {
    var q := new Query(data);
    var m := new AdvancerMap(q, f);
    pulled := [];
    for i := 0 to k
      invariant m.upstream == q && m.mapper == f
      invariant pulled + m.Pending() == Map(f, data)
    {
      var ok, out := m.TryAdvance();
      PullShift(pulled, out, m.Pending());
      pulled := pulled + out;
    }
    pushed := m.Traverse();
  }

  /** `TraversableMapToInt`: a push-only source mapped element by element to int. */
  class TraversableMapToInt<T> {
    const src: Query<T>
    const mapper: T -> int

    constructor (src: Query<T>, mapper: T -> int)
      ensures this.src == src && this.mapper == mapper
    {
      this.src := src;
      this.mapper := mapper;
    }

    /**
     * Push: `mapper(e)` for each source element `e`, in source order; nothing
     * is filtered, and an empty source yields nothing.
     */
    method Traverse() returns (out: seq<int>)
      modifies src
      ensures out == Map(mapper, old(src.rest))
      ensures src.rest == []
    {
      var items := src.Traverse();
      out := Map(mapper, items);
    }
  }
}
