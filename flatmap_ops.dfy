/**
 * `IntAdvancerFlatMap`: each upstream element replaced by the elements of
 * the query `mapper` builds from it. For pulling it keeps the current
 * sub-query in the field `src`, which starts out empty.
 */
module FlatMapOps {
  import opened Queries
  import opened Sequences

  class AdvancerFlatMap<T> {
    const upstream: Query<T>
    const mapper: T -> seq<T>
    var src: Query<T>

    ghost predicate Valid()
      reads this
    {
      src != upstream
    }

    constructor (upstream: Query<T>, mapper: T -> seq<T>)
      ensures Valid() && fresh(src)
      ensures this.upstream == upstream && this.mapper == mapper
      ensures src.rest == []
    {
      this.upstream := upstream;
      this.mapper := mapper;
      src := new Query([]);
    }

    /** What is left: the rest of the current sub-query, then the sub-queries still to come. */
    ghost function Pending(): seq<T>
      reads this, upstream, src
    {
      src.rest + FlatMap(mapper, upstream.rest)
    }

    /**
     * Push: the concatenation of the sub-queries of the upstream elements, in
     * order. The current sub-query `src` is neither consulted nor changed.
     */
    method Traverse() returns (out: seq<T>)
      requires Valid()
      modifies upstream
      ensures out == FlatMap(mapper, old(upstream.rest))
      ensures upstream.rest == []
    {
      var items := upstream.Traverse();
      out := [];
      for i := 0 to |items|
        invariant out == FlatMap(mapper, items[..i])
        invariant upstream.rest == []
      {
        var sub := new Query(mapper(items[i]));
        var pushed := sub.Traverse();
        assert items[..i + 1] == items[..i] + [items[i]];
        FlatMapAppend(mapper, items[..i], [items[i]]);
        out := out + pushed;
      }
      assert items[..|items|] == items;
    }

    /** Push that first drains the current sub-query, so that it resumes where pulling stopped. */
    method TraverseResumed() returns (out: seq<T>)
      requires Valid()
      modifies upstream, src
      ensures out == old(Pending())
      ensures Pending() == []
    {
      var current := src.Traverse();
      var more := Traverse();
      out := current + more;
    }

    /**
     * Pull: drains the current sub-query before pulling the next upstream
     * element, skipping empty sub-queries; false only when the current
     * sub-query and upstream are both exhausted.
     */
    method TryAdvance() returns (ok: bool, out: seq<T>)
      requires Valid()
      modifies this, upstream, src
      ensures Valid() && (src == old(src) || fresh(src))
      ensures ok == (|old(Pending())| > 0)
      ensures ok <==> |out| == 1
      ensures out + Pending() == old(Pending())
      ensures !ok ==> src.rest == [] && upstream.rest == []
      ensures |old(src.rest)| > 0 ==> src == old(src)
      ensures src == old(src) ==> upstream.rest == old(upstream.rest)
      ensures ok && src == old(src) ==> out + src.rest == old(src.rest)
      ensures |upstream.rest| <= |old(upstream.rest)|
      ensures upstream.rest == old(upstream.rest)[|old(upstream.rest)| - |upstream.rest|..]
      ensures ok && src != old(src) ==>
        (|upstream.rest| < |old(upstream.rest)|
         && out + src.rest == mapper(old(upstream.rest)[|old(upstream.rest)| - |upstream.rest| - 1]))
    {
      while true
        invariant Valid() && (src == old(src) || fresh(src))
        invariant Pending() == old(Pending())
        invariant |old(src.rest)| > 0 ==> src == old(src) && src.rest == old(src.rest)
        invariant |upstream.rest| <= |old(upstream.rest)|
        invariant upstream.rest == old(upstream.rest)[|old(upstream.rest)| - |upstream.rest|..]
        invariant src == old(src) ==> upstream.rest == old(upstream.rest) && src.rest == old(src.rest)
        invariant src != old(src) ==>
          (|upstream.rest| < |old(upstream.rest)|
           && src.rest == mapper(old(upstream.rest)[|old(upstream.rest)| - |upstream.rest| - 1]))
        decreases |upstream.rest|
      {
        ok, out := src.TryAdvance();
        if ok {
          return;
        }
        ghost var before := upstream.rest;
        var hasNext, items := upstream.TryAdvance();
        if !hasNext {
          return;
        }
        assert before == items + upstream.rest;
        assert items[0] == old(upstream.rest)[|old(upstream.rest)| - |upstream.rest| - 1];
        src := new Query(mapper(items[0]));
      }
    }
  }

  /**
   * Pulling `k` times and then traversing with the resuming push produces
   * the flat-map of the upstream once, in order.
   */
  method FlatMapPullThenPush<T>(data: seq<T>, f: T -> seq<T>, k: nat) returns (pulled: seq<T>, pushed: seq<T>)
    ensures pulled + pushed == FlatMap(f, data)
  {
    var q := new Query(data);
    var m := new AdvancerFlatMap(q, f);
    pulled := [];
    for i := 0 to k
      invariant m.Valid() && m.upstream == q && m.mapper == f && fresh(m.src)
      invariant pulled + m.Pending() == FlatMap(f, data)
    {
      var ok, out := m.TryAdvance();
      PullShift(pulled, out, m.Pending());
      pulled := pulled + out;
    }
    pushed := m.TraverseResumed();
  }

  /**
   * flat-map of `x -> [x, x]` over `[1, 2]`, pulled once and then traversed as
   * written, yields `[1]` and then `[2, 2]`: the second 1 is not pushed.
   */
  method FlatMapPullThenPushAsWritten() returns (pulled: seq<int>, pushed: seq<int>)
    ensures pulled == [1] && pushed == [2, 2]
  {
    var f := (x: int) => [x, x];
    var q := new Query([1, 2]);
    var m := new AdvancerFlatMap(q, f);
    assert FlatMap(f, [2]) == [2, 2] + FlatMap(f, []);
    assert [1, 2][1..] == [2];
    var ok;
    ok, pulled := m.TryAdvance();
    assert q.rest == [2];
    assert pulled + m.src.rest == [1, 1];
    assert (pulled + m.src.rest)[0] == pulled[0] == 1;
    pushed := m.Traverse();
  }
}
