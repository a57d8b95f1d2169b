/**
 * `DoubleAdvancerSkip` (element type kept generic): the upstream without
 * its first `n` elements. `index` counts the upstream elements seen so far,
 * by either protocol, so a traversal resumes where pulling stopped.
 */
module SkipOps {
  import opened Queries
  import opened Sequences

  class AdvancerSkip<T> {
    const upstream: Query<T>
    const n: int
    var index: int

    constructor (upstream: Query<T>, n: int)
      ensures this.upstream == upstream && this.n == n && index == 0
    {
      this.upstream := upstream;
      this.n := n;
      index := 0;
    }

    /** Of the upstream elements left, those past the `n - index` still to discard. */
    ghost function Pending(): seq<T>
      reads this, upstream
    {
      Skip(upstream.rest, n - index)
    }

    /**
     * Push: every upstream element is counted; it is yielded only when the
     * count before it has reached `n`.
     */
    method Traverse() returns (out: seq<T>)
      modifies this, upstream
      ensures out == old(Pending())
      ensures index == old(index) + |old(upstream.rest)|
      ensures upstream.rest == []
    {
      var items := upstream.Traverse();
      ghost var index0 := index;
      out := [];
      for i := 0 to |items|
        invariant upstream.rest == []
        invariant index == index0 + i
        invariant out == Skip(items[..i], n - index0)
      {
        assert items[..i + 1] == items[..i] + [items[i]];
        SkipSnoc(items[..i], items[i], n - index0);
        if index >= n {
          out := out + [items[i]];
        }
        index := index + 1;
      }
      assert items[..|items|] == items;
    }

    /**
     * Pull: first discards upstream elements, one pull each, until `index`
     * reaches `n`, then forwards a single pull of the upstream.
     */
    method TryAdvance() returns (ok: bool, out: seq<T>)
      modifies this, upstream
      ensures index == if old(index) < n then n else old(index)
      ensures ok == (|old(Pending())| > 0)
      ensures ok <==> |out| == 1
      ensures out + Pending() == old(Pending())
      ensures |upstream.rest| <= |old(upstream.rest)|
      ensures upstream.rest == old(upstream.rest)[|old(upstream.rest)| - |upstream.rest|..]
    {
      while index < n
        invariant index == old(index) || old(index) < index <= n
        invariant Pending() == old(Pending())
        invariant |upstream.rest| <= |old(upstream.rest)|
        invariant upstream.rest == old(upstream.rest)[|old(upstream.rest)| - |upstream.rest|..]
        decreases n - index
      {
        var _, _ := upstream.TryAdvance();
        index := index + 1;
      }
      ok, out := upstream.TryAdvance();
    }
  }

  /** Pulling `k` times and then traversing produces the upstream without its first `n` elements. */
  method SkipPullThenPush<T>(data: seq<T>, n: int, k: nat) returns (pulled: seq<T>, pushed: seq<T>)
    ensures pulled + pushed == Skip(data, n)
  {
    var q := new Query(data);
    var s := new AdvancerSkip(q, n);
    pulled := [];
    for i := 0 to k
      invariant s.upstream == q && s.n == n
      invariant pulled + s.Pending() == Skip(data, n)
    {
      var ok, out := s.TryAdvance();
      PullShift(pulled, out, s.Pending());
      pulled := pulled + out;
    }
    pushed := s.Traverse();
  }
}
