/** `IntAdvancerFilter`: the elements of the upstream that satisfy `p`. */
module FilterOps {
  import opened Queries
  import opened Sequences

  class AdvancerFilter<T> {
    const upstream: Query<T>
    const p: T -> bool

    constructor (upstream: Query<T>, p: T -> bool)
      ensures this.upstream == upstream && this.p == p
    {
      this.upstream := upstream;
      this.p := p;
    }

    /** The elements this operator has left to produce. */
    ghost function Pending(): seq<T>
      reads upstream
    {
      Filter(p, upstream.rest)
    }

    /** Push: forwards exactly the upstream elements that satisfy `p`, in order. */
    method Traverse() returns (out: seq<T>)
      modifies upstream
      ensures out == Filter(p, old(upstream.rest))
      ensures upstream.rest == []
    {
      var items := upstream.Traverse();
      out := [];
      for i := 0 to |items|
        invariant out == Filter(p, items[..i])
        invariant upstream.rest == []
      {
        assert items[..i + 1] == items[..i] + [items[i]];
        FilterAppend(p, items[..i], [items[i]]);
        if p(items[i]) {
          out := out + [items[i]];
        }
      }
      assert items[..|items|] == items;
    }

    /**
     * Pull: discards upstream elements failing `p` until one passes, which is
     * yielded; returns false, having yielded nothing, only when upstream runs out.
     */
    method TryAdvance() returns (found: bool, out: seq<T>)
      modifies upstream
      ensures found <==> |out| == 1
      ensures found == (|old(Pending())| > 0)
      ensures out + Pending() == old(Pending())
      ensures !found ==> upstream.rest == []
      ensures |upstream.rest| <= |old(upstream.rest)|
      ensures upstream.rest == old(upstream.rest)[|old(upstream.rest)| - |upstream.rest|..]
      ensures forall i :: 0 <= i < |old(upstream.rest)| - |upstream.rest| - |out| ==> !p(old(upstream.rest)[i])
    {
      ghost var s := upstream.rest;
      ghost var k := 0;
      found, out := false, [];
      while !found
        invariant 0 <= k <= |s| && upstream.rest == s[k..]
        invariant found <==> |out| == 1
        invariant !found ==> out == [] && Filter(p, s) == Filter(p, upstream.rest)
        invariant found ==> k > 0 && out == [s[k - 1]] && Filter(p, s) == out + Filter(p, upstream.rest)
        invariant forall i :: 0 <= i < k - |out| ==> !p(s[i])
        decreases |upstream.rest|
      {
        ghost var before := upstream.rest;
        var hasNext, items := upstream.TryAdvance();
        if !hasNext {
          break;
        }
        assert before[0] == s[k] && before[1..] == upstream.rest;
        k := k + 1;
        assert upstream.rest == s[k..];
        if p(items[0]) {
          out := items;
          found := true;
        }
      }
    }
  }

  /**
   * Pulling `k` times and then traversing produces the filtered upstream
   * once, in order: what successive pulls yield is a prefix of it.
   */
  method FilterPullThenPush<T>(data: seq<T>, p: T -> bool, k: nat) returns (pulled: seq<T>, pushed: seq<T>)
    ensures pulled + pushed == Filter(p, data)
    ensures |pulled| == if k <= |Filter(p, data)| then k else |Filter(p, data)|
  {
    var q := new Query(data);
    var f := new AdvancerFilter(q, p);
    pulled := [];
    for i := 0 to k
      invariant f.upstream == q && f.p == p
      invariant pulled + f.Pending() == Filter(p, data)
      invariant |pulled| == if i <= |Filter(p, data)| then i else |Filter(p, data)|
    {
      var ok, out := f.TryAdvance();
      PullShift(pulled, out, f.Pending());
      pulled := pulled + out;
    }
    pushed := f.Traverse();
  }
}
