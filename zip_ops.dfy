/**
 * `IntAdvancerZip`: pairs the elements of `upstream` and `other` position by
 * position through `zipper`; the shorter side decides how many pairs there
 * are. Pulling also covers a query zipped with itself; pushing requires two
 * distinct queries.
 */
module ZipOps {
  import opened Wrappers
  import opened Queries
  import opened Sequences

  class AdvancerZip<T> {
    const upstream: Query<T>
    const other: Query<T>
    const zipper: (T, T) -> T

    constructor (upstream: Query<T>, other: Query<T>, zipper: (T, T) -> T)
      ensures this.upstream == upstream && this.other == other && this.zipper == zipper
    {
      this.upstream := upstream;
      this.other := other;
      this.zipper := zipper;
    }

    ghost function Pending(): seq<T>
      reads upstream, other
    {
      ZipWith(zipper, upstream.rest, other.rest)
    }

    /** Peek: a next pair exists exactly when both sides have a next element. */
    method HasNext() returns (b: bool)
      ensures b == (|upstream.rest| > 0 && |other.rest| > 0)
      ensures b == (|Pending()| > 0)
    {
      b := upstream.HasNext();
      if b {
        b := other.HasNext();
      }
    }

    /**
     * Take one pair: `zipper(upstream.next(), other.next())`. When `upstream`
     * is exhausted this fails and consumes nothing; when only `other` is, it
     * fails after `upstream` has already given up its element. A query zipped
     * with itself gives up its first two elements to one pair.
     */
    method NextInt() returns (r: Result<T>)
      modifies upstream, other
      ensures |old(upstream.rest)| == 0 ==>
        r == Err(NoSuchElement) && upstream.rest == old(upstream.rest) && other.rest == old(other.rest)
      ensures upstream != other && |old(upstream.rest)| > 0 && |old(other.rest)| == 0 ==>
        r == Err(NoSuchElement) && upstream.rest == old(upstream.rest)[1..] && other.rest == old(other.rest)
      ensures upstream != other && |old(Pending())| > 0 ==>
        && r == Ok(zipper(old(upstream.rest)[0], old(other.rest)[0]))
        && upstream.rest == old(upstream.rest)[1..] && other.rest == old(other.rest)[1..]
        && [r.value] + Pending() == old(Pending())
      ensures upstream == other && |old(upstream.rest)| == 1 ==>
        r == Err(NoSuchElement) && upstream.rest == []
      ensures upstream == other && |old(upstream.rest)| >= 2 ==>
        r == Ok(zipper(old(upstream.rest)[0], old(upstream.rest)[1])) && upstream.rest == old(upstream.rest)[2..]
    {
      var a := upstream.Next();
      if a.Err? {
        return Err(a.failure);
      }
      var b := other.Next();
      if b.Err? {
        return Err(b.failure);
      }
      r := Ok(zipper(a.value, b.value));
    }

    /**
     * Push: traverses all of `upstream`; an element is paired with the next
     * element of `other` while there is one and dropped once `other` is
     * exhausted. `other` gives up exactly as many elements as pairs are pushed.
     */
    method Traverse() returns (out: seq<T>)
      requires upstream != other
      modifies upstream, other
      ensures out == old(Pending())
      ensures upstream.rest == []
      ensures |old(other.rest)| >= |out| && other.rest == old(other.rest)[|out|..]
    {
      var items := upstream.Traverse();
      ghost var others := other.rest;
      out := [];
      for i := 0 to |items|
        invariant upstream.rest == []
        invariant out == ZipWith(zipper, items[..i], others)
        invariant other.rest == others[|out|..]
      {
        var b := other.HasNext();
        assert items[..i + 1] == items[..i] + [items[i]];
        ZipWithSnoc(zipper, items[..i], items[i], others);
        if b {
          var r := other.Next();
          out := out + [zipper(items[i], r.value)];
        }
      }
      assert items[..|items|] == items;
    }
  }

  /**
   * Pulling up to `k` pairs, each after checking `HasNext`, and then
   * traversing produces the zip of both sides once, in order.
   */
  method ZipPullThenPush<T>(s: seq<T>, t: seq<T>, zipper: (T, T) -> T, k: nat)
    returns (pulled: seq<T>, pushed: seq<T>)
    ensures pulled + pushed == ZipWith(zipper, s, t)
    ensures |pulled| == Min(k, Min(|s|, |t|))
  {
    var a := new Query(s);
    var b := new Query(t);
    var z := new AdvancerZip(a, b, zipper);
    pulled := [];
    for i := 0 to k
      invariant z.upstream == a && z.other == b && z.zipper == zipper
      invariant pulled + z.Pending() == ZipWith(zipper, s, t)
      invariant |pulled| == Min(i, Min(|s|, |t|))
    {
      var more := z.HasNext();
      if more {
        var r := z.NextInt();
        PullShift(pulled, [r.value], z.Pending());
        pulled := pulled + [r.value];
      }
    }
    pushed := z.Traverse();
  }
}
