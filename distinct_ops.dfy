/**
 * The distinct operators. `AdvancerDistinct` pulls through `hasNext`/`next`
 * with a look-ahead element `curr` and the flags `moved` and `finished`;
 * `LongAdvancerDistinct` pulls through `move`, which leaves the element it
 * accepted in `currLong`. Both push through `traverse`, and both protocols
 * share the membership set `mem` of the values already produced.
 */
module DistinctOps {
  import opened Wrappers
  import opened Queries
  import opened Sequences
  import opened DistinctSpec

  /** Reading the head of `s` against `mem`: skipped when already a member, emitted and remembered otherwise. */
  lemma DistinctFromHead<T>(mem: set<T>, s: seq<T>)
    requires |s| > 0
    ensures s[0] in mem ==> DistinctFrom(mem, s) == DistinctFrom(mem, s[1..])
    ensures s[0] !in mem ==> DistinctFrom(mem, s) == [s[0]] + DistinctFrom(mem + {s[0]}, s[1..])
  {
  }

  class AdvancerDistinct<T(==)> {
    const upstream: Query<T>
    var mem: set<T>
    var moved: bool
    var finished: bool
    var curr: Option<T>

    /**
     * A look-ahead element is held exactly while `moved` is set and
     * `finished` is not, and it is already a member; once finished, the
     * upstream is exhausted.
     */
    ghost predicate Valid()
      reads this, upstream
    {
      && (moved && !finished ==> curr.Some? && curr.value in mem)
      && (finished ==> upstream.rest == [])
    }

    constructor (upstream: Query<T>)
      ensures Valid()
      ensures this.upstream == upstream && mem == {} && !moved && !finished && curr == None
    {
      this.upstream := upstream;
      mem := {};
      moved := false;
      finished := false;
      curr := None;
    }

    /** The elements this operator has left to produce: the look-ahead, then the new values upstream. */
    ghost function Pending(): seq<T>
      reads this, upstream
    {
      (if moved && !finished && curr.Some? then [curr.value] else []) + DistinctFrom(mem, upstream.rest)
    }

    /**
     * Reads upstream elements into `curr` until one is not yet in `mem`,
     * which is added and reported with true; false once upstream runs out.
     * `moved` is set either way.
     */
    method Move() returns (b: bool)
      modifies this, upstream
      ensures moved && finished == old(finished)
      ensures b == (|DistinctFrom(old(mem), old(upstream.rest))| > 0)
      ensures b ==> curr == Some(DistinctFrom(old(mem), old(upstream.rest))[0])
      ensures b ==> curr.value !in old(mem) && mem == old(mem) + {curr.value}
      ensures !b ==> mem == old(mem) && upstream.rest == []
      ensures upstream.rest == AfterFirstNew(old(mem), old(upstream.rest))
      ensures DistinctFrom(mem, upstream.rest)
           == if b then DistinctFrom(old(mem), old(upstream.rest))[1..] else []
      ensures |upstream.rest| <= |old(upstream.rest)|
      ensures upstream.rest == old(upstream.rest)[|old(upstream.rest)| - |upstream.rest|..]
      ensures |upstream.rest| < |old(upstream.rest)| ==>
        curr == Some(old(upstream.rest)[|old(upstream.rest)| - |upstream.rest| - 1])
      ensures |upstream.rest| == |old(upstream.rest)| ==> curr == old(curr)
    {
      moved := true;
      ghost var s := upstream.rest;
      ghost var k := 0;
      var more := upstream.HasNext();
      while more
        invariant moved && finished == old(finished) && mem == old(mem)
        invariant 0 <= k <= FirstNew(mem, s) && upstream.rest == s[k..]
        invariant more == (k < |s|)
        invariant DistinctFrom(mem, s) == DistinctFrom(mem, s[k..])
        invariant k > 0 ==> curr == Some(s[k - 1])
        invariant k == 0 ==> curr == old(curr)
        decreases |s| - k
      {
        DistinctFromHead(mem, s[k..]);
        assert s[k..][1..] == s[k + 1..];
        var r := upstream.Next();
        curr := Some(r.value);
        k := k + 1;
        if curr.value !in mem {
          mem := mem + {curr.value};
          return true;
        }
        more := upstream.HasNext();
      }
      b := false;
    }

    /**
     * Whether a next element exists. Once finished this stays false; while a
     * look-ahead is held it is true without touching upstream; otherwise it
     * moves, and records `finished` when the move fails. Nothing pending is lost.
     */
    method HasNext() returns (b: bool)
      requires Valid()
      modifies this, upstream
      ensures Valid()
      ensures b == (|old(Pending())| > 0)
      ensures Pending() == old(Pending())
      ensures b <==> moved && !finished
      ensures old(finished) ==> !b && finished && upstream.rest == old(upstream.rest)
      ensures old(moved) && !old(finished) ==> b && upstream.rest == old(upstream.rest) && mem == old(mem)
      ensures !old(moved) && !old(finished) ==> upstream.rest == AfterFirstNew(old(mem), old(upstream.rest))
      ensures !old(moved) && !old(finished) ==> moved && finished == !b
      ensures old(mem) <= mem
    {
      if finished {
        return false;
      }
      if moved {
        return true;
      }
      var ok := Move();
      finished := !ok;
      b := !finished;
    }

    /**
     * The next distinct element, clearing the look-ahead; fails with an
     * index-out-of-bounds error when there is none. The element returned is
     * a member, so no later traversal produces it again.
     */
    method Next() returns (r: Result<T>)
      requires Valid()
      modifies this, upstream
      ensures Valid()
      ensures |old(Pending())| == 0 ==> r == Err(IndexOutOfBounds) && Pending() == []
      ensures |old(Pending())| > 0 ==> r == Ok(old(Pending())[0]) && [r.value] + Pending() == old(Pending())
      ensures r.Ok? ==> r.value in mem && !moved
      ensures r.Err? ==> finished
      ensures old(moved) || old(finished) ==> upstream.rest == old(upstream.rest)
      ensures !old(moved) && !old(finished) ==> upstream.rest == AfterFirstNew(old(mem), old(upstream.rest))
      ensures old(mem) <= mem
    {
      var b := HasNext();
      if !b {
        return Err(IndexOutOfBounds);
      }
      moved := false;
      r := Ok(curr.value);
    }

    /**
     * Push: every upstream element not yet in `mem` is added and yielded.
     * A look-ahead that `HasNext` has already read and added is not yielded,
     * and `moved` stays set.
     */
    method Traverse() returns (out: seq<T>)
      requires Valid()
      modifies this, upstream
      ensures Valid()
      ensures out == DistinctFrom(old(mem), old(upstream.rest))
      ensures mem == old(mem) + Elements(old(upstream.rest))
      ensures forall x :: x in out ==> x in mem && x !in old(mem)
      ensures upstream.rest == []
      ensures moved == old(moved) && finished == old(finished) && curr == old(curr)
      ensures !old(moved) || old(finished) ==> out == old(Pending()) && Pending() == []
    {
      var items := upstream.Traverse();
      ghost var mem0 := mem;
      out := [];
      for i := 0 to |items|
        invariant upstream.rest == []
        invariant mem == mem0 + Elements(items[..i])
        invariant out == DistinctFrom(mem0, items[..i])
        invariant moved == old(moved) && finished == old(finished) && curr == old(curr)
      {
        assert items[..i + 1] == items[..i] + [items[i]];
        assert Elements(items[..i + 1]) == Elements(items[..i]) + {items[i]};
        DistinctFromSnoc(mem0, items[..i], items[i]);
        if items[i] !in mem {
          mem := mem + {items[i]};
          out := out + [items[i]];
        }
      }
      assert items[..|items|] == items;
      DistinctFromMembers(mem0, items);
    }

    /** Push that first yields a look-ahead `HasNext` is holding, so that nothing pending is lost. */
    method TraverseResumed() returns (out: seq<T>)
      requires Valid()
      modifies this, upstream
      ensures Valid()
      ensures out == old(Pending())
      ensures Pending() == []
      ensures old(mem) <= mem
    {
      var held: seq<T> := [];
      if moved && !finished {
        held := [curr.value];
        moved := false;
      }
      var more := Traverse();
      out := held + more;
    }
  }

  /**
   * Pulling up to `k` elements through `HasNext`/`Next` and then traversing
   * produces every distinct value once, in order of first occurrence.
   */
  method DistinctPullThenPush<T(==)>(data: seq<T>, k: nat) returns (pulled: seq<T>, pushed: seq<T>)
    ensures pulled + pushed == Distinct(data)
  {
    var q := new Query(data);
    var d := new AdvancerDistinct(q);
    pulled := [];
    for i := 0 to k
      invariant d.upstream == q && d.Valid()
      invariant !d.moved || d.finished
      invariant pulled + d.Pending() == Distinct(data)
    {
      var r := d.Next();
      if r.Ok? {
        PullShift(pulled, [r.value], d.Pending());
        pulled := pulled + [r.value];
      }
    }
    pushed := d.Traverse();
  }

  /**
   * Calling `HasNext` and then traversing leaves out what `HasNext` read
   * ahead: the traversal yields the distinct values without their first,
   * which only a later `Next` returns, late and out of order. The resumed
   * traversal yields it in its place.
   */
  method DistinctPeekThenPush<T(==)>(data: seq<T>) returns (peeked: bool, pushed: seq<T>, resumed: seq<T>)
    ensures peeked == (|data| > 0)
    ensures peeked ==> pushed == Distinct(data)[1..]
    ensures resumed == Distinct(data)
  {
    var q := new Query(data);
    var d := new AdvancerDistinct(q);
    peeked := d.HasNext();
    assert d.Pending() == Distinct(data);
    pushed := d.Traverse();

    var q2 := new Query(data);
    var d2 := new AdvancerDistinct(q2);
    var _ := d2.HasNext();
    resumed := d2.TraverseResumed();
  }

  /** On `[1, 2]`, `HasNext` and then a traversal yield only `[2]`: the 1 is not pushed. */
  method DistinctPeekThenPushExample() returns (peeked: bool, pushed: seq<int>)
    ensures peeked && pushed == [2]
  {
    assert DistinctFrom({}, [1, 2]) == [1] + DistinctFrom({1}, [2]);
    assert [1, 2][1..] == [2];
    var resumed;
    peeked, pushed, resumed := DistinctPeekThenPush([1, 2]);
  }

  /**
   * On `[1, 2]`, `HasNext`, then a traversal (yielding `[2]`), then `Next`:
   * the held 1 comes out after the traversal, out of order.
   */
  method DistinctPeekPushNextExample() returns (pushed: seq<int>, late: Result<int>)
    ensures pushed == [2] && late == Ok(1)
  {
    var q := new Query([1, 2]);
    var d := new AdvancerDistinct(q);
    assert DistinctFrom({}, [1, 2]) == [1] + DistinctFrom({1}, [2]);
    var _ := d.HasNext();
    assert d.moved && !d.finished && d.Pending() == [1, 2];
    assert d.curr == Some(1);
    pushed := d.Traverse();
    assert d.Pending() == [1] + DistinctFrom(d.mem, []);
    late := d.Next();
  }

  /**
   * `LongAdvancerDistinct`: pulls through `move`, which leaves in `currLong`
   * each upstream element it reads; `currLong` starts at 0.
   */
  class LongAdvancerDistinct {
    const upstream: Query<int>
    var mem: set<int>
    var currLong: int

    constructor (upstream: Query<int>)
      ensures this.upstream == upstream && mem == {} && currLong == 0
    {
      this.upstream := upstream;
      mem := {};
      currLong := 0;
    }

    ghost function Pending(): seq<int>
      reads this, upstream
    {
      DistinctFrom(mem, upstream.rest)
    }

    /**
     * Reads upstream elements into `currLong` until one is not in `mem`,
     * which is added and reported with true; false once upstream runs out.
     */
    method Move() returns (b: bool)
      modifies this, upstream
      ensures b == (|old(Pending())| > 0)
      ensures b ==> currLong == old(Pending())[0] && currLong !in old(mem) && mem == old(mem) + {currLong}
      ensures b ==> [currLong] + Pending() == old(Pending())
      ensures !b ==> mem == old(mem) && upstream.rest == [] && Pending() == []
      ensures upstream.rest == AfterFirstNew(old(mem), old(upstream.rest))
      ensures |upstream.rest| <= |old(upstream.rest)|
      ensures upstream.rest == old(upstream.rest)[|old(upstream.rest)| - |upstream.rest|..]
      ensures |upstream.rest| < |old(upstream.rest)| ==>
        currLong == old(upstream.rest)[|old(upstream.rest)| - |upstream.rest| - 1]
      ensures |upstream.rest| == |old(upstream.rest)| ==> currLong == old(currLong)
    {
      ghost var s := upstream.rest;
      ghost var k := 0;
      var more := upstream.HasNext();
      while more
        invariant mem == old(mem)
        invariant 0 <= k <= FirstNew(mem, s) && upstream.rest == s[k..]
        invariant more == (k < |s|)
        invariant DistinctFrom(mem, s) == DistinctFrom(mem, s[k..])
        invariant k > 0 ==> currLong == s[k - 1]
        invariant k == 0 ==> currLong == old(currLong)
        decreases |s| - k
      {
        DistinctFromHead(mem, s[k..]);
        assert s[k..][1..] == s[k + 1..];
        var r := upstream.Next();
        currLong := r.value;
        k := k + 1;
        if currLong !in mem {
          mem := mem + {currLong};
          return true;
        }
        more := upstream.HasNext();
      }
      b := false;
    }

    /** Push: every upstream element not yet in `mem` is added and yielded. */
    method Traverse() returns (out: seq<int>)
      modifies this, upstream
      ensures out == old(Pending())
      ensures mem == old(mem) + Elements(old(upstream.rest))
      ensures upstream.rest == [] && currLong == old(currLong)
    {
      var items := upstream.Traverse();
      ghost var mem0 := mem;
      out := [];
      for i := 0 to |items|
        invariant upstream.rest == [] && currLong == old(currLong)
        invariant mem == mem0 + Elements(items[..i])
        invariant out == DistinctFrom(mem0, items[..i])
      {
        assert items[..i + 1] == items[..i] + [items[i]];
        assert Elements(items[..i + 1]) == Elements(items[..i]) + {items[i]};
        DistinctFromSnoc(mem0, items[..i], items[i]);
        if items[i] !in mem {
          mem := mem + {items[i]};
          out := out + [items[i]];
        }
      }
      assert items[..|items|] == items;
    }
  }

  /**
   * Up to `k` successful moves, each contributing `currLong`, followed by a
   * traversal produce every distinct value once, in order of first occurrence.
   */
  method LongDistinctMoveThenPush(data: seq<int>, k: nat) returns (moved: seq<int>, pushed: seq<int>)
    ensures moved + pushed == Distinct(data)
  {
    var q := new Query(data);
    var d := new LongAdvancerDistinct(q);
    moved := [];
    for i := 0 to k
      invariant d.upstream == q
      invariant moved + d.Pending() == Distinct(data)
    {
      var b := d.Move();
      if b {
        moved := moved + [d.currLong];
      }
    }
    pushed := d.Traverse();
  }
}
