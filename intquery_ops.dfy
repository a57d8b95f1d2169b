/**
 * The terminal operations of an int query, each consuming the query by
 * traversal (or by a single pull), together with `sorted`, which collects
 * the elements first, and `then(next)`, whose query can only be traversed.
 */
module IntQueryOps {
  import opened Wrappers
  import opened Queries
  import opened Reductions

  /** `toList`: every element, in traversal order. */
  method ToList(q: Query<int>) returns (l: seq<int>)
    modifies q
    ensures l == old(q.rest)
    ensures q.rest == []
  {
    l := q.Traverse();
  }

  /** `toArray`: a new array filled from `toList`, one index at a time. */
  method ToArray(q: Query<int>) returns (a: array<int>)
    modifies q
    ensures fresh(a)
    ensures a.Length == |old(q.rest)| && a[..] == old(q.rest)
    ensures q.rest == []
  {
    var list := ToList(q);
    a := new int[|list|];
    for i := 0 to |list|
      invariant q.rest == []
      invariant a[..i] == list[..i]
    {
      a[i] := list[i];
    }
    assert a[..] == a[..|list|];
  }

  /**
   * `sorted`: a new query over the ascending permutation of the elements.
   * The array is sorted by `SortSeq`, a functional stand-in for `Arrays.sort`.
   */
  method Sorted(q: Query<int>) returns (r: Query<int>)
    modifies q
    ensures fresh(r)
    ensures IsSorted(r.rest) && multiset(r.rest) == multiset(old(q.rest))
    ensures r.rest == SortSeq(old(q.rest))
    ensures q.rest == []
  {
    var state := ToArray(q);
    r := new Query(SortSeq(state[..]));
  }

  /** `reduce(identity, accumulator)`: the left fold of the elements, seeded with `identity`. */
  method ReduceWith(q: Query<int>, identity: int, accumulator: (int, int) -> int) returns (r: int)
    modifies q
    ensures r == FoldLeft(accumulator, identity, old(q.rest))
    ensures q.rest == []
  {
    var items := q.Traverse();
    r := identity;
    for i := 0 to |items|
      invariant q.rest == []
      invariant r == FoldLeft(accumulator, identity, items[..i])
    {
      assert items[..i + 1] == items[..i] + [items[i]];
      FoldLeftSnoc(accumulator, identity, items[..i], items[i]);
      r := accumulator(r, items[i]);
    }
    assert items[..|items|] == items;
  }

  /**
   * `reduce(accumulator)`: empty when the first pull fails; otherwise the
   * fold of the remaining elements seeded with the element pulled.
   */
  method Reduce(q: Query<int>, accumulator: (int, int) -> int) returns (r: Option<int>)
    modifies q
    ensures r.None? <==> |old(q.rest)| == 0
    ensures r.Some? ==> r.value == FoldLeft(accumulator, old(q.rest)[0], old(q.rest)[1..])
    ensures q.rest == []
  {
    var ok, first := q.TryAdvance();
    if !ok {
      return None;
    }
    var v := ReduceWith(q, first[0], accumulator);
    r := Some(v);
  }

  /** `sum`: `reduce(0, Integer::sum)`, the mathematical sum wrapped around to a Java int. */
  method Sum(q: Query<int>) returns (r: int)
    modifies q
    ensures r == Wrap32(Reductions.Sum(old(q.rest)))
    ensures IsInt32(r)
    ensures q.rest == []
  {
    ghost var s := q.rest;
    r := ReduceWith(q, 0, AddInt32);
    FoldAddIsWrappedSum(0, s);
  }

  /** `min`: empty for an empty query; otherwise an element no larger than any other. */
  method Min(q: Query<int>) returns (r: Option<int>)
    modifies q
    ensures r.None? <==> |old(q.rest)| == 0
    ensures r.Some? ==> r.value in old(q.rest)
    ensures r.Some? ==> forall i :: 0 <= i < |old(q.rest)| ==> r.value <= old(q.rest)[i]
    ensures q.rest == []
  {
    var items := q.Traverse();
    r := None;
    for i := 0 to |items|
      invariant q.rest == []
      invariant r.None? <==> i == 0
      invariant r.Some? ==> r.value in items[..i]
      invariant r.Some? ==> forall j :: 0 <= j < i ==> r.value <= items[j]
    {
      if r.None? {
        r := Some(items[i]);
      } else if items[i] < r.value {
        r := Some(items[i]);
      }
    }
    assert items[..|items|] == items;
  }

  /** `max`: empty for an empty query; otherwise an element no smaller than any other. */
  method Max(q: Query<int>) returns (r: Option<int>)
    modifies q
    ensures r.None? <==> |old(q.rest)| == 0
    ensures r.Some? ==> r.value in old(q.rest)
    ensures r.Some? ==> forall i :: 0 <= i < |old(q.rest)| ==> r.value >= old(q.rest)[i]
    ensures q.rest == []
  {
    var items := q.Traverse();
    r := None;
    for i := 0 to |items|
      invariant q.rest == []
      invariant r.None? <==> i == 0
      invariant r.Some? ==> r.value in items[..i]
      invariant r.Some? ==> forall j :: 0 <= j < i ==> r.value >= items[j]
    {
      if r.None? {
        r := Some(items[i]);
      } else if items[i] > r.value {
        r := Some(items[i]);
      }
    }
    assert items[..|items|] == items;
  }

  /** `count`: the number of elements the traversal pushes. */
  method Count(q: Query<int>) returns (n: nat)
    modifies q
    ensures n == |old(q.rest)|
    ensures q.rest == []
  {
    var items := q.Traverse();
    n := 0;
    for i := 0 to |items|
      invariant q.rest == []
      invariant n == i
    {
      n := n + 1;
    }
  }

  /** The traversal callback of `anyMatch`: finish at the first element satisfying `p`. */
  function StopAtMatch(p: int -> bool): (f: int -> Signal)
    ensures forall x :: f(x) == Finish <==> p(x)
  {
    x => if p(x) then Finish else Continue
  }

  /** The traversal callback of `allMatch`: finish at the first element failing `p`. */
  function StopAtMismatch(p: int -> bool): (f: int -> Signal)
    ensures forall x :: f(x) == Finish <==> !p(x)
  {
    x => if p(x) then Continue else Finish
  }

  /**
   * `anyMatch`: true exactly when some element satisfies `p`. The traversal
   * stops at the first such element, leaving the ones after it unconsumed;
   * an empty query gives false.
   */
  method AnyMatch(q: Query<int>, p: int -> bool) returns (found: bool)
    modifies q
    ensures found <==> exists i :: 0 <= i < |old(q.rest)| && p(old(q.rest)[i])
    ensures found ==> exists k :: (0 <= k < |old(q.rest)| && p(old(q.rest)[k])
      && (forall j :: 0 <= j < k ==> !p(old(q.rest)[j]))
      && q.rest == old(q.rest)[k + 1..])
    ensures !found ==> q.rest == []
  {
    var pushed;
    pushed, found := q.ShortCircuit(StopAtMatch(p));
    if found {
      var k := |pushed| - 1;
      assert old(q.rest)[..k + 1] == pushed && q.rest == old(q.rest)[k + 1..];
      assert forall j :: 0 <= j < k ==> old(q.rest)[j] == pushed[j];
    } else {
      assert pushed == old(q.rest);
    }
  }

  /**
   * `allMatch`: true exactly when no element fails `p`, so true on an empty
   * query. The traversal stops at the first element failing `p`.
   */
  method AllMatch(q: Query<int>, p: int -> bool) returns (succeed: bool)
    modifies q
    ensures succeed <==> forall i :: 0 <= i < |old(q.rest)| ==> p(old(q.rest)[i])
    ensures !succeed ==> exists k :: (0 <= k < |old(q.rest)| && !p(old(q.rest)[k])
      && (forall j :: 0 <= j < k ==> p(old(q.rest)[j]))
      && q.rest == old(q.rest)[k + 1..])
    ensures succeed ==> q.rest == []
  {
    var pushed, stopped := q.ShortCircuit(StopAtMismatch(p));
    succeed := !stopped;
    if stopped {
      var k := |pushed| - 1;
      assert old(q.rest)[..k + 1] == pushed && q.rest == old(q.rest)[k + 1..];
      assert forall j :: 0 <= j < k ==> old(q.rest)[j] == pushed[j];
    } else {
      assert pushed == old(q.rest);
    }
  }

  /** `noneMatch`: the negation of `anyMatch`, so true exactly when no element satisfies `p`. */
  method NoneMatch(q: Query<int>, p: int -> bool) returns (b: bool)
    modifies q
    ensures b <==> forall i :: 0 <= i < |old(q.rest)| ==> !p(old(q.rest)[i])
    ensures !b ==> exists k :: (0 <= k < |old(q.rest)| && p(old(q.rest)[k])
      && (forall j :: 0 <= j < k ==> !p(old(q.rest)[j]))
      && q.rest == old(q.rest)[k + 1..])
    ensures b ==> q.rest == []
  {
    var any := AnyMatch(q, p);
    b := !any;
  }

  /** `findFirst`: one pull; the element it yields, or empty when there is none. */
  method FindFirst(q: Query<int>) returns (r: Option<int>)
    modifies q
    ensures |old(q.rest)| == 0 ==> r == None && q.rest == []
    ensures |old(q.rest)| > 0 ==> r == Some(old(q.rest)[0]) && q.rest == old(q.rest)[1..]
  {
    var ok, out := q.TryAdvance();
    r := if ok then Some(out[0]) else None;
  }

  /**
   * The query `then(next)` builds: it traverses through `next`, applied to
   * the upstream's elements, and its pull always fails as unsupported.
   */
  class ThenQuery {
    const upstream: Query<int>
    const next: seq<int> -> seq<int>

    constructor (upstream: Query<int>, next: seq<int> -> seq<int>)
      ensures this.upstream == upstream && this.next == next
    {
      this.upstream := upstream;
      this.next := next;
    }

    /** Pull: unsupported; fails without consuming anything. */
    method TryAdvance() returns (r: Result<seq<int>>)
      ensures r == Err(UnsupportedOperation)
    {
      r := Err(UnsupportedOperation);
    }

    /** Push: what `next` makes of the upstream's elements; the upstream is consumed. */
    method Traverse() returns (out: seq<int>)
      modifies upstream
      ensures out == next(old(upstream.rest))
      ensures upstream.rest == []
    {
      var items := upstream.Traverse();
      out := next(items);
    }
  }
}
