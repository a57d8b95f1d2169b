/**
 * What each stateless or stateful operator produces, stated over the
 * finite sequence of elements its upstream has left. The operator classes
 * are proved against these functions; the lemmas here are what the
 * functions promise.
 */
module Sequences {

  /** One pull moves its output from the front of what is pending to the end of what was pulled. */
  lemma PullShift<T>(pulled: seq<T>, out: seq<T>, pending: seq<T>)
    ensures pulled + (out + pending) == (pulled + out) + pending
  {
  }

  /** `r` keeps some elements of `s` and drops the others, in order. */
  predicate IsSubsequence<T(==)>(r: seq<T>, s: seq<T>)
    decreases |s|
  {
    if |r| == 0 then true
    else if |s| == 0 then false
    else if r[0] == s[0] then IsSubsequence(r[1..], s[1..])
    else IsSubsequence(r, s[1..])
  }

  /** The set of values occurring in `s`. */
  function Elements<T(==)>(s: seq<T>): set<T>
  {
    set x | x in s
  }

  // ---------------------------------------------------------------- filter

  /** The elements of `s` that satisfy `p`, in order. */
  function Filter<T>(p: T -> bool, s: seq<T>): (r: seq<T>)
    ensures |r| <= |s|
  {
    if |s| == 0 then [] else (if p(s[0]) then [s[0]] else []) + Filter(p, s[1..])
  }

  /** Every element kept satisfies `p`. */
  lemma {:induction false} FilterAllSatisfy<T>(p: T -> bool, s: seq<T>)
    ensures forall i :: 0 <= i < |Filter(p, s)| ==> p(Filter(p, s)[i])
  {
    if |s| != 0 {
      FilterAllSatisfy(p, s[1..]);
    }
  }

  /** Filtering distributes over concatenation. */
  lemma {:induction false} FilterAppend<T>(p: T -> bool, a: seq<T>, b: seq<T>)
    ensures Filter(p, a + b) == Filter(p, a) + Filter(p, b)
  {
    if |a| == 0 {
      assert a + b == b;
    } else {
      var head := if p(a[0]) then [a[0]] else [];
      assert (a + b)[0] == a[0] && (a + b)[1..] == a[1..] + b;
      assert Filter(p, a + b) == head + Filter(p, a[1..] + b);
      FilterAppend(p, a[1..], b);
      assert Filter(p, a) == head + Filter(p, a[1..]);
    }
  }

  /** An element is kept exactly when it occurs upstream and satisfies `p`. */
  lemma {:induction false} FilterMembers<T>(p: T -> bool, s: seq<T>, x: T)
    ensures x in Filter(p, s) <==> x in s && p(x)
  {
    if |s| != 0 {
      FilterMembers(p, s[1..], x);
      assert s == [s[0]] + s[1..];
    }
  }

  /** The filtered sequence is an order-preserving subsequence of the input. */
  lemma {:induction false} FilterIsSubsequence<T>(p: T -> bool, s: seq<T>)
    ensures IsSubsequence(Filter(p, s), s)
  {
    if |s| != 0 {
      FilterIsSubsequence(p, s[1..]);
      var r := Filter(p, s);
      if p(s[0]) {
        assert r[0] == s[0] && r[1..] == Filter(p, s[1..]);
      } else {
        assert r == Filter(p, s[1..]);
        FilterAllSatisfy(p, s[1..]);
        assert |r| > 0 ==> p(r[0]) && r[0] != s[0];
      }
    }
  }

  // ------------------------------------------------------------------- map

  /** `f` applied to every element of `s`, in order; 1:1. */
  function Map<T, U>(f: T -> U, s: seq<T>): (r: seq<U>)
    ensures |r| == |s|
  {
    if |s| == 0 then [] else [f(s[0])] + Map(f, s[1..])
  }

  /** The i-th output is `f` of the i-th input. */
  lemma {:induction false} MapAt<T, U>(f: T -> U, s: seq<T>, i: int)
    requires 0 <= i < |s|
    ensures Map(f, s)[i] == f(s[i])
    decreases |s|
  {
    if i > 0 {
      MapAt(f, s[1..], i - 1);
    }
  }

  /** Mapping distributes over concatenation. */
  lemma {:induction false} MapAppend<T, U>(f: T -> U, a: seq<T>, b: seq<T>)
    ensures Map(f, a + b) == Map(f, a) + Map(f, b)
  {
    var l, r := Map(f, a + b), Map(f, a) + Map(f, b);
    assert |l| == |r|;
    forall i | 0 <= i < |l| ensures l[i] == r[i] {
      MapAt(f, a + b, i);
      if i < |a| {
        MapAt(f, a, i);
        assert (a + b)[i] == a[i];
      } else {
        MapAt(f, b, i - |a|);
        assert (a + b)[i] == b[i - |a|];
      }
    }
  }

  // -------------------------------------------------------------- flat-map

  /** The concatenation of `f(e)` for each element `e` of `s`, in order. */
  function FlatMap<T, U>(f: T -> seq<U>, s: seq<T>): seq<U>
  {
    if |s| == 0 then [] else f(s[0]) + FlatMap(f, s[1..])
  }

  /** The concatenation of a sequence of sequences. */
  function Flatten<T>(ss: seq<seq<T>>): seq<T>
  {
    if |ss| == 0 then [] else ss[0] + Flatten(ss[1..])
  }

  /** flat-map is flatten after map. */
  lemma {:induction false} FlatMapIsFlattenOfMap<T, U>(f: T -> seq<U>, s: seq<T>)
    ensures FlatMap(f, s) == Flatten(Map(f, s))
  {
    if |s| != 0 {
      FlatMapIsFlattenOfMap(f, s[1..]);
      MapAt(f, s, 0);
      assert Map(f, s)[1..] == Map(f, s[1..]);
    }
  }

  /** flat-map distributes over concatenation. */
  lemma {:induction false} FlatMapAppend<T, U>(f: T -> seq<U>, a: seq<T>, b: seq<T>)
    ensures FlatMap(f, a + b) == FlatMap(f, a) + FlatMap(f, b)
  {
    if |a| == 0 {
      assert a + b == b;
    } else {
      assert (a + b)[1..] == a[1..] + b;
      FlatMapAppend(f, a[1..], b);
    }
  }

  /** flat-map of `x -> [x, x]` over `[1, 2]` is `[1, 1, 2, 2]`. */
  lemma FlatMapDoubles()
    ensures FlatMap((x: int) => [x, x], [1, 2]) == [1, 1, 2, 2]
  {
    var f := (x: int) => [x, x];
    assert [1, 2][1..] == [2];
    assert FlatMap(f, [2]) == [2, 2] + FlatMap(f, []);
  }

  // ------------------------------------------------------------------- zip

  function Min(a: int, b: int): int { if a <= b then a else b }

  /** Positional pairing through `z`; the shorter side decides the length. */
  function ZipWith<T, U, R>(z: (T, U) -> R, a: seq<T>, b: seq<U>): (r: seq<R>)
    ensures |r| == Min(|a|, |b|)
  {
    if |a| == 0 || |b| == 0 then [] else [z(a[0], b[0])] + ZipWith(z, a[1..], b[1..])
  }

  /** Pair `i` of the zip is `z` applied to the elements at position `i` of both inputs. */
  lemma {:induction false} ZipAt<T, U, R>(z: (T, U) -> R, a: seq<T>, b: seq<U>, i: int)
    requires 0 <= i < Min(|a|, |b|)
    ensures ZipWith(z, a, b)[i] == z(a[i], b[i])
  {
    if i > 0 {
      ZipAt(z, a[1..], b[1..], i - 1);
    }
  }

  /**
   * Appending one element to the left input adds one pair when the right
   * input still has an element at that position, and nothing otherwise.
   */
  lemma {:induction false} ZipWithSnoc<T, U, R>(z: (T, U) -> R, a: seq<T>, x: T, b: seq<U>)
    ensures ZipWith(z, a + [x], b) == ZipWith(z, a, b) + (if |a| < |b| then [z(x, b[|a|])] else [])
  {
    var l := ZipWith(z, a + [x], b);
    var r := ZipWith(z, a, b) + (if |a| < |b| then [z(x, b[|a|])] else []);
    assert |l| == |r|;
    forall i | 0 <= i < |l| ensures l[i] == r[i] {
      ZipAt(z, a + [x], b, i);
      if i < |a| {
        ZipAt(z, a, b, i);
      }
    }
  }

  /** Zipping `[1, 2, 3]` with `[10, 20]` by addition gives `[11, 22]`. */
  lemma ZipAddExample()
    ensures ZipWith((x: int, y: int) => x + y, [1, 2, 3], [10, 20]) == [11, 22]
  {
  }

  // ------------------------------------------------------------------ skip

  /**
   * `s` without its first `k` elements, discarded one at a time; a count
   * that is not positive discards nothing, one beyond the end leaves nothing.
   */
  function Skip<T>(s: seq<T>, k: int): (r: seq<T>)
    ensures |r| == if k <= 0 then |s| else if k >= |s| then 0 else |s| - k
    decreases |s|
  {
    if k <= 0 || |s| == 0 then s else Skip(s[1..], k - 1)
  }

  /** What is left is a suffix of the input: its last elements, in order. */
  lemma {:induction false} SkipIsSuffix<T>(s: seq<T>, k: int)
    ensures Skip(s, k) == s[|s| - |Skip(s, k)|..]
    decreases |s|
  {
    if k > 0 && |s| != 0 {
      SkipIsSuffix(s[1..], k - 1);
      assert s[1..][|s| - 1 - |Skip(s, k)|..] == s[|s| - |Skip(s, k)|..];
    }
  }

  /** Appending one element to the input appends it to the output once `k` are gone. */
  lemma {:induction false} SkipSnoc<T>(s: seq<T>, x: T, k: int)
    ensures Skip(s + [x], k) == Skip(s, k) + (if |s| >= k then [x] else [])
    decreases |s|
  {
    if k <= 0 || |s| == 0 {
      if k > 0 {
        assert (s + [x])[1..] == [];
      }
    } else {
      assert (s + [x])[1..] == s[1..] + [x];
      SkipSnoc(s[1..], x, k - 1);
    }
  }

  /** Skipping 100 elements of a 5-element sequence leaves nothing; it is no error. */
  lemma SkipPastEnd(s: seq<int>)
    requires |s| == 5
    ensures Skip(s, 100) == []
  {
  }
}
