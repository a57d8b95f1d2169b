/**
 * The user-defined extensions over int and long queries: `collapse`
 * (drops an element equal to the one emitted just before it), `oddTrav`
 * (the elements at odd positions), and their pull counterparts
 * `collapseAdv` and `oddAdv`. Both the int and the long `collapse` are the
 * same traversal and are modelled once.
 */
module UserExt {
  import opened Wrappers
  import opened Queries
  import opened Sequences

  // -------------------------------------------------------------- collapse

  /**
   * `s` with every element dropped that equals the element emitted before
   * it; `prev` is that element for the first one, `None` when nothing has
   * been emitted yet.
   */
  function CollapseFrom(prev: Option<int>, s: seq<int>): (r: seq<int>)
    ensures |r| <= |s|
    decreases |s|
  {
    if |s| == 0 then []
    else if prev == Some(s[0]) then CollapseFrom(prev, s[1..])
    else [s[0]] + CollapseFrom(Some(s[0]), s[1..])
  }

  /** `collapse` over a whole query: nothing has been emitted before the first element. */
  function Collapsed(s: seq<int>): seq<int>
  {
    CollapseFrom(None, s)
  }

  /** The last element emitted after emitting `r`, starting from `prev`. */
  function LastEmitted(prev: Option<int>, r: seq<int>): Option<int>
  {
    if |r| == 0 then prev else Some(r[|r| - 1])
  }

  /** No element is emitted twice in a row, and the first differs from `prev`. */
  lemma {:induction false} CollapseNoAdjacentDuplicates(prev: Option<int>, s: seq<int>)
    ensures var r := CollapseFrom(prev, s);
      && (|r| > 0 ==> prev != Some(r[0]))
      && forall i :: 0 < i < |r| ==> r[i - 1] != r[i]
    decreases |s|
  {
    if |s| > 0 {
      if prev == Some(s[0]) {
        CollapseNoAdjacentDuplicates(prev, s[1..]);
      } else {
        CollapseNoAdjacentDuplicates(Some(s[0]), s[1..]);
      }
    }
  }

  /** The first element of a non-empty query is always emitted. */
  lemma CollapseKeepsFirst(s: seq<int>)
    requires |s| > 0
    ensures |Collapsed(s)| > 0 && Collapsed(s)[0] == s[0]
  {
  }

  /** The output keeps some input elements and drops others, in order. */
  lemma {:induction false} CollapseIsSubsequence(prev: Option<int>, s: seq<int>)
    ensures IsSubsequence(CollapseFrom(prev, s), s)
    decreases |s|
  {
    if |s| > 0 {
      var r := CollapseFrom(prev, s);
      if prev == Some(s[0]) {
        CollapseIsSubsequence(prev, s[1..]);
        CollapseNoAdjacentDuplicates(prev, s[1..]);
        assert |r| > 0 ==> r[0] != s[0];
      } else {
        CollapseIsSubsequence(Some(s[0]), s[1..]);
        assert r[0] == s[0] && r[1..] == CollapseFrom(Some(s[0]), s[1..]);
      }
    }
  }

  /** An input without two equal adjacent elements passes through unchanged. */
  lemma {:induction false} CollapseOfNoAdjacentDuplicates(prev: Option<int>, s: seq<int>)
    requires forall i :: 0 < i < |s| ==> s[i - 1] != s[i]
    requires |s| > 0 ==> prev != Some(s[0])
    ensures CollapseFrom(prev, s) == s
    decreases |s|
  {
    if |s| > 0 {
      CollapseOfNoAdjacentDuplicates(Some(s[0]), s[1..]);
    }
  }

  /**
   * Every input element not skipped is emitted, so after any prefix the
   * last element emitted is the last element read.
   */
  lemma {:induction false} LastEmittedIsLastRead(prev: Option<int>, s: seq<int>)
    requires |s| > 0
    ensures LastEmitted(prev, CollapseFrom(prev, s)) == Some(s[|s| - 1])
    decreases |s|
  {
    if |s| > 1 {
      var t := s[1..];
      assert t[|t| - 1] == s[|s| - 1];
      if prev == Some(s[0]) {
        LastEmittedIsLastRead(prev, t);
      } else {
        LastEmittedIsLastRead(Some(s[0]), t);
        assert CollapseFrom(prev, s) == [s[0]] + CollapseFrom(Some(s[0]), t);
      }
    }
  }

  /** One more element is emitted exactly when it differs from the element emitted last. */
  lemma {:induction false} CollapseSnoc(prev: Option<int>, s: seq<int>, x: int)
    ensures var r := CollapseFrom(prev, s);
      CollapseFrom(prev, s + [x]) == r + (if LastEmitted(prev, r) == Some(x) then [] else [x])
    decreases |s|
  {
    if |s| == 0 {
      assert (s + [x])[1..] == [];
    } else {
      assert (s + [x])[1..] == s[1..] + [x];
      if prev == Some(s[0]) {
        CollapseSnoc(prev, s[1..], x);
      } else {
        CollapseSnoc(Some(s[0]), s[1..], x);
        var r' := CollapseFrom(Some(s[0]), s[1..]);
        assert LastEmitted(prev, [s[0]] + r') == LastEmitted(Some(s[0]), r');
      }
    }
  }

  /**
   * `collapseAdv` compares the first element with the box's initial value
   * rather than with nothing: it drops a leading element equal to that
   * value and otherwise agrees with `collapse`.
   */
  lemma CollapseFromInitial(initial: int, s: seq<int>)
    ensures CollapseFrom(Some(initial), s)
         == if |s| > 0 && s[0] == initial then Collapsed(s)[1..] else Collapsed(s)
  {
  }

  /**
   * `collapse(src)`: traverses `src`, emitting an item when no item has been
   * emitted yet or it differs from the last one emitted, which the box holds.
   */
  method Collapse(src: Query<int>) returns (out: seq<int>)
    modifies src
    ensures out == Collapsed(old(src.rest))
    ensures src.rest == []
  {
    var items := src.Traverse();
    var box: Option<int> := None;
    out := [];
    for i := 0 to |items|
      invariant src.rest == []
      invariant out == CollapseFrom(None, items[..i])
      invariant box == LastEmitted(None, out)
    {
      assert items[..i + 1] == items[..i] + [items[i]];
      CollapseSnoc(None, items[..i], items[i]);
      if box.None? || box.value != items[i] {
        box := Some(items[i]);
        out := out + [items[i]];
      }
    }
    assert items[..|items|] == items;
  }

  /** Where a pull of `collapseAdv` stops: the index of the first item of `s` differing from `v`, or `|s|`. */
  function FirstDiffering(v: int, s: seq<int>): (j: nat)
    ensures j <= |s|
    ensures forall i :: 0 <= i < j ==> s[i] == v
    ensures j < |s| ==> s[j] != v
    decreases |s|
  {
    if |s| == 0 || s[0] != v then 0 else 1 + FirstDiffering(v, s[1..])
  }

  /** Collapsing from `v` starts with the first item differing from `v` and goes on from just after it. */
  lemma {:induction false} CollapseFromAtFirstDiffering(v: int, s: seq<int>)
    ensures var j := FirstDiffering(v, s);
      CollapseFrom(Some(v), s)
      == if j < |s| then [s[j]] + CollapseFrom(Some(s[j]), s[j + 1..]) else []
    decreases |s|
  {
    if |s| != 0 && s[0] == v {
      CollapseFromAtFirstDiffering(v, s[1..]);
      var j := FirstDiffering(v, s[1..]);
      if j < |s[1..]| {
        assert s[1..][j + 1..] == s[j + 2..];
      }
    }
  }

  /**
   * `collapseAdv(src)`: each pull reads `src` until an item differs from
   * `prev`, which then becomes that item and is yielded; `prev` lives as
   * long as the advancer. Its initial value is a constructor parameter.
   */
  class CollapseAdvancer {
    const src: Query<int>
    var prev: int

    constructor (src: Query<int>, initial: int)
      ensures this.src == src && prev == initial
    {
      this.src := src;
      prev := initial;
    }

    ghost function Pending(): seq<int>
      reads this, src
    {
      CollapseFrom(Some(prev), src.rest)
    }

    /** Pull: at most one item, true exactly when one was yielded; false once `src` runs out. */
    method TryAdvance() returns (found: bool, out: seq<int>)
      modifies this, src
      ensures found == (|old(Pending())| > 0)
      ensures found <==> |out| == 1
      ensures out + Pending() == old(Pending())
      ensures found ==> prev == out[0] && prev != old(prev)
      ensures !found ==> prev == old(prev) && src.rest == []
      ensures var j := FirstDiffering(old(prev), old(src.rest));
        found ==> j < |old(src.rest)| && src.rest == old(src.rest)[j + 1..]
      ensures |src.rest| <= |old(src.rest)|
      ensures src.rest == old(src.rest)[|old(src.rest)| - |src.rest|..]
    {
      found, out := false, [];
      while !found
        invariant found <==> |out| == 1
        invariant !found ==> |old(src.rest)| - |src.rest| <= FirstDiffering(old(prev), old(src.rest))
        invariant found ==> |old(src.rest)| - |src.rest| == FirstDiffering(old(prev), old(src.rest)) + 1
        invariant !found ==> out == [] && prev == old(prev) && Pending() == old(Pending())
        invariant found ==> out == [prev] && prev != old(prev) && out + Pending() == old(Pending())
        invariant |src.rest| <= |old(src.rest)|
        invariant src.rest == old(src.rest)[|old(src.rest)| - |src.rest|..]
        decreases |src.rest|
      {
        ghost var before := src.rest;
        var ok, items := src.TryAdvance();
        if !ok {
          break;
        }
        assert before == [items[0]] + src.rest;
        if items[0] != prev {
          found := true;
          prev := items[0];
          out := items;
        }
      }
    }
  }

  /** Up to `k` pulls of `collapseAdv` yield a prefix of the collapsed query, one item each while any remain. */
  method CollapseAdvPull(data: seq<int>, initial: int, k: nat) returns (pulled: seq<int>)
    ensures var all := CollapseFrom(Some(initial), data);
      pulled == all[..Min(k, |all|)]
  {
    var q := new Query(data);
    var c := new CollapseAdvancer(q, initial);
    ghost var all := CollapseFrom(Some(initial), data);
    pulled := [];
    for i := 0 to k
      invariant c.src == q
      invariant pulled + c.Pending() == all
      invariant |pulled| == Min(i, |all|)
    {
      var ok, out := c.TryAdvance();
      PullShift(pulled, out, c.Pending());
      pulled := pulled + out;
    }
    assert pulled == all[..|pulled|];
  }

  // ------------------------------------------------------------ odd positions

  /** The elements at positions 1, 3, 5, … of `s`. */
  function OddPositions(s: seq<int>): (r: seq<int>)
    ensures |s| == 2 * |r| || |s| == 2 * |r| + 1
    decreases |s|
  {
    if |s| < 2 then [] else [s[1]] + OddPositions(s[2..])
  }

  /** Element `i` of the output is element `2 * i + 1` of the input. */
  lemma {:induction false} OddPositionsAt(s: seq<int>, i: int)
    requires 0 <= i && 2 * i + 1 < |s|
    ensures OddPositions(s)[i] == s[2 * i + 1]
    decreases |s|
  {
    if i > 0 {
      OddPositionsAt(s[2..], i - 1);
    }
  }

  /** One more element is emitted exactly when it lands on an odd position. */
  lemma {:induction false} OddPositionsSnoc(s: seq<int>, x: int)
    ensures OddPositions(s + [x]) == OddPositions(s) + (if |s| % 2 == 1 then [x] else [])
    decreases |s|
  {
    if |s| < 2 {
      if |s| == 1 {
        assert (s + [x])[2..] == [];
      }
    } else {
      assert (s + [x])[2..] == s[2..] + [x];
      OddPositionsSnoc(s[2..], x);
    }
  }

  /** `oddTrav(src)`: traverses `src` with a flag that flips at every item, emitting while it is set. */
  method OddTrav(src: Query<int>) returns (out: seq<int>)
    modifies src
    ensures out == OddPositions(old(src.rest))
    ensures src.rest == []
  {
    var items := src.Traverse();
    var isOdd := false;
    out := [];
    for i := 0 to |items|
      invariant src.rest == []
      invariant out == OddPositions(items[..i])
      invariant isOdd == (i % 2 == 1)
    {
      assert items[..i + 1] == items[..i] + [items[i]];
      OddPositionsSnoc(items[..i], items[i]);
      if isOdd {
        out := out + [items[i]];
      }
      isOdd := !isOdd;
    }
    assert items[..|items|] == items;
  }

  /**
   * `oddAdv(src)`: one pull is discarded and the result of the next pull is
   * returned; when the first pull fails, false with nothing yielded.
   */
  method OddAdv(src: Query<int>) returns (ok: bool, out: seq<int>)
    modifies src
    ensures ok == (|old(src.rest)| >= 2)
    ensures ok <==> |out| == 1
    ensures ok ==> out == [old(src.rest)[1]]
    ensures |old(src.rest)| == 0 ==> src.rest == []
    ensures out + OddPositions(src.rest) == OddPositions(old(src.rest))
    ensures src.rest == old(src.rest)[Min(2, |old(src.rest)|)..]
  {
    ghost var s := src.rest;
    var first, _ := src.TryAdvance();
    if first {
      ok, out := src.TryAdvance();
      if ok {
        assert src.rest == s[2..];
      }
      return;
    }
    ok, out := false, [];
  }

  /** Up to `k` pulls of `oddAdv` yield the elements at odd positions, in order, one per pull. */
  method OddAdvPull(data: seq<int>, k: nat) returns (pulled: seq<int>)
    ensures var all := OddPositions(data);
      pulled == all[..Min(k, |all|)]
  {
    var q := new Query(data);
    ghost var all := OddPositions(data);
    pulled := [];
    for i := 0 to k
      invariant pulled + OddPositions(q.rest) == all
      invariant |pulled| == Min(i, |all|)
    {
      ghost var before := OddPositions(q.rest);
      var ok, out := OddAdv(q);
      assert ok == (|before| > 0);
      PullShift(pulled, out, OddPositions(q.rest));
      pulled := pulled + out;
    }
    assert pulled == all[..|pulled|];
  }
}
