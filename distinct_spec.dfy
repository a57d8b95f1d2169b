/**
 * What distinct() produces: the first occurrence of each value, skipping
 * the values already in the membership set `mem` that the operator carries
 * from call to call.
 */
module DistinctSpec {
  import opened Sequences

  /** The elements of `s` not in `mem` and not seen earlier in `s`, in order. */
  function DistinctFrom<T(==)>(mem: set<T>, s: seq<T>): (r: seq<T>)
    ensures |r| <= |s|
    decreases |s|
  {
    if |s| == 0 then []
    else if s[0] in mem then DistinctFrom(mem, s[1..])
    else [s[0]] + DistinctFrom(mem + {s[0]}, s[1..])
  }

  /**
   * Where a move over `s` stops: the index of the first element not in
   * `mem`, or `|s|` when every element is already a member.
   */
  function FirstNew<T(==)>(mem: set<T>, s: seq<T>): (j: nat)
    ensures j <= |s|
    ensures forall i :: 0 <= i < j ==> s[i] in mem
    ensures j < |s| ==> s[j] !in mem
    decreases |s|
  {
    if |s| == 0 || s[0] !in mem then 0 else 1 + FirstNew(mem, s[1..])
  }

  /** What a successful move leaves upstream: the elements after the first new one; nothing otherwise. */
  function AfterFirstNew<T(==)>(mem: set<T>, s: seq<T>): seq<T>
  {
    var j := FirstNew(mem, s);
    if j < |s| then s[j + 1..] else []
  }

  /** The distinct output starts with the first new element and goes on from just after it. */
  lemma {:induction false} DistinctFromAtFirstNew<T>(mem: set<T>, s: seq<T>)
    ensures var j := FirstNew(mem, s);
      DistinctFrom(mem, s)
      == if j < |s| then [s[j]] + DistinctFrom(mem + {s[j]}, AfterFirstNew(mem, s)) else []
    decreases |s|
  {
    if |s| != 0 && s[0] in mem {
      DistinctFromAtFirstNew(mem, s[1..]);
      var j := FirstNew(mem, s[1..]);
      if j < |s[1..]| {
        assert s[1..][j + 1..] == s[j + 2..];
      }
    }
  }

  /**
   * The output holds exactly the values of `s` not in `mem`, each once:
   * nothing already remembered is produced again, nothing new is lost.
   */
  lemma {:induction false} DistinctFromMembers<T>(mem: set<T>, s: seq<T>)
    ensures var r := DistinctFrom(mem, s);
      && (forall x :: x in r <==> x in s && x !in mem)
      && (forall i, j :: 0 <= i < j < |r| ==> r[i] != r[j])
    decreases |s|
  {
    if |s| != 0 {
      assert s == [s[0]] + s[1..];
      if s[0] in mem {
        DistinctFromMembers(mem, s[1..]);
      } else {
        DistinctFromMembers(mem + {s[0]}, s[1..]);
      }
    }
  }

  /** distinct() over a fresh operator, whose membership set starts empty. */
  function Distinct<T(==)>(s: seq<T>): seq<T>
  {
    DistinctFrom({}, s)
  }

  /** Pushing one more element: it is emitted iff it is new to `mem` and to `s`. */
  lemma {:induction false} DistinctFromSnoc<T>(mem: set<T>, s: seq<T>, x: T)
    ensures DistinctFrom(mem, s + [x])
         == DistinctFrom(mem, s) + (if x in mem + Elements(s) then [] else [x])
    decreases |s|
  {
    if |s| == 0 {
      assert Elements(s) == {};
      assert (s + [x])[1..] == [];
    } else {
      assert (s + [x])[1..] == s[1..] + [x];
      assert s == [s[0]] + s[1..];
      assert Elements(s) == {s[0]} + Elements(s[1..]);
      if s[0] in mem {
        DistinctFromSnoc(mem, s[1..], x);
      } else {
        DistinctFromSnoc(mem + {s[0]}, s[1..], x);
      }
    }
  }

  /** A sequence without repeats and disjoint from `mem` passes through unchanged. */
  lemma {:induction false} DistinctFromOfDistinct<T>(mem: set<T>, s: seq<T>)
    requires forall i, j :: 0 <= i < j < |s| ==> s[i] != s[j]
    requires forall x :: x in s ==> x !in mem
    ensures DistinctFrom(mem, s) == s
    decreases |s|
  {
    if |s| != 0 {
      forall x | x in s[1..] ensures x !in mem + {s[0]} {
        var k :| 0 <= k < |s[1..]| && s[1..][k] == x;
        assert s[k + 1] == x;
      }
      DistinctFromOfDistinct(mem + {s[0]}, s[1..]);
    }
  }

  /** distinct() applied twice is distinct() applied once. */
  lemma DistinctIdempotent<T>(s: seq<T>)
    ensures Distinct(Distinct(s)) == Distinct(s)
  {
    DistinctFromMembers({}, s);
    DistinctFromOfDistinct({}, Distinct(s));
  }
}
