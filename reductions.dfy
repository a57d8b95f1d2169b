/**
 * What the terminal reducers of an int query compute: a left fold, Java's
 * 32-bit wrap-around addition, and the ascending order of sorted().
 */
module Reductions {

  /** `acc` threaded through the elements of `s` from left to right, starting at `a`. */
  function FoldLeft<A, T>(f: (A, T) -> A, a: A, s: seq<T>): A
    decreases |s|
  {
    if |s| == 0 then a else FoldLeft(f, f(a, s[0]), s[1..])
  }

  /** One more element folds into the accumulated value. */
  lemma {:induction false} FoldLeftSnoc<A, T>(f: (A, T) -> A, a: A, s: seq<T>, x: T)
    ensures FoldLeft(f, a, s + [x]) == f(FoldLeft(f, a, s), x)
    decreases |s|
  {
    if |s| == 0 {
      assert (s + [x])[1..] == [];
    } else {
      assert (s + [x])[1..] == s[1..] + [x];
      FoldLeftSnoc(f, f(a, s[0]), s[1..], x);
    }
  }

  // ---------------------------------------------------------- Java int

  const INT_MIN: int := -0x8000_0000
  const INT_MAX: int := 0x7fff_ffff
  const MODULUS: int := 0x1_0000_0000

  predicate IsInt32(x: int) { INT_MIN <= x <= INT_MAX }

  /** The Java int that a mathematical integer wraps around to. */
  function Wrap32(x: int): (r: int)
    ensures IsInt32(r)
    ensures IsInt32(x) ==> r == x
    ensures (x - r) % MODULUS == 0
  {
    (x - INT_MIN) % MODULUS + INT_MIN
  }

  /** `Integer::sum`: int addition, which wraps around on overflow. */
  function AddInt32(a: int, b: int): int
  {
    Wrap32(a + b)
  }

  /** The mathematical sum of `s`. */
  function Sum(s: seq<int>): int
    decreases |s|
  {
    if |s| == 0 then 0 else s[0] + Sum(s[1..])
  }

  /** Wrapping an intermediate result does not change the wrapped total. */
  lemma WrapAdd(x: int, y: int)
    ensures Wrap32(Wrap32(x) + y) == Wrap32(x + y)
  {
    var q := (x - INT_MIN) / MODULUS;
    assert Wrap32(x) == x - q * MODULUS;
    ModShift(x + y - INT_MIN, q);
  }

  lemma ModShift(a: int, q: int)
    ensures (a - q * MODULUS) % MODULUS == a % MODULUS
  {
    var r := a % MODULUS;
    var d := a / MODULUS;
    assert a - q * MODULUS == (d - q) * MODULUS + r;
  }

  /** A left fold of int addition is the mathematical sum, wrapped to 32 bits. */
  lemma {:induction false} FoldAddIsWrappedSum(a: int, s: seq<int>)
    requires IsInt32(a)
    ensures FoldLeft(AddInt32, a, s) == Wrap32(a + Sum(s))
    decreases |s|
  {
    if |s| != 0 {
      FoldAddIsWrappedSum(AddInt32(a, s[0]), s[1..]);
      WrapAdd(a + s[0], Sum(s[1..]));
    }
  }

  // ---------------------------------------------------------- sorting

  predicate IsSorted(s: seq<int>)
  {
    forall i, j :: 0 <= i < j < |s| ==> s[i] <= s[j]
  }

  /** `x` placed into `s` before the first larger element. */
  function Insert(x: int, s: seq<int>): seq<int>
    decreases |s|
  {
    if |s| == 0 then [x]
    else if x <= s[0] then [x] + s
    else [s[0]] + Insert(x, s[1..])
  }

  /** A value no larger than any element of an ascending sequence can go in front of it. */
  lemma SortedCons(a: int, t: seq<int>)
    requires IsSorted(t)
    requires forall j :: 0 <= j < |t| ==> a <= t[j]
    ensures IsSorted([a] + t)
  {
    forall i, j | 0 <= i < j < |t| + 1 ensures ([a] + t)[i] <= ([a] + t)[j] {
      assert ([a] + t)[j] == t[j - 1];
      if i > 0 {
        assert ([a] + t)[i] == t[i - 1];
      }
    }
  }

  /** Inserting into an ascending sequence keeps it ascending and adds `x` once. */
  lemma {:induction false} InsertSorted(x: int, s: seq<int>)
    requires IsSorted(s)
    ensures IsSorted(Insert(x, s))
    ensures multiset(Insert(x, s)) == multiset(s) + multiset{x}
    ensures Insert(x, s)[0] == x || Insert(x, s)[0] == s[0]
    decreases |s|
  {
    if |s| == 0 {
    } else if x <= s[0] {
      SortedCons(x, s);
    } else {
      assert s == [s[0]] + s[1..];
      assert IsSorted(s[1..]);
      InsertSorted(x, s[1..]);
      var r := Insert(x, s[1..]);
      assert s[0] <= r[0] by {
        if |s| > 1 {
          assert s[0] <= s[1];
        }
      }
      forall j | 0 <= j < |r| ensures s[0] <= r[j] {
        if j > 0 {
          assert r[0] <= r[j];
        }
      }
      SortedCons(s[0], r);
    }
  }

  /** The ascending permutation of `s` that `Arrays.sort` leaves in an int array. */
  function SortSeq(s: seq<int>): (r: seq<int>)
    ensures IsSorted(r)
    ensures multiset(r) == multiset(s)
    decreases |s|
  {
    if |s| == 0 then []
    else
      var t := SortSeq(s[1..]);
      assert IsSorted(Insert(s[0], t)) && multiset(Insert(s[0], t)) == multiset(s) by {
        InsertSorted(s[0], t);
        assert s == [s[0]] + s[1..];
      }
      Insert(s[0], t)
  }

  /** Sorting a sequence that is already ascending does not change it. */
  lemma {:induction false} SortSeqOfSorted(s: seq<int>)
    requires IsSorted(s)
    ensures SortSeq(s) == s
    decreases |s|
  {
    if |s| != 0 {
      SortSeqOfSorted(s[1..]);
      assert IsSorted(s[1..]);
      assert s == [s[0]] + s[1..];
    }
  }
}
