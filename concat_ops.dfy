/**
 * `IntAdvancerConcat`: all of `first`, then all of `second`. It holds no
 * cursor of its own; pulling switches to `second` through `||` once
 * `first` reports exhaustion. `first` and `second` may be the same query.
 */
module ConcatOps {
  import opened Queries
  import opened Sequences

  class AdvancerConcat<T> {
    const first: Query<T>
    const second: Query<T>

    constructor (first: Query<T>, second: Query<T>)
      ensures this.first == first && this.second == second
    {
      this.first := first;
      this.second := second;
    }

    ghost function Pending(): seq<T>
      reads first, second
    {
      if first == second then first.rest else first.rest + second.rest
    }

    /** Push: every element of `first`, then every element of `second`. */
    method Traverse() returns (out: seq<T>)
      modifies first, second
      ensures out == old(Pending())
      ensures first != second ==> |out| == |old(first.rest)| + |old(second.rest)|
      ensures first.rest == [] && second.rest == []
    {
      var a := first.Traverse();
      var b := second.Traverse();
      out := a + b;
    }

    /**
     * Pull: `first.tryAdvance(yield) || second.tryAdvance(yield)`. `second`
     * is consulted only when `first` fails; false only when both fail.
     */
    method TryAdvance() returns (ok: bool, out: seq<T>)
      modifies first, second
      ensures ok == (|old(Pending())| > 0)
      ensures out + Pending() == old(Pending())
      ensures
        if |old(first.rest)| > 0 then
          && ok && out == [old(first.rest)[0]] && first.rest == old(first.rest)[1..]
          && (first != second ==> second.rest == old(second.rest))
        else if |old(second.rest)| > 0 then
          ok && out == [old(second.rest)[0]] && first.rest == [] && second.rest == old(second.rest)[1..]
        else
          !ok && out == [] && first.rest == [] && second.rest == []
    {
      ghost var p := Pending();
      ok, out := first.TryAdvance();
      if !ok {
        assert p == if first == second then [] else second.rest;
        ok, out := second.TryAdvance();
      }
    }
  }

  /** Pulling `k` times and then traversing yields `s` and then `t`, each element once. */
  method ConcatPullThenPush<T>(s: seq<T>, t: seq<T>, k: nat) returns (pulled: seq<T>, pushed: seq<T>)
    ensures pulled + pushed == s + t
  {
    var a := new Query(s);
    var b := new Query(t);
    var c := new AdvancerConcat(a, b);
    pulled := [];
    for i := 0 to k
      invariant c.first == a && c.second == b && a != b
      invariant pulled + (a.rest + b.rest) == s + t
    {
      ghost var ar, br := a.rest, b.rest;
      var ok, out := c.TryAdvance();
      if |ar| > 0 {
        assert ar == out + a.rest && br == b.rest;
      } else if |br| > 0 {
        assert ar == [] && a.rest == [] && br == out + b.rest;
      }
      assert ar + br == out + (a.rest + b.rest);
      PullShift(pulled, out, a.rest + b.rest);
      pulled := pulled + out;
    }
    pushed := c.Traverse();
  }
}
