/**
 Integer ranges: `range_iterator` and the loop that drives it. The iterator clamps instead of
 overflowing, so that every range of 64-bit numbers ends.
 */
module Ranges {
  import opened Numeric

  /** Strictly on the step's side of the end; a zero step is on no side. */
  predicate Before(index: int, stop: int, step: int) {
    if step > 0 then index < stop else step < 0 && index > stop
  }

  class RangeIterator {
    const step: Int64
    var index: Int64

    constructor (step: Int64, index: Int64)
      ensures this.step == step && this.index == index
    {
      this.step, this.index := step, index;
    }

    /** `operator!=` against the end of the range. */
    predicate NotEqual(stop: Int64)
      reads this
    {
      if step > 0 then index < stop else if step < 0 then index > stop else false
    }

    /** `operator++`: the exact sum when it fits, the bound of the range otherwise. */
    method Advance()
      modifies this
      ensures index == if Fits(old(index) + step) then old(index) + step else if step > 0 then MAX else MIN
    {
      if (step > 0 && index > MAX - step) || (step < 0 && index < MIN - step) {
        index := if step > 0 then MAX else MIN;
        return;
      }
      index := index + step;
    }
  }

  /** The k-th number counted from the start. */
  function At(start: int, step: int, k: nat): int { start + k * step }

  /** How many steps stay strictly before the end. */
  function Length(start: int, stop: int, step: int): nat {
    if step > 0 && start < stop then (stop - start - 1) / step + 1
    else if step < 0 && start > stop then (start - stop - 1) / -step + 1
    else 0
  }

  lemma DivStep(distance: nat, step: nat, k: nat)
    requires step > 0
    ensures k * step < distance + 1 <==> k <= distance / step
  {
    var q := distance / step;
    assert q * step <= distance < q * step + step;
    if k <= q {
      assert k * step <= q * step;
    } else {
      assert k * step >= (q + 1) * step == q * step + step;
    }
  }

  /** The length is exact: the k-th number is before the end just when k is below the length. */
  lemma LengthIsExact(start: int, stop: int, step: int, k: nat)
    ensures k < Length(start, stop, step) <==> Before(At(start, step, k), stop, step)
  {
    if step > 0 {
      if start < stop {
        DivStep(stop - start - 1, step, k);
      } else {
        assert k * step >= 0;
      }
    } else if step < 0 {
      assert k * step == -(k * -step);
      if start > stop {
        DivStep(start - stop - 1, -step, k);
      } else {
        assert k * -step >= 0;
      }
    }
  }

  /** The numbers of a range. */
  function Elements(start: int, stop: int, step: int): seq<int> {
    seq(Length(start, stop, step), k requires 0 <= k => At(start, step, k))
  }

  lemma AtNext(start: int, step: int, k: nat)
    ensures At(start, step, k + 1) == At(start, step, k) + step
  {
  }

  predicate Visited(visited: seq<int>, start: int, stop: int, step: int) {
    forall k :: 0 <= k < |visited| ==>
      visited[k] == At(start, step, k) && Before(visited[k], stop, step) && Fits(visited[k])
  }

  lemma VisitedAll(visited: seq<int>, start: int, stop: int, step: int)
    requires Visited(visited, start, stop, step) && !Before(At(start, step, |visited|), stop, step)
    ensures visited == Elements(start, stop, step)
  {
    LengthIsExact(start, stop, step, |visited|);
    if |visited| > 0 {
      LengthIsExact(start, stop, step, |visited| - 1);
      assert Before(visited[|visited| - 1], stop, step);
    }
  }

  /** The loop of `foreach` over a range, over every 64-bit start, stop and step. */
  method Iterate(start: Int64, stop: Int64, step: Int64) returns (visited: seq<int>)
    ensures visited == Elements(start, stop, step)
    ensures Visited(visited, start, stop, step)
    ensures !Before(At(start, step, |visited|), stop, step)
  {
    visited := [];
    assert At(start, step, 0) == start;
    if start != stop {
      visited := IterateFrom(start, stop, step);
    }
    VisitedAll(visited, start, stop, step);
  }

  method IterateFrom(start: Int64, stop: Int64, step: Int64) returns (visited: seq<int>)
    ensures Visited(visited, start, stop, step)
    ensures !Before(At(start, step, |visited|), stop, step)
  {
    visited := [];
    var it := new RangeIterator(step, start);
    ghost var at: int := start;
    while it.NotEqual(stop)
      invariant it.step == step && Visited(visited, start, stop, step)
      invariant at == At(start, step, |visited|)
      invariant it.index == if Fits(at) then at else if step > 0 then MAX else MIN
      decreases if step > 0 then stop - it.index else it.index - stop
    {
      AtNext(start, step, |visited|);
      visited := visited + [it.index];
      assert Fits(stop);
      it.Advance();
      at := at + step;
    }
  }
}
