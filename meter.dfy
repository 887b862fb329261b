/**
 * `AverageMeter`: the running-mean accumulator the training and evaluation
 * loops use for their loss values. Values are reals; a weight is Python's
 * integer `n`.
 */
module Meter {

  /** One call `update(val, n)`. */
  datatype Sample = Sample(val: real, n: int)

  /** The sum of `val * n` over the samples. */
  function WeightedSum(h: seq<Sample>): real {
    if h == [] then 0.0
    else WeightedSum(h[..|h| - 1]) + h[|h| - 1].val * h[|h| - 1].n as real
  }

  /** The sum of the weights `n` over the samples. */
  function TotalWeight(h: seq<Sample>): int {
    if h == [] then 0 else TotalWeight(h[..|h| - 1]) + h[|h| - 1].n
  }

  class AverageMeter {
    var val: real
    var avg: real
    var sum: real
    var count: int
    /** The samples given to `Update` since the last `Reset`. */
    ghost var history: seq<Sample>

    ghost predicate Valid()
      reads this
    {
      && sum == WeightedSum(history)
      && count == TotalWeight(history)
      && (count != 0 ==> avg == sum / count as real)
    }

    /** Construction resets the meter. */
    constructor ()
      ensures Valid() && history == []
      ensures val == 0.0 && avg == 0.0 && sum == 0.0 && count == 0
    {
      val, avg, sum, count := 0.0, 0.0, 0.0, 0;
      history := [];
    }

    method Reset()
      modifies this
      ensures Valid() && history == []
      ensures val == 0.0 && avg == 0.0 && sum == 0.0 && count == 0
    {
      val, avg, sum, count := 0.0, 0.0, 0.0, 0;
      history := [];
    }

    /**
     * `update(val, n)`. The division `sum / count` raises `ZeroDivisionError`
     * when the new count is zero; `raised` reports it, and then `val`, `sum`
     * and `count` have already been assigned while `avg` is left as it was.
     */
    method Update(v: real, n: int) returns (raised: bool)
      requires Valid()
      modifies this
      ensures Valid() && history == old(history) + [Sample(v, n)]
      ensures val == v && sum == old(sum) + v * n as real && count == old(count) + n
      ensures raised <==> count == 0
      ensures raised ==> avg == old(avg)
      ensures !raised ==> avg == WeightedSum(history) / TotalWeight(history) as real
    {
      history := history + [Sample(v, n)];
      assert history[..|history| - 1] == old(history);
      val := v;
      sum := sum + v * n as real;
      count := count + n;
      raised := count == 0;
      if !raised {
        avg := sum / count as real;
      }
    }
  }

  /** With positive weights, the total weight of a non-empty history is positive,
      so `update` never divides by zero. */
  lemma {:induction false} PositiveWeightsCount(h: seq<Sample>)
    requires forall i :: 0 <= i < |h| ==> h[i].n > 0
    ensures TotalWeight(h) >= |h|
  {
    if h != [] {
      PositiveWeightsCount(h[..|h| - 1]);
    }
  }

  /** The plain sum of the values. */
  function PlainSum(h: seq<Sample>): real {
    if h == [] then 0.0 else PlainSum(h[..|h| - 1]) + h[|h| - 1].val
  }

  /** With the default weight 1 (the only one the training script uses), the
      count is the number of updates and the sum is the plain sum. */
  lemma {:induction false} UnitWeights(h: seq<Sample>)
    requires forall i :: 0 <= i < |h| ==> h[i].n == 1
    ensures TotalWeight(h) == |h|
    ensures WeightedSum(h) == PlainSum(h)
  {
    if h != [] {
      UnitWeights(h[..|h| - 1]);
    }
  }

  /** With positive weights, the weighted sum lies between the total weight
      times the smallest and times the largest value. */
  lemma {:induction false} WeightedSumBounds(h: seq<Sample>, lo: real, hi: real)
    requires forall i :: 0 <= i < |h| ==> h[i].n > 0 && lo <= h[i].val <= hi
    ensures lo * TotalWeight(h) as real <= WeightedSum(h) <= hi * TotalWeight(h) as real
  {
    if h != [] {
      var init, last := h[..|h| - 1], h[|h| - 1];
      assert forall i :: 0 <= i < |init| ==> init[i] == h[i];
      WeightedSumBounds(init, lo, hi);
      var w, n, x := TotalWeight(init) as real, last.n as real, last.val;
      assert WeightedSum(h) == WeightedSum(init) + x * n;
      assert TotalWeight(h) as real == w + n;
      SumBoundStep(lo, hi, w, WeightedSum(init), x, n);
    }
  }

  lemma {:induction false} SumBoundStep(lo: real, hi: real, w: real, s: real, x: real, n: real)
    requires lo * w <= s <= hi * w
    requires lo <= x <= hi && 0.0 < n
    ensures lo * (w + n) <= s + x * n <= hi * (w + n)
  {
    ScaleMonotone(lo, x, n);
    ScaleMonotone(x, hi, n);
    assert lo * (w + n) == lo * w + lo * n;
    assert hi * (w + n) == hi * w + hi * n;
  }

  lemma {:induction false} ScaleMonotone(a: real, b: real, w: real)
    requires a <= b && 0.0 <= w
    ensures a * w <= b * w
  {
  }

  lemma {:induction false} QuotientBounds(s: real, w: real, lo: real, hi: real)
    requires 0.0 < w && lo * w <= s <= hi * w
    ensures lo <= s / w <= hi
  {
    assert (s / w) * w == s;
  }

  /** A weighted mean of values in `[lo, hi]` with positive weights lies in `[lo, hi]`. */
  lemma {:induction false} MeanBetweenExtremes(h: seq<Sample>, lo: real, hi: real)
    requires h != []
    requires forall i :: 0 <= i < |h| ==> h[i].n > 0 && lo <= h[i].val <= hi
    ensures TotalWeight(h) > 0
    ensures lo <= WeightedSum(h) / TotalWeight(h) as real <= hi
  {
    PositiveWeightsCount(h);
    WeightedSumBounds(h, lo, hi);
    QuotientBounds(WeightedSum(h), TotalWeight(h) as real, lo, hi);
  }
}
