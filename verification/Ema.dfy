/** The exponential moving average kept for every 15-minute slot (internal/loadbalancer/history.go:166-176). */
module Ema {
  import opened RealMath

  const ALPHA: real := 0.1

  /** One update of the average with a new sample. */
  function Blend(sample: real, average: real): real { ALPHA * sample + (1.0 - ALPHA) * average }

  /** The average after a sequence of samples: the first one is taken as it is, the rest are blended in. */
  function Average(xs: seq<real>): real
    requires xs != []
  {
    if |xs| == 1 then xs[0] else Blend(xs[|xs| - 1], Average(xs[..|xs| - 1]))
  }

  /** (1 - ALPHA) to the power of `k`. */
  function Decay(k: nat): real {
    if k == 0 then 1.0 else (1.0 - ALPHA) * Decay(k - 1)
  }

  /** The weight of sample `i` in the average of `n` samples. */
  function Weight(n: nat, i: nat): real
    requires i < n
  {
    if i == 0 then Decay(n - 1) else ALPHA * Decay(n - 1 - i)
  }

  /** The weighted sum of the first samples, with the weights of an average of `n` samples. */
  function WeightedSum(xs: seq<real>, n: nat): real
    requires |xs| <= n
  {
    if xs == [] then 0.0
    else WeightedSum(xs[..|xs| - 1], n) + Times(Weight(n, |xs| - 1), xs[|xs| - 1])
  }

  /** The first `k` weights of an average of `n` samples, added up. */
  function WeightTotal(n: nat, k: nat): real
    requires k <= n
  {
    if k == 0 then 0.0 else WeightTotal(n, k - 1) + Weight(n, k - 1)
  }

  lemma {:induction false} WeightedSumShrinks(xs: seq<real>, n: nat)
    requires |xs| <= n
    ensures WeightedSum(xs, n + 1) == (1.0 - ALPHA) * WeightedSum(xs, n)
  {
    if xs != [] {
      WeightedSumShrinks(xs[..|xs| - 1], n);
      assert Weight(n + 1, |xs| - 1) == (1.0 - ALPHA) * Weight(n, |xs| - 1);
      Associate(1.0 - ALPHA, Weight(n, |xs| - 1), xs[|xs| - 1]);
      Distribute(WeightedSum(xs[..|xs| - 1], n), Times(Weight(n, |xs| - 1), xs[|xs| - 1]), 1.0 - ALPHA);
    }
  }

  /** The average in closed form: 0.9^(n-1) of the first sample plus 0.1 * 0.9^(n-1-i) of sample i. */
  lemma {:induction false} AverageClosedForm(xs: seq<real>)
    requires xs != []
    ensures Average(xs) == WeightedSum(xs, |xs|)
  {
    var n := |xs|;
    if n == 1 {
      assert xs[..0] == [];
    } else {
      AverageClosedForm(xs[..n - 1]);
      WeightedSumShrinks(xs[..n - 1], n - 1);
    }
  }

  lemma {:induction false} DecayPositive(k: nat)
    ensures 0.0 < Decay(k) <= 1.0
  {
    if k > 0 { DecayPositive(k - 1); }
  }

  lemma {:induction false} WeightTotalIsDecay(n: nat, k: nat)
    requires 1 <= k <= n
    ensures WeightTotal(n, k) == Decay(n - k)
  {
    if k > 1 {
      WeightTotalIsDecay(n, k - 1);
    }
  }

  /** The weights are positive and sum to one. */
  lemma WeightsArePartition(n: nat, i: nat)
    requires i < n
    ensures Weight(n, i) > 0.0
    ensures WeightTotal(n, n) == 1.0
  {
    DecayPositive(n - 1 - i);
    WeightTotalIsDecay(n, n);
  }

  /** So the average never leaves the range of its samples. */
  lemma {:induction false} AverageWithinSamples(xs: seq<real>, lo: real, hi: real)
    requires xs != [] && forall i :: 0 <= i < |xs| ==> lo <= xs[i] <= hi
    ensures lo <= Average(xs) <= hi
  {
    if |xs| > 1 {
      AverageWithinSamples(xs[..|xs| - 1], lo, hi);
    }
  }

  /** `k` further samples equal to `c` shrink the distance to `c` by exactly 0.9^k. */
  lemma {:induction false} ConvergesGeometrically(xs: seq<real>, c: real, k: nat)
    requires xs != []
    ensures Average(xs + seq(k, _ => c)) - c == Times(Decay(k), Average(xs) - c)
  {
    var ys := xs + seq(k, _ => c);
    if k == 0 {
      assert ys == xs;
    } else {
      ConvergesGeometrically(xs, c, k - 1);
      assert ys[..|ys| - 1] == xs + seq(k - 1, _ => c);
      Associate(1.0 - ALPHA, Decay(k - 1), Average(xs) - c);
    }
  }
}
