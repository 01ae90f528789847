/** Statistics of a latency window (internal/loadbalancer/backend.go:50-134), over exact reals. */
module Stats {
  import opened RealMath

  // ---------- The window ----------

  /** What one recorded sample does to the window: a full window loses its oldest sample. */
  function Push(window: seq<int>, windowSize: nat, ms: int): seq<int>
    requires windowSize >= 1
  {
    (if |window| >= windowSize then window[1..] else window) + [ms]
  }

  /** The window after recording every sample of `log`, starting from an empty one. */
  function Windowed(log: seq<int>, windowSize: nat): seq<int>
    requires windowSize >= 1
  {
    if log == [] then [] else Push(Windowed(log[..|log| - 1], windowSize), windowSize, log[|log| - 1])
  }

  /** The last `size` samples, or all of them when there are fewer. */
  function Recent(log: seq<int>, size: nat): seq<int> {
    if |log| <= size then log else log[|log| - size..]
  }

  lemma DropOneMore(log: seq<int>, k: nat)
    requires k < |log| - 1
    ensures log[..|log| - 1][k..][1..] + [log[|log| - 1]] == log[k + 1..]
  {
  }

  /** The window is exactly the last `min(n, windowSize)` samples of the full log. */
  lemma {:induction false} WindowIsRecentLog(log: seq<int>, windowSize: nat)
    requires windowSize >= 1
    ensures Windowed(log, windowSize) == Recent(log, windowSize)
  {
    if log != [] {
      var n := |log| - 1;
      WindowIsRecentLog(log[..n], windowSize);
      assert log == log[..n] + [log[n]];
      if n >= windowSize { DropOneMore(log, n - windowSize); }
    }
  }

  // ---------- Sum, mean, variance ----------

  function Sum(s: seq<int>): int {
    if s == [] then 0 else Sum(s[..|s| - 1]) + s[|s| - 1]
  }

  function SumOfSquares(s: seq<int>): real {
    if s == [] then 0.0 else SumOfSquares(s[..|s| - 1]) + Square(s[|s| - 1] as real)
  }

  /** Sum of squared distances to `m`. */
  function SquaredDeviations(s: seq<int>, m: real): real {
    if s == [] then 0.0 else SquaredDeviations(s[..|s| - 1], m) + Square(s[|s| - 1] as real - m)
  }

  function Mean(s: seq<int>): real {
    if s == [] then 0.0 else Sum(s) as real / |s| as real
  }

  function Variance(s: seq<int>): real {
    if s == [] then 0.0 else SquaredDeviations(s, Mean(s)) / |s| as real
  }

  predicate AllBetween(s: seq<int>, lo: int, hi: int) {
    forall i :: 0 <= i < |s| ==> lo <= s[i] <= hi
  }

  lemma {:induction false} SumBetween(s: seq<int>, lo: int, hi: int)
    requires AllBetween(s, lo, hi)
    ensures Times(lo as real, |s| as real) <= Sum(s) as real <= Times(hi as real, |s| as real)
  {
    if s != [] {
      SumBetween(s[..|s| - 1], lo, hi);
      Distribute(|s| as real - 1.0, 1.0, lo as real);
      Distribute(|s| as real - 1.0, 1.0, hi as real);
    }
  }

  /** The mean lies between any bounds on the samples. */
  lemma MeanBetween(s: seq<int>, lo: int, hi: int)
    requires s != [] && AllBetween(s, lo, hi)
    ensures lo as real <= Mean(s) <= hi as real
  {
    SumBetween(s, lo, hi);
    QuotientBounds(Sum(s) as real, |s| as real, lo as real);
    QuotientBounds(Sum(s) as real, |s| as real, hi as real);
  }

  /** The expansion of the squared deviations around any centre. */
  lemma {:induction false} DeviationsExpand(s: seq<int>, m: real)
    ensures SquaredDeviations(s, m)
         == SumOfSquares(s) - 2.0 * Times(m, Sum(s) as real) + Times(|s| as real, Square(m))
  {
    if s != [] {
      var t, x := s[..|s| - 1], s[|s| - 1] as real;
      DeviationsExpand(t, m);
      SquareOfDifference(x, m);
      Distribute(Sum(t) as real, x, m);
      Distribute(|t| as real, 1.0, Square(m));
    }
  }

  lemma CompleteTheSquare(n: real, u: real, m: real)
    ensures Times(n, Square(m)) - 2.0 * Times(m, Times(u, n))
         == Times(n, Square(m - u)) - Times(n, Square(u))
  {
    SquareOfDifference(m, u);
    Distribute(Square(m), Square(u) - 2.0 * Times(u, m), n);
    Distribute(Square(u), -2.0 * Times(u, m), n);
    Associate(m, u, n);
  }

  /** Moving the centre away from the mean by `d` costs exactly `n * d^2`. */
  lemma DeviationsFromMean(s: seq<int>, m: real)
    requires s != []
    ensures SquaredDeviations(s, m)
         == SquaredDeviations(s, Mean(s)) + Times(|s| as real, Square(m - Mean(s)))
  {
    var n, u := |s| as real, Mean(s);
    Quotient(Sum(s) as real, n);
    DeviationsExpand(s, m);
    DeviationsExpand(s, u);
    CompleteTheSquare(n, u, m);
    CompleteTheSquare(n, u, u);
  }

  /** Variance is the mean of the squares minus the square of the mean. */
  lemma VarianceIdentity(s: seq<int>)
    requires s != []
    ensures Variance(s) == SumOfSquares(s) / |s| as real - Square(Mean(s))
  {
    var n, u := |s| as real, Mean(s);
    Quotient(Sum(s) as real, n);
    DeviationsExpand(s, u);
    CompleteTheSquare(n, u, u);
    assert SquaredDeviations(s, u) == SumOfSquares(s) - Times(n, Square(u));
    DivideDifference(SumOfSquares(s), n, Square(u));
  }

  lemma DivideDifference(q: real, n: real, v: real)
    requires n > 0.0
    ensures (q - Times(n, v)) / n == q / n - v
  {
    assert (q / n - v) * n == q - n * v;
  }

  lemma {:induction false} DeviationsSign(s: seq<int>, m: real)
    ensures SquaredDeviations(s, m) >= 0.0
    ensures SquaredDeviations(s, m) == 0.0 <==> forall i :: 0 <= i < |s| ==> s[i] as real == m
  {
    if s != [] {
      var t, x := s[..|s| - 1], s[|s| - 1];
      DeviationsSign(t, m);
      SquareSign(x as real - m);
      assert s == t + [x];
    }
  }

  /** Variance is never negative, and is zero exactly when all samples are equal. */
  lemma VarianceZeroIffConstant(s: seq<int>)
    requires s != []
    ensures Variance(s) >= 0.0
    ensures Variance(s) == 0.0 <==> forall i :: 0 <= i < |s| ==> s[i] == s[0]
  {
    DeviationsSign(s, Mean(s));
    QuotientBounds(SquaredDeviations(s, Mean(s)), |s| as real, 0.0);
    SignOfTimes(0.0, |s| as real);
    if forall i :: 0 <= i < |s| ==> s[i] == s[0] {
      MeanBetween(s, s[0], s[0]);
    }
  }

  lemma SquareWithin(d: real, r: real)
    requires -r <= d <= r
    ensures Square(d) <= Square(r)
  {
    SignOfTimes(r - d, r + d);
    SignOfTimes(r + d, r - d);
    Distribute(r, -d, r + d);
  }

  lemma {:induction false} DeviationsBounded(s: seq<int>, m: real, r: real)
    requires forall i :: 0 <= i < |s| ==> -r <= s[i] as real - m <= r
    ensures SquaredDeviations(s, m) <= Times(|s| as real, Square(r))
  {
    if s != [] {
      DeviationsBounded(s[..|s| - 1], m, r);
      SquareWithin(s[|s| - 1] as real - m, r);
      Distribute(|s| as real - 1.0, 1.0, Square(r));
    }
  }

  /** Popoviciu's inequality: the variance is at most the square of half the range. */
  lemma VarianceAtMostHalfRangeSquared(s: seq<int>, lo: int, hi: int)
    requires s != [] && AllBetween(s, lo, hi)
    ensures Variance(s) <= Square((hi - lo) as real / 2.0)
  {
    var n, mid, r := |s| as real, (lo + hi) as real / 2.0, (hi - lo) as real / 2.0;
    DeviationsBounded(s, mid, r);
    DeviationsFromMean(s, mid);
    SquareSign(mid - Mean(s));
    SignOfTimes(n, Square(mid - Mean(s)));
    Associate(n, Square(mid - Mean(s)), 1.0);
    Associate(n, Square(r), 1.0);
    QuotientBounds(SquaredDeviations(s, Mean(s)), n, Square(r));
  }

  // ---------- Jitter ----------

  /** What is assumed of math.Sqrt, which is a parameter of everything that uses it. */
  ghost predicate IsSqrt(sqrt: real -> real) {
    forall x: real :: x >= 0.0 ==> sqrt(x) >= 0.0 && Square(sqrt(x)) == x
  }

  function JitterOf(s: seq<int>, sqrt: real -> real): real {
    if |s| < 2 then 0.0 else sqrt(Variance(s))
  }

  /** Jitter is the standard deviation of the window, also for windows of one sample or none,
      and vanishes exactly on constant windows. */
  lemma JitterIsStandardDeviation(s: seq<int>, sqrt: real -> real)
    requires IsSqrt(sqrt)
    ensures JitterOf(s, sqrt) >= 0.0
    ensures Square(JitterOf(s, sqrt)) == Variance(s)
    ensures JitterOf(s, sqrt) == 0.0 <==> forall i :: 0 <= i < |s| ==> s[i] == s[0]
  {
    if s != [] {
      VarianceZeroIffConstant(s);
      var j := JitterOf(s, sqrt);
      if |s| >= 2 {
        SquareSign(j);
      } else {
        assert forall i :: 0 <= i < |s| ==> s[i] == s[0];
      }
    }
  }

  // ---------- Trend ----------

  /** Where the recent quarter of a window of `n` samples starts. */
  function RecentStart(n: nat): nat { n - n / 4 }

  function TrendOf(s: seq<int>): real {
    if |s| < 8 then 0.0
    else
      var older := Mean(s[..RecentStart(|s|)]);
      var recent := Mean(s[RecentStart(|s|)..]);
      if older == 0.0 then 0.0 else (recent - older) / older * 100.0
  }

  /** The trend exceeds `p` percent exactly when the recent mean exceeds the older one by `p` percent,
      and falls below `p` percent exactly when it is less. */
  lemma TrendComparesMeans(s: seq<int>, p: real)
    requires |s| >= 8 && Mean(s[..RecentStart(|s|)]) > 0.0
    ensures TrendOf(s) > p <==> Mean(s[RecentStart(|s|)..]) > Times(1.0 + p / 100.0, Mean(s[..RecentStart(|s|)]))
    ensures TrendOf(s) < p <==> Mean(s[RecentStart(|s|)..]) < Times(1.0 + p / 100.0, Mean(s[..RecentStart(|s|)]))
  {
    var o, r := Mean(s[..RecentStart(|s|)]), Mean(s[RecentStart(|s|)..]);
    QuotientBounds(r - o, o, p / 100.0);
    Distribute(1.0, p / 100.0, o);
  }
}
