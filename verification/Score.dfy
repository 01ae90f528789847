/** The relative health score and the choice it leads to, on one snapshot of the backends
    (internal/loadbalancer/backend.go:187-251, strategy.go:63-108). */
module Score {
  import opened Wrappers
  import opened RealMath
  import opened Stats
  import opened BackendModel
  import opened HistoryModel

  // ---------- The score of one backend ----------

  /** What the score depends on, for a backend that is healthy and not disabled. */
  datatype Metrics = Metrics(avg: real, jitter: real, maxConns: int, conns: int, fails: int, trend: real, trust: int)

  function MetricsOf(b: State, sqrt: real -> real): Metrics {
    Metrics(Mean(b.window), JitterOf(b.window, sqrt), b.maxConns, b.conns, b.fails, TrendOf(b.window), b.trust)
  }

  /** Points for a measured value relative to the best one; no measurement earns them all. */
  function RelativePoints(points: real, value: real, best: real): real {
    if value > 0.0 && best > 0.0 then points * (best / value)
    else if value == 0.0 then points
    else 0.0
  }

  function LoadRatio(m: Metrics): real {
    if m.maxConns > 0 then m.conns as real / m.maxConns as real else 0.0
  }

  function LoadPoints(m: Metrics): real { 20.0 * (1.0 - LoadRatio(m)) }

  function StabilityPoints(m: Metrics): real { if m.fails == 0 then 10.0 else 0.0 }

  function TrendPoints(m: Metrics): real {
    if m.trend > 20.0 then -10.0
    else if m.trend > 10.0 then -5.0
    else if m.trend < -20.0 then 10.0
    else if m.trend < -10.0 then 5.0
    else 0.0
  }

  function RawScore(m: Metrics, minLatency: real, minJitter: real): real {
    RelativePoints(40.0, m.avg, minLatency) + RelativePoints(30.0, m.jitter, minJitter)
    + LoadPoints(m) + StabilityPoints(m) + TrendPoints(m)
  }

  function Clamp(x: real): real { if x < 0.0 then 0.0 else if x > 100.0 then 100.0 else x }

  function ScoreOf(m: Metrics, minLatency: real, minJitter: real): int {
    Clamp(Times(RawScore(m, minLatency, minJitter), m.trust as real / 100.0)).Floor
  }

  function RelativeScore(b: State, sqrt: real -> real, minLatency: real, minJitter: real): int {
    if b.disabled || !b.healthy then 0 else ScoreOf(MetricsOf(b, sqrt), minLatency, minJitter)
  }

  lemma RelativeScoreInRange(b: State, sqrt: real -> real, minLatency: real, minJitter: real)
    ensures 0 <= RelativeScore(b, sqrt, minLatency, minJitter) <= 100
  {
  }

  // ---------- Monotonicity ----------

  /** No worse in any respect. */
  predicate NoWorse(a: Metrics, b: Metrics) {
    && a.avg <= b.avg && a.jitter <= b.jitter && LoadRatio(a) <= LoadRatio(b)
    && (a.fails == 0 || b.fails != 0) && a.trend <= b.trend && a.trust >= b.trust
  }

  /** Not measured, or measured and no better than the best. */
  predicate NoBetterThanBest(value: real, best: real) { value == 0.0 || value >= best }

  /** The better value `a` was measured, or the worse one was not, or is no better than the best. */
  predicate FairlyCompared(a: real, b: real, best: real) { a > 0.0 || NoBetterThanBest(b, best) }

  lemma RelativePointsMonotone(points: real, a: real, b: real, best: real)
    requires points > 0.0 && best > 0.0 && 0.0 <= a <= b && FairlyCompared(a, b, best)
    ensures RelativePoints(points, a, best) >= RelativePoints(points, b, best)
  {
    if b > 0.0 {
      RatioShrinks(best, b, b);
      if a > 0.0 {
        RatioShrinks(best, a, b);
        ScaleOrder(best / b, best / a, points);
      } else {
        ScaleOrder(best / b, 1.0, points);
      }
    }
  }

  lemma RatioShrinks(best: real, a: real, b: real)
    requires best > 0.0 && 0.0 < a <= b
    ensures 0.0 < best / b <= best / a
    ensures best <= b ==> best / b <= 1.0
  {
    Quotient(best, a);
    Quotient(best, b);
    SignOfTimes(best / a, b - a);
    QuotientBounds(best, b, 1.0);
    QuotientBounds(best, a, 0.0);
    QuotientBounds(best, b, 0.0);
    QuotientBounds(best, b, best / a);
    Distribute(a, b - a, best / a);
  }

  lemma RatioScales(points: real, best: real, b: real)
    requires points > 0.0 && best > 0.0 && b > 0.0
    ensures points * (best / b) > 0.0
  {
    RatioShrinks(best, b, b);
    SignOfTimes(points, best / b);
  }

  lemma TrustScalesMonotone(x: real, y: real, s: real, t: real)
    requires x >= y && s >= t > 0.0
    ensures Clamp(Times(x, s)) >= Clamp(Times(y, t))
  {
    SignOfTimes(y, t);
    if y > 0.0 {
      ScaleOrder(y, x, t);
      ScaleOrder(t, s, x);
      Associate(t, x, 1.0);
      Associate(s, x, 1.0);
    } else {
      ScaleOrder(y, 0.0, t);
      SignOfTimes(0.0, t);
    }
  }

  /** A backend that is no worse in any respect never scores lower, through the ratios, the clamps and the
      truncation, whenever latencies and jitters are fairly compared. */
  lemma ScoreMonotone(a: Metrics, b: Metrics, minLatency: real, minJitter: real)
    requires NoWorse(a, b) && minLatency > 0.0 && minJitter > 0.0
    requires a.avg >= 0.0 && a.jitter >= 0.0 && b.trust > 0
    requires FairlyCompared(a.avg, b.avg, minLatency) && FairlyCompared(a.jitter, b.jitter, minJitter)
    ensures ScoreOf(a, minLatency, minJitter) >= ScoreOf(b, minLatency, minJitter)
  {
    RelativePointsMonotone(40.0, a.avg, b.avg, minLatency);
    RelativePointsMonotone(30.0, a.jitter, b.jitter, minJitter);
    TrustScalesMonotone(RawScore(a, minLatency, minJitter), RawScore(b, minLatency, minJitter),
                        a.trust as real / 100.0, b.trust as real / 100.0);
  }

  /** What reachable states and windows allow. */
  predicate Plausible(m: Metrics) {
    m.avg >= 0.0 && m.jitter >= 0.0 && m.conns >= 0 && m.fails >= 0 && 50 <= m.trust <= 100
  }

  /** The worse one is full: only such a backend can have been measured better than the minima, which are taken
      over the available ones. */
  predicate Comparable(a: Metrics, b: Metrics) {
    Plausible(a) && Plausible(b) && NoWorse(a, b) && 0 < b.maxConns <= b.conns
  }

  /** With these latencies the better backend never scores lower than a full one, whatever the remaining metrics, as
      long as the jitters are fairly compared. */
  ghost predicate MonotoneAtLatencies(x: real, y: real, minLatency: real, minJitter: real) {
    forall a, b :: Comparable(a, b) && a.avg == x && b.avg == y && FairlyCompared(a.jitter, b.jitter, minJitter) ==>
      ScoreOf(a, minLatency, minJitter) >= ScoreOf(b, minLatency, minJitter)
  }

  /** The same for jitters. */
  ghost predicate MonotoneAtJitters(x: real, y: real, minLatency: real, minJitter: real) {
    forall a, b :: Comparable(a, b) && a.jitter == x && b.jitter == y && FairlyCompared(a.avg, b.avg, minLatency) ==>
      ScoreOf(a, minLatency, minJitter) >= ScoreOf(b, minLatency, minJitter)
  }

  /** The condition is exact, also against full backends alone: for two latencies the score is monotone in everything
      else exactly when they are fairly compared, and likewise for two jitters. */
  lemma ScoreMonotoneIff(x: real, y: real, minLatency: real, minJitter: real)
    requires 0.0 <= x <= y && minLatency > 0.0 && minJitter > 0.0
    ensures MonotoneAtLatencies(x, y, minLatency, minJitter) <==> FairlyCompared(x, y, minLatency)
    ensures MonotoneAtJitters(x, y, minLatency, minJitter) <==> FairlyCompared(x, y, minJitter)
  {
    if FairlyCompared(x, y, minLatency) {
      forall a, b | Comparable(a, b) && a.avg == x && b.avg == y && FairlyCompared(a.jitter, b.jitter, minJitter)
        ensures ScoreOf(a, minLatency, minJitter) >= ScoreOf(b, minLatency, minJitter)
      {
        ScoreMonotone(a, b, minLatency, minJitter);
      }
    } else {
      UnmeasuredLatencyCanLose(y, minLatency, minJitter);
    }
    if FairlyCompared(x, y, minJitter) {
      forall a, b | Comparable(a, b) && a.jitter == x && b.jitter == y && FairlyCompared(a.avg, b.avg, minLatency)
        ensures ScoreOf(a, minLatency, minJitter) >= ScoreOf(b, minLatency, minJitter)
      {
        ScoreMonotone(a, b, minLatency, minJitter);
      }
    } else {
      UnmeasuredJitterCanLose(y, minLatency, minJitter);
    }
  }

  /** A backend with its only connection taken, no failures and full trust. */
  function OneOfOne(avg: real, jitter: real): Metrics { Metrics(avg, jitter, 1, 1, 0, 0.0, 100) }

  /** A measured value that loses `loss` of the points: it is no better than the best. */
  lemma LosingValue(points: real, best: real, loss: real) returns (v: real)
    requires best > 0.0 && 0.0 < loss < points
    ensures v >= best && RelativePoints(points, v, best) == points - loss
  {
    var f := (points - loss) / points;
    Quotient(points - loss, points);
    QuotientBounds(points - loss, points, 0.0);
    QuotientBounds(points - loss, points, 1.0);
    SignOfTimes(0.0, points);
    v := best / f;
    Quotient(best, f);
    QuotientBounds(best, f, best);
    QuotientBounds(best, v, f);
    ScaleOrder(f, 1.0, best);
    Associate(f, best, 1.0);
    Associate(v, f, 1.0);
  }

  lemma RatioAboveOne(best: real, value: real)
    requires 0.0 < value < best
    ensures best / value > 1.0
  {
    QuotientBounds(best, value, 1.0);
  }

  lemma FullTrustScore(m: Metrics, minLatency: real, minJitter: real)
    requires m.trust == 100
    ensures RawScore(m, minLatency, minJitter) < 80.0 <==> ScoreOf(m, minLatency, minJitter) < 80
  {
    assert m.trust as real / 100.0 == 1.0;
    Associate(RawScore(m, minLatency, minJitter), 1.0, 1.0);
  }

  /** What a ratio above one gains, made visible to the truncation by a loss that is no greater: 79 against 80. */
  function LossFor(ratio: real): real { if ratio - 1.0 < 0.5 then ratio - 1.0 else 0.5 }

  lemma GainCoversLoss(points: real, ratio: real)
    requires points >= 1.0 && ratio > 1.0
    ensures points * ratio - points >= LossFor(ratio) > 0.0
  {
    ScaleOrder(1.0, points, ratio - 1.0);
  }

  lemma UnmeasuredLatencyCanLose(y: real, minLatency: real, minJitter: real)
    requires 0.0 < y < minLatency && minJitter > 0.0
    ensures !MonotoneAtLatencies(0.0, y, minLatency, minJitter)
  {
    var r := minLatency / y;
    RatioAboveOne(minLatency, y);
    GainCoversLoss(40.0, r);
    var jitter := LosingValue(30.0, minJitter, LossFor(r));
    var a, b := OneOfOne(0.0, jitter), OneOfOne(y, jitter);
    FullTrustScore(a, minLatency, minJitter);
    FullTrustScore(b, minLatency, minJitter);
    assert RawScore(a, minLatency, minJitter) == 80.0 - LossFor(r);
    assert RawScore(b, minLatency, minJitter) == 40.0 * r + 40.0 - LossFor(r);
    assert Comparable(a, b) && ScoreOf(a, minLatency, minJitter) < ScoreOf(b, minLatency, minJitter);
  }

  lemma UnmeasuredJitterCanLose(y: real, minLatency: real, minJitter: real)
    requires 0.0 < y < minJitter && minLatency > 0.0
    ensures !MonotoneAtJitters(0.0, y, minLatency, minJitter)
  {
    var r := minJitter / y;
    RatioAboveOne(minJitter, y);
    GainCoversLoss(30.0, r);
    var latency := LosingValue(40.0, minLatency, LossFor(r));
    var a, b := OneOfOne(latency, 0.0), OneOfOne(latency, y);
    FullTrustScore(a, minLatency, minJitter);
    FullTrustScore(b, minLatency, minJitter);
    assert RawScore(a, minLatency, minJitter) == 80.0 - LossFor(r);
    assert RawScore(b, minLatency, minJitter) == 30.0 * r + 50.0 - LossFor(r);
    assert Comparable(a, b) && ScoreOf(a, minLatency, minJitter) < ScoreOf(b, minLatency, minJitter);
  }

  // ---------- The best backend ----------

  /** A backend with the minimum latency (or with none measured), below its cap and at least half trusted,
      scores at least 15, whatever its jitter, failures and trend. */
  lemma BestLatencyScoresFifteen(b: State, sqrt: real -> real, minLatency: real, minJitter: real)
    requires Valid(b) && IsAvailable(b) && IsSqrt(sqrt) && minLatency > 0.0 && minJitter > 0.0
    requires Mean(b.window) == 0.0 || Mean(b.window) == minLatency
    ensures RelativeScore(b, sqrt, minLatency, minJitter) >= 15
  {
    var m := MetricsOf(b, sqrt);
    JitterIsStandardDeviation(b.window, sqrt);
    if m.avg != 0.0 { assert minLatency / m.avg == 1.0; }
    if m.jitter > 0.0 { RatioScales(30.0, minJitter, m.jitter); }
    if m.maxConns > 0 { LoadBelowOne(m.conns as real, m.maxConns as real); }
    var raw := RawScore(m, minLatency, minJitter);
    assert raw > 30.0;
    HalfTrust(raw, m.trust as real / 100.0);
  }

  lemma LoadBelowOne(conns: real, maxConns: real)
    requires conns < maxConns && maxConns > 0.0
    ensures conns / maxConns < 1.0
  {
    QuotientBounds(conns, maxConns, 1.0);
  }

  lemma HalfTrust(raw: real, trust: real)
    requires raw > 30.0 && trust >= 0.5
    ensures Times(raw, trust) > 15.0
  {
    SignOfTimes(raw - 30.0, trust);
    Distribute(raw - 30.0, 30.0, trust);
  }

  // ---------- The choice ----------

  /** Everything HealthScoreStrategy.Select reads: the backends, the history (when there is one), the
      current period, and math.Sqrt. */
  datatype Snapshot = Snapshot(bs: seq<State>, history: Option<Cache>, period: Period, sqrt: real -> real)

  /** The positions of the available backends, in order. */
  function AvailableAt(bs: seq<State>): seq<nat> {
    if bs == [] then []
    else AvailableAt(bs[..|bs| - 1]) + if IsAvailable(bs[|bs| - 1]) then [|bs| - 1] else []
  }

  /** The available backends themselves. */
  function Available(bs: seq<State>): (r: seq<State>) {
    if bs == [] then []
    else Available(bs[..|bs| - 1]) + if IsAvailable(bs[|bs| - 1]) then [bs[|bs| - 1]] else []
  }

  lemma {:induction false} AvailableAtSound(bs: seq<State>, k: nat)
    requires k < |AvailableAt(bs)|
    ensures AvailableAt(bs)[k] < |bs| && IsAvailable(bs[AvailableAt(bs)[k]])
  {
    var t := bs[..|bs| - 1];
    if k < |AvailableAt(t)| { AvailableAtSound(t, k); }
  }

  lemma {:induction false} AvailableAtSorted(bs: seq<State>, k: nat, l: nat)
    requires k < l < |AvailableAt(bs)|
    ensures AvailableAt(bs)[k] < AvailableAt(bs)[l]
  {
    var t := bs[..|bs| - 1];
    if l < |AvailableAt(t)| { AvailableAtSorted(t, k, l); } else { AvailableAtSound(t, k); }
  }

  lemma {:induction false} AvailableAtComplete(bs: seq<State>, i: nat)
    requires i < |bs| && IsAvailable(bs[i])
    ensures i in AvailableAt(bs)
  {
    var t := bs[..|bs| - 1];
    if i < |t| { AvailableAtComplete(t, i); }
  }

  /** Filtering keeps exactly the available backends, each once and in their order. */
  lemma AvailableAtIsFilter(bs: seq<State>)
    ensures forall k :: 0 <= k < |AvailableAt(bs)| ==> AvailableAt(bs)[k] < |bs| && IsAvailable(bs[AvailableAt(bs)[k]])
    ensures forall k, l :: 0 <= k < l < |AvailableAt(bs)| ==> AvailableAt(bs)[k] < AvailableAt(bs)[l]
    ensures forall i :: 0 <= i < |bs| && IsAvailable(bs[i]) ==> i in AvailableAt(bs)
  {
    var at := AvailableAt(bs);
    forall k | 0 <= k < |at| ensures at[k] < |bs| && IsAvailable(bs[at[k]]) { AvailableAtSound(bs, k); }
    forall k, l | 0 <= k < l < |at| ensures at[k] < at[l] { AvailableAtSorted(bs, k, l); }
    forall i | 0 <= i < |bs| && IsAvailable(bs[i]) ensures i in at { AvailableAtComplete(bs, i); }
  }

  lemma {:induction false} AvailableElement(bs: seq<State>, k: nat)
    requires k < |AvailableAt(bs)| || k < |Available(bs)|
    ensures |AvailableAt(bs)| == |Available(bs)|
    ensures AvailableAt(bs)[k] < |bs| && IsAvailable(bs[AvailableAt(bs)[k]])
    ensures Available(bs)[k] == bs[AvailableAt(bs)[k]]
  {
    var t := bs[..|bs| - 1];
    SameLength(t);
    if k < |Available(t)| { AvailableElement(t, k); }
  }

  lemma {:induction false} SameLength(bs: seq<State>)
    ensures |AvailableAt(bs)| == |Available(bs)|
  {
    if bs != [] { SameLength(bs[..|bs| - 1]); }
  }

  /** Where the available backend at position `j` ended up among the available ones. */
  lemma AvailablePosition(bs: seq<State>, j: nat) returns (l: nat)
    requires j < |bs| && IsAvailable(bs[j])
    ensures l < |AvailableAt(bs)| == |Available(bs)|
    ensures AvailableAt(bs)[l] == j && Available(bs)[l] == bs[j]
  {
    AvailableAtIsFilter(bs);
    l :| 0 <= l < |AvailableAt(bs)| && AvailableAt(bs)[l] == j;
    AvailableElement(bs, l);
  }

  lemma AvailableOrder(bs: seq<State>, k: nat, l: nat)
    requires k < |AvailableAt(bs)| && l < |AvailableAt(bs)|
    ensures AvailableAt(bs)[l] < AvailableAt(bs)[k] ==> l < k
  {
    AvailableAtIsFilter(bs);
  }

  function Averages(bs: seq<State>): (r: seq<real>)
    ensures |r| == |bs|
    ensures forall i :: 0 <= i < |bs| ==> r[i] == Mean(bs[i].window)
  {
    if bs == [] then [] else Averages(bs[..|bs| - 1]) + [Mean(bs[|bs| - 1].window)]
  }

  function Jitters(bs: seq<State>, sqrt: real -> real): (r: seq<real>)
    ensures |r| == |bs|
    ensures forall i :: 0 <= i < |bs| ==> r[i] == JitterOf(bs[i].window, sqrt)
  {
    if bs == [] then [] else Jitters(bs[..|bs| - 1], sqrt) + [JitterOf(bs[|bs| - 1].window, sqrt)]
  }

  /** The lesser of the least positive value so far (negative: none) and the next one. */
  function Lesser(least: real, x: real): real { if x > 0.0 && (least < 0.0 || x < least) then x else least }

  /** The least positive value, or -1 when there is none. */
  function LeastPositive(xs: seq<real>): real {
    if xs == [] then -1.0 else Lesser(LeastPositive(xs[..|xs| - 1]), xs[|xs| - 1])
  }

  lemma {:induction false} LeastPositiveIsLeast(xs: seq<real>)
    ensures LeastPositive(xs) == -1.0 || (LeastPositive(xs) > 0.0 && LeastPositive(xs) in xs)
    ensures forall i :: 0 <= i < |xs| && xs[i] > 0.0 ==> 0.0 < LeastPositive(xs) <= xs[i]
  {
    if xs != [] {
      LeastPositiveIsLeast(xs[..|xs| - 1]);
    }
  }

  function OrOne(x: real): real { if x <= 0.0 then 1.0 else x }

  function MinLatency(x: Snapshot): real { OrOne(LeastPositive(Averages(Available(x.bs)))) }

  function MinJitter(x: Snapshot): real { OrOne(LeastPositive(Jitters(Available(x.bs), x.sqrt))) }

  function HistoryTerm(x: Snapshot, b: State): int {
    if x.history.None? then 0
    else HistoricalScore(x.history.value, b.addr, x.period, Mean(b.window), JitterOf(b.window, x.sqrt))
  }

  /** The score of a backend relative to the available ones, with the history adjustment. */
  function TotalScore(x: Snapshot, b: State): int {
    RelativeScore(b, x.sqrt, MinLatency(x), MinJitter(x)) + HistoryTerm(x, b)
  }

  /** The first available backend of maximal score. */
  predicate IsChoice(x: Snapshot, i: nat) {
    && i < |x.bs| && IsAvailable(x.bs[i])
    && forall j :: 0 <= j < |x.bs| && IsAvailable(x.bs[j]) ==>
         TotalScore(x, x.bs[j]) <= TotalScore(x, x.bs[i]) && (j < i ==> TotalScore(x, x.bs[j]) < TotalScore(x, x.bs[i]))
  }

  lemma ChoiceUnique(x: Snapshot, i: nat, j: nat)
    requires IsChoice(x, i) && IsChoice(x, j)
    ensures i == j
  {
  }

  lemma MeanNonNegative(b: State)
    requires Valid(b)
    ensures Mean(b.window) >= 0.0
  {
    if b.window != [] {
      SumBetween(b.window, 0, Greatest(b.window));
      QuotientBounds(Sum(b.window) as real, |b.window| as real, 0.0);
      SignOfTimes(0.0, |b.window| as real);
    }
  }

  function Greatest(s: seq<int>): (m: int)
    ensures forall i :: 0 <= i < |s| ==> s[i] <= m
  {
    if s == [] then 0
    else
      var m := Greatest(s[..|s| - 1]);
      if s[|s| - 1] > m then s[|s| - 1] else m
  }

  /** The minima are positive, and no available backend was measured better than them: the condition under
      which the score is monotone. */
  lemma MinimaAreBest(x: Snapshot, i: nat)
    requires i < |x.bs| && IsAvailable(x.bs[i]) && Valid(x.bs[i]) && IsSqrt(x.sqrt)
    ensures MinLatency(x) > 0.0 && MinJitter(x) > 0.0
    ensures NoBetterThanBest(Mean(x.bs[i].window), MinLatency(x))
    ensures NoBetterThanBest(JitterOf(x.bs[i].window, x.sqrt), MinJitter(x))
  {
    var k := AvailablePosition(x.bs, i);
    var avgs, jits := Averages(Available(x.bs)), Jitters(Available(x.bs), x.sqrt);
    LeastPositiveIsLeast(avgs);
    LeastPositiveIsLeast(jits);
    MeanNonNegative(x.bs[i]);
    JitterIsStandardDeviation(x.bs[i].window, x.sqrt);
    assert avgs[k] == Mean(x.bs[i].window) && jits[k] == JitterOf(x.bs[i].window, x.sqrt);
  }

  /** Some available backend earns the full latency points. */
  lemma SomeBestLatency(x: Snapshot) returns (k: nat)
    requires Available(x.bs) != []
    requires forall i :: 0 <= i < |x.bs| ==> Valid(x.bs[i])
    ensures k < |Available(x.bs)|
    ensures var m := Mean(Available(x.bs)[k].window);
            m == 0.0 || m == MinLatency(x)
  {
    var avgs := Averages(Available(x.bs));
    LeastPositiveIsLeast(avgs);
    if LeastPositive(avgs) == -1.0 {
      k := 0;
      AvailableElement(x.bs, k);
      MeanNonNegative(Available(x.bs)[k]);
      assert avgs[0] == Mean(Available(x.bs)[k].window);
    } else {
      k :| 0 <= k < |avgs| && avgs[k] == LeastPositive(avgs);
    }
  }

  /** While a backend is available, some available backend totals at least 3: 15 from its own score, and the
      history takes away at most 12. So starting the search from -1 can never end without a choice. */
  lemma SomeTotalAtLeastThree(x: Snapshot) returns (k: nat)
    requires Available(x.bs) != [] && IsSqrt(x.sqrt)
    requires forall i :: 0 <= i < |x.bs| ==> Valid(x.bs[i])
    ensures k < |Available(x.bs)| && TotalScore(x, Available(x.bs)[k]) >= 3
  {
    k := SomeBestLatency(x);
    AvailableElement(x.bs, k);
    MinimaAreBest(x, AvailableAt(x.bs)[k]);
    var b := Available(x.bs)[k];
    BestLatencyScoresFifteen(b, x.sqrt, MinLatency(x), MinJitter(x));
    if x.history.Some? {
      HistoricalScoreBounded(x.history.value, b.addr, x.period, Mean(b.window), JitterOf(b.window, x.sqrt));
    }
  }

  // ---------- Backends that change between filtering and scoring ----------

  predicate Up(b: State) { b.healthy && !b.disabled }

  /** The filtered backends by the time they are scored: some may have gone down or been disabled. */
  ghost predicate OnlyFlagsChanged(before: seq<State>, now: seq<State>) {
    |now| == |before| &&
    forall k :: 0 <= k < |now| ==> now[k] == before[k].(healthy := now[k].healthy, disabled := now[k].disabled)
  }

  lemma ScoreOfChanged(x: Snapshot, before: State, now: State)
    requires IsAvailable(before) && now == before.(healthy := now.healthy, disabled := now.disabled)
    ensures TotalScore(x, now) == if Up(now) then TotalScore(x, before) else HistoryTerm(x, before)
  {
  }

  /** No score reaches 0, so that nothing is selected, exactly when every filtered backend either has gone down since
      and its history adjustment is negative, or is up and its total was negative anyway. */
  lemma NothingSelectedIff(x: Snapshot, now: seq<State>)
    requires OnlyFlagsChanged(Available(x.bs), now)
    ensures (forall k :: 0 <= k < |now| ==> TotalScore(x, now[k]) < 0) <==>
            forall k :: 0 <= k < |now| ==>
              if Up(now[k]) then TotalScore(x, Available(x.bs)[k]) < 0 else HistoryTerm(x, Available(x.bs)[k]) < 0
  {
    forall k | 0 <= k < |now|
      ensures TotalScore(x, now[k])
           == if Up(now[k]) then TotalScore(x, Available(x.bs)[k]) else HistoryTerm(x, Available(x.bs)[k])
    {
      AvailableElement(x.bs, k);
      ScoreOfChanged(x, Available(x.bs)[k], now[k]);
    }
  }

  /** So something is selected as long as some backend with the best latency stays up. */
  lemma BestLatencyStillSelected(x: Snapshot, now: seq<State>, k: nat)
    requires OnlyFlagsChanged(Available(x.bs), now) && k < |now| && Up(now[k]) && IsSqrt(x.sqrt)
    requires forall i :: 0 <= i < |x.bs| ==> Valid(x.bs[i])
    requires Mean(now[k].window) == 0.0 || Mean(now[k].window) == MinLatency(x)
    ensures TotalScore(x, now[k]) >= 3
  {
    AvailableElement(x.bs, k);
    MinimaAreBest(x, AvailableAt(x.bs)[k]);
    var b := Available(x.bs)[k];
    ScoreOfChanged(x, b, now[k]);
    BestLatencyScoresFifteen(b, x.sqrt, MinLatency(x), MinJitter(x));
    if x.history.Some? {
      HistoricalScoreBounded(x.history.value, b.addr, x.period, Mean(b.window), JitterOf(b.window, x.sqrt));
    }
  }

  // ---------- Better backends ----------

  /** Of two backends that are up, and possibly full, one that is no worse in any respect, fairly compared with the
      minima and with no smaller history adjustment, never totals less. */
  lemma BetterBackendUpNeverTotalsLess(x: Snapshot, a: State, b: State)
    requires Valid(a) && a.healthy && !a.disabled && Valid(b) && MinLatency(x) > 0.0 && MinJitter(x) > 0.0 && IsSqrt(x.sqrt)
    requires NoWorse(MetricsOf(a, x.sqrt), MetricsOf(b, x.sqrt)) && HistoryTerm(x, a) >= HistoryTerm(x, b)
    requires FairlyCompared(Mean(a.window), Mean(b.window), MinLatency(x))
    requires FairlyCompared(JitterOf(a.window, x.sqrt), JitterOf(b.window, x.sqrt), MinJitter(x))
    ensures TotalScore(x, a) >= TotalScore(x, b)
  {
    MeanNonNegative(a);
    JitterIsStandardDeviation(a.window, x.sqrt);
    ScoreMonotone(MetricsOf(a, x.sqrt), MetricsOf(b, x.sqrt), MinLatency(x), MinJitter(x));
  }

  /** Among available backends the comparison is always fair: one that is no worse in any respect and has no smaller
      history adjustment never totals less. */
  lemma BetterBackendNeverTotalsLess(x: Snapshot, i: nat, j: nat)
    requires i < |x.bs| && j < |x.bs| && IsAvailable(x.bs[i]) && IsAvailable(x.bs[j])
    requires Valid(x.bs[i]) && Valid(x.bs[j]) && IsSqrt(x.sqrt)
    requires NoWorse(MetricsOf(x.bs[i], x.sqrt), MetricsOf(x.bs[j], x.sqrt))
    requires HistoryTerm(x, x.bs[i]) >= HistoryTerm(x, x.bs[j])
    ensures TotalScore(x, x.bs[i]) >= TotalScore(x, x.bs[j])
  {
    MinimaAreBest(x, j);
    BetterBackendUpNeverTotalsLess(x, x.bs[i], x.bs[j]);
  }

  // ---------- A better backend that is not chosen ----------

  /** A backend that has had one dial, which took `ms` milliseconds and has been closed. */
  function Sampled(addr: string, ms: int): State { Fresh(addr, 0, 8).(window := [ms]) }

  lemma SampledReached(addr: string, ns: nat)
    ensures Run(Setup(3, 3, addr, 0, 8), [DialSelect, DialEnd(ns, Some("player")), Close(0)]).b
         == Sampled(addr, Milliseconds(ns))
  {
    var u, es := Setup(3, 3, addr, 0, 8), [DialSelect, DialEnd(ns, Some("player")), Close(0)];
    assert es[..2] == [DialSelect, DialEnd(ns, Some("player"))] && es[..2][..1] == [DialSelect] && [DialSelect][..0] == [];
    assert Run(u, [DialSelect]) == Next(u, Run(u, []), DialSelect);
    assert Run(u, es[..2]) == Next(u, Run(u, [DialSelect]), DialEnd(ns, Some("player")));
  }

  /** Two backends that have had one dial each, in less than a millisecond and in one, after a history of twenty
      samples in which both took 100 on average at this time of the day. */
  function Hidden(sqrt: real -> real, period: Period): Snapshot {
    var slots := EmptySlots()[period := PeriodStats(100.0, 0.0, 20, period, PeriodLabel(period))];
    Snapshot([Sampled("a", 0), Sampled("b", 1)], Some(map["a" := slots, "b" := slots]), period, sqrt)
  }

  lemma OneSample(addr: string, ms: int, sqrt: real -> real)
    ensures Mean(Sampled(addr, ms).window) == ms as real && JitterOf(Sampled(addr, ms).window, sqrt) == 0.0
    ensures TrendOf(Sampled(addr, ms).window) == 0.0 && IsAvailable(Sampled(addr, ms))
    ensures ms >= 0 ==> Valid(Sampled(addr, ms))
  {
    assert [ms][..0] == [];
    assert Sum([ms]) == Sum([]) + ms;
    Quotient(ms as real, 1.0);
    assert Mean([ms]) == ms as real / 1.0;
  }

  lemma MinimaOfTwo(x: Snapshot, a: State, b: State)
    requires x.bs == [a, b] && IsAvailable(a) && IsAvailable(b)
    requires Mean(a.window) == 0.0 && Mean(b.window) == 1.0
    requires JitterOf(a.window, x.sqrt) == 0.0 && JitterOf(b.window, x.sqrt) == 0.0
    ensures MinLatency(x) == 1.0 && MinJitter(x) == 1.0
  {
    assert x.bs[..1] == [a] && [a][..0] == [];
    assert Available([a]) == [a] && Available(x.bs) == [a, b];
    AvailableElement(x.bs, 0);
    var avgs, jits := Averages([a, b]), Jitters([a, b], x.sqrt);
    assert avgs == [0.0, 1.0] && jits == [0.0, 0.0];
    LeastPositiveIsLeast(avgs);
    LeastPositiveIsLeast(jits);
  }

  /** The faster backend is no worse in any respect, scores no less by itself, and is not the choice: the history
      rewards the latency of the slower one and takes that of the faster one for unmeasured. */
  lemma BetterBackendCanLose(sqrt: real -> real, period: Period)
    ensures var x := Hidden(sqrt, period);
            && NoWorse(MetricsOf(x.bs[0], sqrt), MetricsOf(x.bs[1], sqrt)) && Mean(x.bs[0].window) < Mean(x.bs[1].window)
            && TotalScore(x, x.bs[0]) == 100 && TotalScore(x, x.bs[1]) == 108 && IsChoice(x, 1)
  {
    var x := Hidden(sqrt, period);
    OneSample("a", 0, sqrt);
    OneSample("b", 1, sqrt);
    MinimaOfTwo(x, x.bs[0], x.bs[1]);
    FullScore(MetricsOf(x.bs[0], sqrt));
    FullScore(MetricsOf(x.bs[1], sqrt));
    HiddenHistory(sqrt, period);
  }

  lemma HiddenHistory(sqrt: real -> real, period: Period)
    ensures var x := Hidden(sqrt, period);
            HistoryTerm(x, x.bs[0]) == 0 && HistoryTerm(x, x.bs[1]) == 8
  {
    OneSample("a", 0, sqrt);
    OneSample("b", 1, sqrt);
    BandOfRatio(1.0, 100.0, 0.7);
  }

  lemma FullScore(m: Metrics)
    requires (m.avg == 0.0 || m.avg == 1.0) && m.jitter == 0.0 && m.maxConns == 0 && m.fails == 0 && m.trend == 0.0 && m.trust == 100
    ensures ScoreOf(m, 1.0, 1.0) == 100
  {
    assert RawScore(m, 1.0, 1.0) == 100.0;
    Associate(100.0, 1.0, 1.0);
  }

  // ---------- From the available list back to the whole list ----------

  function Totals(x: Snapshot, bs: seq<State>): (r: seq<int>)
    ensures |r| == |bs|
    ensures forall i :: 0 <= i < |bs| ==> r[i] == TotalScore(x, bs[i])
  {
    if bs == [] then [] else Totals(x, bs[..|bs| - 1]) + [TotalScore(x, bs[|bs| - 1])]
  }

  predicate IsFirstGreatest(xs: seq<int>, k: nat) {
    k < |xs| && forall l :: 0 <= l < |xs| ==> xs[l] <= xs[k] && (l < k ==> xs[l] < xs[k])
  }

  /** The first greatest total among the available backends is the choice in the whole list. */
  lemma ChoiceOfAvailable(x: Snapshot, k: nat)
    requires IsFirstGreatest(Totals(x, Available(x.bs)), k)
    ensures k < |AvailableAt(x.bs)| && AvailableAt(x.bs)[k] < |x.bs| && IsChoice(x, AvailableAt(x.bs)[k])
  {
    AvailableElement(x.bs, k);
    var i, totals := AvailableAt(x.bs)[k], Totals(x, Available(x.bs));
    forall j | 0 <= j < |x.bs| && IsAvailable(x.bs[j])
      ensures TotalScore(x, x.bs[j]) <= totals[k] && (j < i ==> TotalScore(x, x.bs[j]) < totals[k])
    {
      var l := AvailablePosition(x.bs, j);
      AvailableOrder(x.bs, k, l);
      assert totals[l] <= totals[k];
    }
  }

  // ---------- Fewest connections ----------

  function Connections(bs: seq<State>): (r: seq<int>)
    ensures |r| == |bs|
    ensures forall i :: 0 <= i < |bs| ==> r[i] == bs[i].conns
  {
    if bs == [] then [] else Connections(bs[..|bs| - 1]) + [bs[|bs| - 1].conns]
  }

  predicate IsFirstLeast(xs: seq<int>, k: nat) {
    k < |xs| && forall l :: 0 <= l < |xs| ==> xs[k] <= xs[l] && (l < k ==> xs[k] < xs[l])
  }

  /** The first available backend with the fewest connections. */
  predicate IsLeastLoaded(bs: seq<State>, i: nat) {
    && i < |bs| && IsAvailable(bs[i])
    && forall j :: 0 <= j < |bs| && IsAvailable(bs[j]) ==>
         bs[i].conns <= bs[j].conns && (j < i ==> bs[i].conns < bs[j].conns)
  }

  lemma LeastLoadedOfAvailable(bs: seq<State>, k: nat)
    requires IsFirstLeast(Connections(Available(bs)), k)
    ensures k < |AvailableAt(bs)| && AvailableAt(bs)[k] < |bs| && IsLeastLoaded(bs, AvailableAt(bs)[k])
  {
    AvailableElement(bs, k);
    var i, conns := AvailableAt(bs)[k], Connections(Available(bs));
    forall j | 0 <= j < |bs| && IsAvailable(bs[j])
      ensures bs[i].conns <= bs[j].conns && (j < i ==> bs[i].conns < bs[j].conns)
    {
      var l := AvailablePosition(bs, j);
      AvailableOrder(bs, k, l);
      assert conns[k] <= conns[l];
    }
  }
}
