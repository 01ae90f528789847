/** What each factor of the relative health score is worth, measured on the final score of a backend that is no better
    than the minima (internal/loadbalancer/backend.go:187-251). */
module ScoreSteps {
  import opened RealMath
  import opened Stats
  import opened BackendModel
  import opened HistoryModel
  import opened Score

  /** A fully trusted backend at a steady trend, not over its cap and measured no better than the minima. */
  predicate Ordinary(m: Metrics, minLatency: real, minJitter: real) {
    && m.trust == 100 && m.trend == 0.0 && minLatency > 0.0 && minJitter > 0.0
    && 0.0 <= m.avg && NoBetterThanBest(m.avg, minLatency) && 0.0 <= m.jitter && NoBetterThanBest(m.jitter, minJitter)
    && (m.maxConns > 0 ==> 0 <= m.conns <= m.maxConns)
  }

  /** The score as it can be: not below 0, not above 100. */
  function Within(score: int): int { if score < 0 then 0 else if score > 100 then 100 else score }

  // ---------- From raw scores to scores ----------

  lemma TrustedScore(m: Metrics, minLatency: real, minJitter: real)
    requires m.trust == 100
    ensures ScoreOf(m, minLatency, minJitter) == Clamp(RawScore(m, minLatency, minJitter)).Floor
  {
    assert m.trust as real / 100.0 == 1.0;
    Associate(RawScore(m, minLatency, minJitter), 1.0, 1.0);
  }

  lemma PointsInRange(points: real, value: real, best: real)
    requires points > 0.0 && best > 0.0 && value >= 0.0 && NoBetterThanBest(value, best)
    ensures 0.0 < RelativePoints(points, value, best) <= points
  {
    if value > 0.0 {
      RatioScales(points, best, value);
      RatioShrinks(best, value, value);
      ScaleOrder(best / value, 1.0, points);
    }
  }

  lemma LoadInRange(m: Metrics)
    requires m.maxConns > 0 ==> 0 <= m.conns <= m.maxConns
    ensures 0.0 <= LoadRatio(m) <= 1.0
  {
    if m.maxConns > 0 {
      QuotientBounds(m.conns as real, m.maxConns as real, 1.0);
      QuotientBounds(m.conns as real, m.maxConns as real, 0.0);
      SignOfTimes(0.0, m.maxConns as real);
    }
  }

  lemma OrdinaryInRange(m: Metrics, minLatency: real, minJitter: real)
    requires Ordinary(m, minLatency, minJitter)
    ensures 0.0 < RawScore(m, minLatency, minJitter) <= 100.0
    ensures m.fails == 0 ==> RawScore(m, minLatency, minJitter) > 10.0
  {
    PointsInRange(40.0, m.avg, minLatency);
    PointsInRange(30.0, m.jitter, minJitter);
    LoadInRange(m);
  }

  /** Whole points added to a raw score in range are added to the score, as far as its range allows. */
  lemma WholePointsMove(m: Metrics, n: Metrics, minLatency: real, minJitter: real, move: int)
    requires Ordinary(m, minLatency, minJitter) && n.trust == 100
    requires RawScore(n, minLatency, minJitter) == RawScore(m, minLatency, minJitter) + move as real
    ensures ScoreOf(n, minLatency, minJitter) == Within(ScoreOf(m, minLatency, minJitter) + move)
  {
    OrdinaryInRange(m, minLatency, minJitter);
    TrustedScore(m, minLatency, minJitter);
    TrustedScore(n, minLatency, minJitter);
  }

  /** Any cost that leaves the raw score in range is seen in the score to within one point. */
  lemma CostShows(m: Metrics, n: Metrics, minLatency: real, minJitter: real, cost: real)
    requires Ordinary(m, minLatency, minJitter) && Ordinary(n, minLatency, minJitter)
    requires RawScore(n, minLatency, minJitter) == RawScore(m, minLatency, minJitter) - cost
    ensures cost - 1.0 < (ScoreOf(m, minLatency, minJitter) - ScoreOf(n, minLatency, minJitter)) as real < cost + 1.0
  {
    OrdinaryInRange(m, minLatency, minJitter);
    OrdinaryInRange(n, minLatency, minJitter);
    TrustedScore(m, minLatency, minJitter);
    TrustedScore(n, minLatency, minJitter);
  }

  // ---------- The best ----------

  /** As fast and as even as the best, without load, failures or a trend, and fully trusted: exactly 100 points. */
  lemma BestScoresHundred(m: Metrics, minLatency: real, minJitter: real)
    requires Ordinary(m, minLatency, minJitter) && m.fails == 0 && (m.maxConns <= 0 || m.conns == 0)
    requires (m.avg == 0.0 || m.avg == minLatency) && (m.jitter == 0.0 || m.jitter == minJitter)
    ensures ScoreOf(m, minLatency, minJitter) == 100
  {
    TrustedScore(m, minLatency, minJitter);
    if m.avg > 0.0 { assert minLatency / m.avg == 1.0; }
    if m.jitter > 0.0 { assert minJitter / m.jitter == 1.0; }
  }

  /** A new backend has no measurements, and they count as the best: it scores 100 against any minima. */
  lemma NewBackendScoresHundred(addr: string, maxConns: int, windowSize: pos, sqrt: real -> real, minLatency: real, minJitter: real)
    requires minLatency > 0.0 && minJitter > 0.0
    ensures RelativeScore(Fresh(addr, maxConns, windowSize), sqrt, minLatency, minJitter) == 100
  {
    var m := MetricsOf(Fresh(addr, maxConns, windowSize), sqrt);
    assert m == Metrics(0.0, 0.0, maxConns, 0, 0, 0.0, 100);
    BestScoresHundred(m, minLatency, minJitter);
  }

  // ---------- Trend ----------

  /** The last quarter of a window of eight samples or more, and what comes before it. */
  predicate LastQuarter(older: seq<int>, recent: seq<int>) {
    |older| + |recent| >= 8 && 4 * |recent| <= |older| + |recent| < 4 * (|recent| + 1)
  }

  /** How a trend moves the score against the same backend at a steady trend: down by 10 when the mean of the last
      quarter exceeds 1.2 times the mean before it, by 5 when it exceeds 1.1 times; up by 10 below 0.8 times, by 5
      below 0.9 times; and not at all otherwise. */
  lemma TrendMovesScore(m: Metrics, older: seq<int>, recent: seq<int>, minLatency: real, minJitter: real)
    requires Ordinary(m, minLatency, minJitter) && LastQuarter(older, recent) && Mean(older) > 0.0
    ensures var o, r := Mean(older), Mean(recent);
            ScoreOf(m.(trend := TrendOf(older + recent)), minLatency, minJitter)
            == Within(ScoreOf(m, minLatency, minJitter) +
                      if r > 1.2 * o then -10 else if r > 1.1 * o then -5
                      else if r < 0.8 * o then 10 else if r < 0.9 * o then 5 else 0)
  {
    TrendBands(older, recent);
    TrendPointsMove(m, TrendOf(older + recent), minLatency, minJitter);
  }

  lemma TrendPointsMove(m: Metrics, trend: real, minLatency: real, minJitter: real)
    requires Ordinary(m, minLatency, minJitter)
    ensures ScoreOf(m.(trend := trend), minLatency, minJitter)
         == Within(ScoreOf(m, minLatency, minJitter) +
                   if trend > 20.0 then -10 else if trend > 10.0 then -5
                   else if trend < -20.0 then 10 else if trend < -10.0 then 5 else 0)
  {
    var n := m.(trend := trend);
    var move := if trend > 20.0 then -10 else if trend > 10.0 then -5
                else if trend < -20.0 then 10 else if trend < -10.0 then 5 else 0;
    WholePointsMove(m, n, minLatency, minJitter, move);
  }

  lemma TrendBands(older: seq<int>, recent: seq<int>)
    requires LastQuarter(older, recent) && Mean(older) > 0.0
    ensures var t, o, r := TrendOf(older + recent), Mean(older), Mean(recent);
            && (t > 20.0 <==> r > 1.2 * o) && (t > 10.0 <==> r > 1.1 * o)
            && (t < -20.0 <==> r < 0.8 * o) && (t < -10.0 <==> r < 0.9 * o)
  {
    TrendBand(older, recent, 20.0);
    TrendBand(older, recent, 10.0);
    TrendBand(older, recent, -20.0);
    TrendBand(older, recent, -10.0);
  }

  lemma TrendBand(older: seq<int>, recent: seq<int>, p: real)
    requires LastQuarter(older, recent) && Mean(older) > 0.0
    ensures TrendOf(older + recent) > p <==> Mean(recent) > Times(1.0 + p / 100.0, Mean(older))
    ensures TrendOf(older + recent) < p <==> Mean(recent) < Times(1.0 + p / 100.0, Mean(older))
  {
    var s := older + recent;
    assert RecentStart(|s|) == |older|;
    assert s[..|older|] == older && s[|older|..] == recent;
    TrendComparesMeans(s, p);
  }

  /** A window of less than eight samples has no trend, nor one that was at 0 before its last quarter. */
  lemma NoTrendNoMove(m: Metrics, s: seq<int>, older: seq<int>, recent: seq<int>, minLatency: real, minJitter: real)
    requires m.trend == 0.0 && s == older + recent && (|s| < 8 || (LastQuarter(older, recent) && Mean(older) == 0.0))
    ensures ScoreOf(m.(trend := TrendOf(s)), minLatency, minJitter) == ScoreOf(m, minLatency, minJitter)
  {
    if |s| >= 8 {
      assert RecentStart(|s|) == |older| && s[..|older|] == older;
    }
  }

  // ---------- Failures ----------

  /** Any failure since the last success costs 10 points, and more failures cost no more. */
  lemma FailuresCostTen(m: Metrics, fails: int, minLatency: real, minJitter: real)
    requires Ordinary(m, minLatency, minJitter) && m.fails == 0 && fails != 0
    ensures ScoreOf(m.(fails := fails), minLatency, minJitter) == ScoreOf(m, minLatency, minJitter) - 10
  {
    OrdinaryInRange(m, minLatency, minJitter);
    TrustedScore(m, minLatency, minJitter);
    TrustedScore(m.(fails := fails), minLatency, minJitter);
  }

  // ---------- Load ----------

  /** Of `maxConns` connections, `conns` cost their share of 20 points: to within a point, and exactly when it is a
      whole number of points. */
  lemma LoadCostsItsShare(m: Metrics, conns: nat, maxConns: nat, minLatency: real, minJitter: real)
    requires Ordinary(m, minLatency, minJitter) && m.maxConns <= 0 && conns <= maxConns && maxConns >= 1
    ensures var n, share := m.(maxConns := maxConns, conns := conns), 20.0 * (conns as real / maxConns as real);
            var cost := ScoreOf(m, minLatency, minJitter) - ScoreOf(n, minLatency, minJitter);
            && share - 1.0 < cost as real < share + 1.0
            && ((20 * conns) % maxConns == 0 ==> cost == 20 * conns / maxConns)
  {
    var n := m.(maxConns := maxConns, conns := conns);
    var share := 20.0 * (conns as real / maxConns as real);
    CostShows(m, n, minLatency, minJitter, share);
    if (20 * conns) % maxConns == 0 {
      var k := 20 * conns / maxConns;
      Quotient(conns as real, maxConns as real);
      WholeShare(conns, maxConns, k);
      WholePointsMove(m, n, minLatency, minJitter, -k);
      OrdinaryInRange(n, minLatency, minJitter);
      TrustedScore(n, minLatency, minJitter);
      OrdinaryInRange(m, minLatency, minJitter);
      TrustedScore(m, minLatency, minJitter);
    }
  }

  lemma WholeShare(conns: nat, maxConns: nat, k: nat)
    requires maxConns >= 1 && 20 * conns == k * maxConns
    ensures 20.0 * (conns as real / maxConns as real) == k as real
  {
    var q, d := conns as real / maxConns as real, maxConns as real;
    Quotient(conns as real, d);
    assert Times(20.0, Times(q, d)) == Times(k as real, d);
    Associate(20.0, q, d);
    ScaleOrder(Times(20.0, q), k as real, d);
    ScaleOrder(k as real, Times(20.0, q), d);
  }

  // ---------- Latency and jitter ----------

  /** A mean latency of `v` costs the part of 40 points by which the best one is smaller: to within a point, and
      exactly 20 when it is twice the best. */
  lemma LatencyCost(m: Metrics, v: real, minLatency: real, minJitter: real)
    requires Ordinary(m, minLatency, minJitter) && m.avg == 0.0 && v >= minLatency
    ensures var n, cost := m.(avg := v), 40.0 * (1.0 - minLatency / v);
            && cost - 1.0 < (ScoreOf(m, minLatency, minJitter) - ScoreOf(n, minLatency, minJitter)) as real < cost + 1.0
            && (v == 2.0 * minLatency ==> ScoreOf(n, minLatency, minJitter) == ScoreOf(m, minLatency, minJitter) - 20)
  {
    var n := m.(avg := v);
    CostShows(m, n, minLatency, minJitter, 40.0 * (1.0 - minLatency / v));
    if v == 2.0 * minLatency {
      HalfOf(minLatency, v);
      WholePointsMove(m, n, minLatency, minJitter, -20);
    }
  }

  /** The same for a jitter, with 30 points. */
  lemma JitterCost(m: Metrics, v: real, minLatency: real, minJitter: real)
    requires Ordinary(m, minLatency, minJitter) && m.jitter == 0.0 && v >= minJitter
    ensures var n, cost := m.(jitter := v), 30.0 * (1.0 - minJitter / v);
            && cost - 1.0 < (ScoreOf(m, minLatency, minJitter) - ScoreOf(n, minLatency, minJitter)) as real < cost + 1.0
            && (v == 2.0 * minJitter ==> ScoreOf(n, minLatency, minJitter) == ScoreOf(m, minLatency, minJitter) - 15)
  {
    var n := m.(jitter := v);
    CostShows(m, n, minLatency, minJitter, 30.0 * (1.0 - minJitter / v));
    if v == 2.0 * minJitter {
      HalfOf(minJitter, v);
      WholePointsMove(m, n, minLatency, minJitter, -15);
    }
  }

  lemma HalfOf(best: real, v: real)
    requires best > 0.0 && v == 2.0 * best
    ensures best / v == 0.5
  {
    QuotientBounds(best, v, 0.5);
  }

  // ---------- Trust ----------

  /** A backend trusted at `trust` percent has that percentage of its fully trusted score, to within a point of each. */
  lemma TrustIsAPercentage(m: Metrics, trust: int, minLatency: real, minJitter: real)
    requires Ordinary(m, minLatency, minJitter) && 0 < trust <= 100
    ensures var full, part := ScoreOf(m, minLatency, minJitter), ScoreOf(m.(trust := trust), minLatency, minJitter);
            trust * full < 100 * (part + 1) && 100 * part < trust * (full + 1)
  {
    var raw, n, t := RawScore(m, minLatency, minJitter), m.(trust := trust), trust as real / 100.0;
    OrdinaryInRange(m, minLatency, minJitter);
    TrustedScore(m, minLatency, minJitter);
    var full, part := ScoreOf(m, minLatency, minJitter), ScoreOf(n, minLatency, minJitter);
    assert RawScore(n, minLatency, minJitter) == raw;
    ScaleOrder(full as real, raw, t);
    ScaleOrder(raw, full as real + 1.0, t);
    ScaleOrder(full as real + 1.0, raw, t);
    ScaleOrder(t, 1.0, raw);
    SignOfTimes(raw, t);
    Associate(t, raw, 1.0);
    assert part as real <= Times(raw, t) < part as real + 1.0;
    Percent(full, trust, t);
    Percent(full + 1, trust, t);
  }

  lemma Percent(score: int, trust: int, t: real)
    requires t == trust as real / 100.0
    ensures Times(score as real, t) * 100.0 == (trust * score) as real
  {
    assert t * 100.0 == trust as real;
    assert score as real * (t * 100.0) == (score as real * t) * 100.0;
  }

  // ---------- In a selection ----------

  /** Of two backends that differ in the trend alone, one that has slowed down by more than a fifth and one that has
      become faster by more than a fifth, the first totals at least ten points less, and is not selected. */
  lemma SlowingBackendNotSelected(x: Snapshot, i: nat, j: nat, older: seq<int>, recent: seq<int>,
                                  older': seq<int>, recent': seq<int>)
    requires i < |x.bs| && j < |x.bs| && IsAvailable(x.bs[i]) && IsAvailable(x.bs[j]) && IsSqrt(x.sqrt)
    requires Valid(x.bs[i]) && Valid(x.bs[j])
    requires x.bs[i].window == older + recent && LastQuarter(older, recent) && Mean(recent) > 1.2 * Mean(older) > 0.0
    requires x.bs[j].window == older' + recent' && LastQuarter(older', recent') && Mean(recent') < 0.8 * Mean(older')
    requires Mean(older') > 0.0 && HistoryTerm(x, x.bs[i]) == HistoryTerm(x, x.bs[j]) && x.bs[i].trust == 100
    requires var a, b := MetricsOf(x.bs[i], x.sqrt), MetricsOf(x.bs[j], x.sqrt); a == b.(trend := a.trend)
    ensures TotalScore(x, x.bs[i]) + 10 <= TotalScore(x, x.bs[j]) && !IsChoice(x, i)
  {
    var a := MetricsOf(x.bs[i], x.sqrt);
    var m := a.(trend := 0.0);
    MinimaAreBest(x, i);
    MeanNonNegative(x.bs[i]);
    JitterIsStandardDeviation(x.bs[i].window, x.sqrt);
    assert Ordinary(m, MinLatency(x), MinJitter(x));
    TrendMovesScore(m, older, recent, MinLatency(x), MinJitter(x));
    TrendMovesScore(m, older', recent', MinLatency(x), MinJitter(x));
    assert m.(trend := TrendOf(older + recent)) == a;
    assert m.(trend := TrendOf(older' + recent')) == MetricsOf(x.bs[j], x.sqrt);
    OrdinaryInRange(m, MinLatency(x), MinJitter(x));
    TrustedScore(m, MinLatency(x), MinJitter(x));
  }
}
