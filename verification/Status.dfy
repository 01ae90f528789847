/** The scores shown by the status command, which recomputes what the strategy computes (main.go:478-524). */
module Status {
  import opened Wrappers
  import opened RealMath
  import opened Stats
  import opened BackendModel
  import opened BackendClass
  import opened HistoryModel
  import opened HistoryClass
  import opened Score
  import opened Strategy

  /** The first position with the given address. */
  function FirstWith(bs: seq<State>, addr: string): nat
    requires exists i :: 0 <= i < |bs| && bs[i].addr == addr
    ensures FirstWith(bs, addr) < |bs| && bs[FirstWith(bs, addr)].addr == addr
    ensures forall j :: 0 <= j < FirstWith(bs, addr) ==> bs[j].addr != addr
  {
    if bs[0].addr == addr then 0
    else
      assert exists i :: 0 <= i < |bs[1..]| && bs[1..][i].addr == addr by {
        var i :| 0 <= i < |bs| && bs[i].addr == addr;
        assert bs[1..][i - 1] == bs[i];
      }
      1 + FirstWith(bs[1..], addr)
  }

  /** What is shown for position `i`: the total score of the first backend with the same address. */
  function Displayed(x: Snapshot, i: nat): int
    requires i < |x.bs|
  {
    TotalScore(x, x.bs[FirstWith(x.bs, x.bs[i].addr)])
  }

  /** What is shown for the first `n` positions. */
  function DisplayedScores(x: Snapshot, n: nat): seq<int>
    requires n <= |x.bs|
  {
    if n == 0 then [] else DisplayedScores(x, n - 1) + [Displayed(x, n - 1)]
  }

  lemma {:induction false} DisplayedScoresAt(x: Snapshot, n: nat, i: nat)
    requires i < n <= |x.bs|
    ensures |DisplayedScores(x, n)| == n
    ensures DisplayedScores(x, n)[i] == Displayed(x, i)
  {
    if n > 1 { DisplayedScoresAt(x, n - 1, if i < n - 1 then i else 0); }
  }

  /** Shows a score for every backend, available or not. */
  method ShowScores(backends: seq<Backend>, history: HistoryManager?, period: Period, sqrt: real -> real)
    returns (scores: seq<int>)
    ensures scores == DisplayedScores(SnapshotOf(backends, history, period, sqrt), |backends|)
  {
    var minLatency, minJitter := MinimaSkipping(backends, sqrt);
    scores := ShowAgainst(backends, minLatency, minJitter, history, period, sqrt,
                          SnapshotOf(backends, history, period, sqrt));
  }

  /** The loop over the positions, with the minima already found. */
  method ShowAgainst(backends: seq<Backend>, minLatency: real, minJitter: real, history: HistoryManager?,
                     period: Period, sqrt: real -> real, ghost x: Snapshot)
    returns (scores: seq<int>)
    requires x == SnapshotOf(backends, history, period, sqrt)
    requires minLatency == MinLatency(x) && minJitter == MinJitter(x)
    ensures scores == DisplayedScores(x, |backends|)
  {
    scores := [];
    for i := 0 to |backends|
      invariant scores == DisplayedScores(x, i)
    {
      var score := ScoreOfAddress(backends, i, minLatency, minJitter, history, period, sqrt, x);
      scores := scores + [score];
    }
  }

  /** The inner search: the score of the first backend whose address matches that of position `i`. */
  method ScoreOfAddress(backends: seq<Backend>, i: nat, minLatency: real, minJitter: real, history: HistoryManager?,
                        period: Period, sqrt: real -> real, ghost x: Snapshot)
    returns (score: int)
    requires i < |backends| && x == SnapshotOf(backends, history, period, sqrt)
    requires minLatency == MinLatency(x) && minJitter == MinJitter(x)
    ensures score == Displayed(x, i)
  {
    var addr := backends[i].addr;
    assert x.bs[i].addr == addr;
    score := 0;
    for j := 0 to |backends|
      invariant j <= FirstWith(x.bs, addr)
    {
      if backends[j].addr == addr {
        assert x.bs[j].addr == addr;
        score := CombinedScore(backends[j], minLatency, minJitter, history, period, sqrt);
        CombinedIsTotal(x, history, backends[j]);
        return;
      }
      assert x.bs[j].addr != addr;
    }
  }

  /** The minima over the available backends, found in one pass that skips the others. */
  method MinimaSkipping(backends: seq<Backend>, sqrt: real -> real) returns (minLatency: real, minJitter: real)
    ensures minLatency == OrOne(LeastLatency(Views(backends)))
    ensures minJitter == OrOne(LeastJitter(Views(backends), sqrt))
  {
    minLatency, minJitter := -1.0, -1.0;
    ghost var bs := Views(backends);
    for k := 0 to |backends|
      invariant minLatency == LeastLatency(bs[..k]) && minJitter == LeastJitter(bs[..k], sqrt)
    {
      LeastAfterOneMore(bs, k, sqrt);
      assert bs[k] == backends[k].View();
      var available := backends[k].IsAvailable();
      if !available {
        continue;
      }
      var lat := backends[k].AvgLatency();
      var jit := backends[k].Jitter(sqrt);
      if lat > 0.0 && (minLatency < 0.0 || lat < minLatency) {
        minLatency := lat;
      }
      if jit > 0.0 && (minJitter < 0.0 || jit < minJitter) {
        minJitter := jit;
      }
    }
    assert bs[..|backends|] == bs;
    if minLatency <= 0.0 {
      minLatency := 1.0;
    }
    if minJitter <= 0.0 {
      minJitter := 1.0;
    }
  }

  lemma LeastAfterOneMore(bs: seq<State>, k: nat, sqrt: real -> real)
    requires k < |bs|
    ensures LeastLatency(bs[..k + 1])
         == if IsAvailable(bs[k]) then Lesser(LeastLatency(bs[..k]), Mean(bs[k].window)) else LeastLatency(bs[..k])
    ensures LeastJitter(bs[..k + 1], sqrt)
         == if IsAvailable(bs[k]) then Lesser(LeastJitter(bs[..k], sqrt), JitterOf(bs[k].window, sqrt))
            else LeastJitter(bs[..k], sqrt)
  {
    assert bs[..k + 1] == bs[..k] + [bs[k]];
    LatencyAfterOneMore(bs[..k], bs[k], sqrt);
    JitterAfterOneMore(bs[..k], bs[k], sqrt);
  }

  lemma LeastSnoc(xs: seq<real>, x: real)
    ensures LeastPositive(xs + [x]) == Lesser(LeastPositive(xs), x)
  {
    assert (xs + [x])[..|xs|] == xs;
  }

  lemma MeasurementsSnoc(bs: seq<State>, b: State, sqrt: real -> real)
    ensures Averages(bs + [b]) == Averages(bs) + [Mean(b.window)]
    ensures Jitters(bs + [b], sqrt) == Jitters(bs, sqrt) + [JitterOf(b.window, sqrt)]
  {
    assert (bs + [b])[..|bs|] == bs;
  }

  function LeastLatency(bs: seq<State>): real { LeastPositive(Averages(Available(bs))) }

  function LeastJitter(bs: seq<State>, sqrt: real -> real): real { LeastPositive(Jitters(Available(bs), sqrt)) }

  lemma LatencyAfterOneMore(bs: seq<State>, b: State, sqrt: real -> real)
    ensures LeastLatency(bs + [b]) == if IsAvailable(b) then Lesser(LeastLatency(bs), Mean(b.window)) else LeastLatency(bs)
  {
    AvailableSnoc(bs, b);
    if IsAvailable(b) {
      MeasurementsSnoc(Available(bs), b, sqrt);
      LeastSnoc(Averages(Available(bs)), Mean(b.window));
      assert Averages(Available(bs + [b])) == Averages(Available(bs)) + [Mean(b.window)];
    } else {
      assert Available(bs + [b]) == Available(bs);
    }
  }

  lemma JitterAfterOneMore(bs: seq<State>, b: State, sqrt: real -> real)
    ensures LeastJitter(bs + [b], sqrt)
         == if IsAvailable(b) then Lesser(LeastJitter(bs, sqrt), JitterOf(b.window, sqrt)) else LeastJitter(bs, sqrt)
  {
    AvailableSnoc(bs, b);
    if IsAvailable(b) {
      MeasurementsSnoc(Available(bs), b, sqrt);
      LeastSnoc(Jitters(Available(bs), sqrt), JitterOf(b.window, sqrt));
      assert Jitters(Available(bs + [b]), sqrt) == Jitters(Available(bs), sqrt) + [JitterOf(b.window, sqrt)];
    } else {
      assert Available(bs + [b]) == Available(bs);
    }
  }

  // ---------- Agreement with the selection ----------

  predicate DistinctAddresses(bs: seq<State>) {
    forall i, j :: 0 <= i < j < |bs| ==> bs[i].addr != bs[j].addr
  }

  /** The first available backend of maximal displayed score. */
  predicate IsFirstBestDisplayed(x: Snapshot, i: nat) {
    && i < |x.bs| && IsAvailable(x.bs[i])
    && forall j :: 0 <= j < |x.bs| && IsAvailable(x.bs[j]) ==>
         Displayed(x, j) <= Displayed(x, i) && (j < i ==> Displayed(x, j) < Displayed(x, i))
  }

  /** With distinct addresses every backend is shown with the score the strategy computes for it (0 plus the
      history term for one that is down), so the selection is what an operator would read off the display. */
  lemma DisplayAgreesWithSelection(x: Snapshot, i: nat)
    requires DistinctAddresses(x.bs) && i < |x.bs|
    ensures Displayed(x, i) == TotalScore(x, x.bs[i])
    ensures IsFirstBestDisplayed(x, i) <==> IsChoice(x, i)
  {
    forall j: nat | j < |x.bs| ensures Displayed(x, j) == TotalScore(x, x.bs[j]) {
      var f := FirstWith(x.bs, x.bs[j].addr);
      assert f == j;
    }
  }

  // ---------- Full backends on the display ----------

  /** A backend with a cap of one that has had a single dial, which took `ms` milliseconds and is still connected. */
  function Full(addr: string, ms: int): State {
    Fresh(addr, 1, 8).(window := [ms], conns := 1, players := {"player"})
  }

  lemma FullReached(addr: string, ns: nat)
    ensures Run(Setup(3, 3, addr, 1, 8), [DialSelect, DialEnd(ns, Some("player"))]).b == Full(addr, Milliseconds(ns))
  {
    var u, es := Setup(3, 3, addr, 1, 8), [DialSelect, DialEnd(ns, Some("player"))];
    assert es[..1] == [DialSelect] && [DialSelect][..0] == [];
    assert Run(u, [DialSelect]) == Next(u, Run(u, []), DialSelect);
  }

  /** An available backend at 2 milliseconds, which alone makes the minima, and two full ones: one dialled in 1
      millisecond, the other in less. */
  function WithFull(sqrt: real -> real): Snapshot {
    Snapshot([Sampled("a", 2), Full("b", 1), Full("c", 0)], None, 0, sqrt)
  }

  lemma OnlyFirstAvailable(a: State, b: State, c: State)
    requires IsAvailable(a) && !IsAvailable(b) && !IsAvailable(c)
    ensures Available([a, b, c]) == [a]
  {
    AvailableSnoc([], a);
    AvailableSnoc([a], b);
    AvailableSnoc([a, b], c);
    assert [] + [a] == [a] && [a] + [b] == [a, b] && [a, b] + [c] == [a, b, c];
  }

  lemma LeastOfOne(value: real)
    ensures LeastPositive([value]) == if value > 0.0 then value else -1.0
  {
    LeastSnoc([], value);
    assert [] + [value] == [value];
  }

  lemma MinimaIgnoreFull(sqrt: real -> real)
    ensures MinLatency(WithFull(sqrt)) == 2.0 && MinJitter(WithFull(sqrt)) == 1.0
  {
    var x := WithFull(sqrt);
    OneSample("a", 2, sqrt);
    OnlyFirstAvailable(x.bs[0], x.bs[1], x.bs[2]);
    assert Averages([x.bs[0]]) == [2.0] && Jitters([x.bs[0]], sqrt) == [0.0];
    LeastOfOne(2.0);
    LeastOfOne(0.0);
  }

  /** The display can put a worse backend above a better one, because a full backend can be better than the minima:
      the faster of the two is no worse in any respect, and is shown with less, because its latency of 0 is taken for
      unmeasured. */
  lemma FullBackendShownAboveBetter(sqrt: real -> real)
    ensures var x := WithFull(sqrt);
            && NoWorse(MetricsOf(x.bs[2], sqrt), MetricsOf(x.bs[1], sqrt))
            && Mean(x.bs[2].window) < Mean(x.bs[1].window)
            && !FairlyCompared(Mean(x.bs[2].window), Mean(x.bs[1].window), MinLatency(x))
            && Displayed(x, 2) == 80 && Displayed(x, 1) == 100
  {
    var x := WithFull(sqrt);
    MinimaIgnoreFull(sqrt);
    OneSample("b", 1, sqrt);
    OneSample("c", 0, sqrt);
    assert x.bs[1].window == Sampled("b", 1).window && x.bs[2].window == Sampled("c", 0).window;
    DisplayAgreesWithSelection(x, 1);
    DisplayAgreesWithSelection(x, 2);
    FullScores(MetricsOf(x.bs[1], sqrt), MetricsOf(x.bs[2], sqrt));
  }

  lemma FullScores(slower: Metrics, faster: Metrics)
    requires slower == Metrics(1.0, 0.0, 1, 1, 0, 0.0, 100)
    requires faster == Metrics(0.0, 0.0, 1, 1, 0, 0.0, 100)
    ensures ScoreOf(slower, 2.0, 1.0) == 100 && ScoreOf(faster, 2.0, 1.0) == 80
  {
    assert LoadRatio(slower) == 1.0;
    assert RawScore(slower, 2.0, 1.0) == 120.0 && RawScore(faster, 2.0, 1.0) == 80.0;
    Associate(120.0, 1.0, 1.0);
    Associate(80.0, 1.0, 1.0);
  }
}
