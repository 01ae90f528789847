/** The five selection strategies (internal/loadbalancer/strategy.go), each on one snapshot. */
module Strategy {
  import opened Wrappers
  import opened Stats
  import opened BackendModel
  import opened BackendClass
  import opened HistoryModel
  import opened HistoryClass
  import opened Score

  // ---------- Filtering ----------

  /** The available backends of the list, in order. */
  ghost function Filtered(backends: seq<Backend>): seq<Backend>
    reads backends
  {
    if backends == [] then []
    else
      var last := backends[|backends| - 1];
      Filtered(backends[..|backends| - 1]) + if IsAvailable(last.View()) then [last] else []
  }

  method FilterAvailable(backends: seq<Backend>) returns (result: seq<Backend>)
    ensures result == Filtered(backends)
  {
    result := [];
    for i := 0 to |backends|
      invariant result == Filtered(backends[..i])
    {
      assert backends[..i + 1][..i] == backends[..i];
      var available := backends[i].IsAvailable();
      if available {
        result := result + [backends[i]];
      }
    }
    assert backends[..|backends|] == backends;
  }

  lemma {:induction false} FilteredMembers(backends: seq<Backend>)
    ensures forall b :: b in Filtered(backends) ==> b in backends && IsAvailable(b.View())
    ensures forall b :: b in backends && IsAvailable(b.View()) ==> b in Filtered(backends)
  {
    if backends != [] { FilteredMembers(backends[..|backends| - 1]); }
  }

  lemma FilteredSnoc(backends: seq<Backend>, b: Backend)
    ensures Filtered(backends + [b]) == Filtered(backends) + if IsAvailable(b.View()) then [b] else []
  {
    assert (backends + [b])[..|backends|] == backends;
  }

  lemma ViewsSnoc(backends: seq<Backend>, b: Backend)
    ensures Views(backends + [b]) == Views(backends) + [b.View()]
  {
    assert (backends + [b])[..|backends|] == backends;
  }

  /** Filtering objects and filtering their values agree. */
  lemma {:induction false} FilteredViews(backends: seq<Backend>)
    ensures Views(Filtered(backends)) == Available(Views(backends))
  {
    if backends != [] {
      var t, b := backends[..|backends| - 1], backends[|backends| - 1];
      FilteredViews(t);
      FilteredViewsSnoc(t, b);
      assert backends == t + [b];
    }
  }

  lemma FilteredViewsSnoc(t: seq<Backend>, b: Backend)
    requires Views(Filtered(t)) == Available(Views(t))
    ensures Views(Filtered(t + [b])) == Available(Views(t + [b]))
  {
    ViewsSnoc(t, b);
    FilteredSnoc(t, b);
    AvailableSnoc(Views(t), b.View());
    if IsAvailable(b.View()) { ViewsSnoc(Filtered(t), b); }
  }

  lemma AvailableSnoc(bs: seq<State>, b: State)
    ensures Available(bs + [b]) == Available(bs) + if IsAvailable(b) then [b] else []
    ensures AvailableAt(bs + [b]) == AvailableAt(bs) + if IsAvailable(b) then [|bs|] else []
  {
    assert (bs + [b])[..|bs|] == bs;
  }

  lemma FilteredLength(backends: seq<Backend>)
    ensures |Filtered(backends)| == |AvailableAt(Views(backends))|
  {
    FilteredViews(backends);
    SameLength(Views(backends));
  }

  /** Where the k-th filtered object stands in the list. */
  lemma {:induction false} FilteredAt(backends: seq<Backend>, k: nat)
    requires k < |Filtered(backends)|
    ensures k < |AvailableAt(Views(backends))|
    ensures var i := AvailableAt(Views(backends))[k];
            i < |backends| && Filtered(backends)[k] == backends[i]
  {
    var t, b := backends[..|backends| - 1], backends[|backends| - 1];
    assert backends == t + [b];
    FilteredLength(t);
    FilteredSnoc(t, b);
    ViewsSnoc(t, b);
    AvailableSnoc(Views(t), b.View());
    if k < |Filtered(t)| { FilteredAt(t, k); }
  }

  /** Nothing is chosen exactly when nothing is available; otherwise an available member of the list is. */
  ghost predicate ChoosesAvailable(backends: seq<Backend>, chosen: Backend?)
    reads backends
  {
    if chosen == null then forall b :: b in backends ==> !IsAvailable(b.View())
    else chosen in backends && IsAvailable(chosen.View())
  }

  /** A filtered object is a choice, and when there is none, so is none. */
  lemma {:induction false} FilteredIsChoice(backends: seq<Backend>, k: nat)
    requires k < |Filtered(backends)|
    ensures ChoosesAvailable(backends, Filtered(backends)[k])
  {
    var t := backends[..|backends| - 1];
    if k < |Filtered(t)| { FilteredIsChoice(t, k); }
  }

  lemma SomethingFiltered(backends: seq<Backend>, chosen: Backend)
    requires ChoosesAvailable(backends, chosen)
    ensures Filtered(backends) != []
  {
    FilteredMembers(backends);
  }

  lemma NothingFiltered(backends: seq<Backend>)
    requires Filtered(backends) == []
    ensures ChoosesAvailable(backends, null)
  {
    FilteredMembers(backends);
  }

  // ---------- Round robin ----------

  const COUNTER_RANGE: nat := 0x1_0000_0000_0000_0000

  class RoundRobin {
    /** An atomic uint64. */
    var counter: nat

    constructor ()
      ensures counter == 0
    {
      counter := 0;
    }

    /** Takes the next ticket, modulo the number of available backends. */
    method Select(backends: seq<Backend>) returns (chosen: Backend?)
      modifies this`counter
      ensures ChoosesAvailable(backends, chosen)
      ensures chosen == null ==> counter == old(counter)
      ensures chosen != null ==>
                && counter == (old(counter) + 1) % COUNTER_RANGE
                && Filtered(backends) != []
                && chosen == Filtered(backends)[counter % |Filtered(backends)|]
    {
      var available := FilterAvailable(backends);
      FilteredMembers(backends);
      if |available| == 0 {
        return null;
      }
      counter := (counter + 1) % COUNTER_RANGE;
      var idx := counter % |available|;
      chosen := available[idx];
    }
  }

  // ---------- Sequential and random ----------

  /** The head of the filtered list. */
  method SelectSequential(backends: seq<Backend>) returns (chosen: Backend?)
    ensures ChoosesAvailable(backends, chosen)
    ensures chosen != null ==> Filtered(backends) != [] && chosen == Filtered(backends)[0]
  {
    for i := 0 to |backends|
      invariant Filtered(backends[..i]) == []
    {
      assert backends[..i + 1][..i] == backends[..i];
      var available := backends[i].IsAvailable();
      if available {
        FirstFiltered(backends, i);
        return backends[i];
      }
    }
    assert backends[..|backends|] == backends;
    NothingFiltered(backends);
    return null;
  }

  lemma FirstFiltered(backends: seq<Backend>, i: nat)
    requires i < |backends| && Filtered(backends[..i]) == [] && IsAvailable(backends[i].View())
    ensures ChoosesAvailable(backends, backends[i])
    ensures Filtered(backends) != [] && Filtered(backends)[0] == backends[i]
  {
    FirstOfPrefix(backends, i);
    FilteredExtends(backends, i + 1);
    FilteredIsChoice(backends, 0);
  }

  lemma FirstOfPrefix(backends: seq<Backend>, i: nat)
    requires i < |backends| && Filtered(backends[..i]) == [] && IsAvailable(backends[i].View())
    ensures Filtered(backends[..i + 1]) == [backends[i]]
  {
    assert backends[..i + 1] == backends[..i] + [backends[i]];
    FilteredSnoc(backends[..i], backends[i]);
  }

  /** Filtering a prefix gives a prefix of the filtered list. */
  lemma {:induction false} FilteredExtends(backends: seq<Backend>, n: nat)
    requires n <= |backends|
    ensures Filtered(backends[..n]) <= Filtered(backends)
  {
    if n < |backends| {
      var t := backends[..|backends| - 1];
      FilteredExtends(t, n);
      assert t[..n] == backends[..n];
    } else {
      assert backends[..n] == backends;
    }
  }

  /** `draw` is what the random source answers when asked for a number below the given bound; it may fail. */
  method SelectRandom(backends: seq<Backend>, draw: nat -> Option<nat>) returns (chosen: Backend?)
    requires forall n: nat :: n > 0 && draw(n).Some? ==> draw(n).value < n
    ensures ChoosesAvailable(backends, chosen)
    ensures chosen != null ==>
              var n := |Filtered(backends)|;
              n > 0 && chosen == Filtered(backends)[if draw(n).Some? then draw(n).value else 0]
  {
    var available := FilterAvailable(backends);
    FilteredMembers(backends);
    if |available| == 0 {
      return null;
    }
    var n := draw(|available|);
    if n.None? {
      return available[0];
    }
    return available[n.value];
  }

  // ---------- Least connections ----------

  /** The first available backend with the fewest connections. */
  method SelectLeastConnections(backends: seq<Backend>) returns (chosen: Backend?)
    requires forall b :: b in backends ==> Valid(b.View())
    ensures ChoosesAvailable(backends, chosen)
    ensures chosen != null ==>
              exists i :: 0 <= i < |backends| && chosen == backends[i] && IsLeastLoaded(Views(backends), i)
  {
    var available := FilterAvailable(backends);
    FilteredMembers(backends);
    if |available| == 0 {
      return null;
    }
    ghost var k;
    chosen, k := FewestConnections(available);
    LeastLoadedOfFiltered(backends, k);
  }

  /** The loop starts from -1 as "none yet", which is right because no counter is ever negative. */
  method FewestConnections(available: seq<Backend>) returns (chosen: Backend, ghost best: nat)
    requires available != [] && forall b :: b in available ==> b.currentConns >= 0
    ensures chosen in available && forall b :: b in available ==> chosen.currentConns <= b.currentConns
    ensures best < |available| && chosen == available[best]
    ensures forall l :: 0 <= l < |available| ==>
              chosen.currentConns <= available[l].currentConns && (l < best ==> chosen.currentConns < available[l].currentConns)
  {
    chosen := available[0];
    var minConns := -1;
    best := 0;
    for k := 0 to |available|
      invariant if k == 0 then minConns == -1
                else best < k && chosen == available[best] && minConns == chosen.currentConns >= 0
      invariant forall l :: 0 <= l < k ==> minConns <= available[l].currentConns && (l < best ==> minConns < available[l].currentConns)
    {
      var conns := available[k].currentConns;
      if minConns < 0 || conns < minConns {
        minConns := conns;
        chosen := available[k];
        best := k;
      }
    }
  }

  lemma LeastLoadedOfFiltered(backends: seq<Backend>, k: nat)
    requires var available := Filtered(backends);
             k < |available| && forall l :: 0 <= l < |available| ==>
               available[k].currentConns <= available[l].currentConns
               && (l < k ==> available[k].currentConns < available[l].currentConns)
    ensures exists i :: 0 <= i < |backends| && Filtered(backends)[k] == backends[i] && IsLeastLoaded(Views(backends), i)
  {
    var conns := Connections(Available(Views(backends)));
    FilteredViews(backends);
    FilteredAt(backends, k);
    forall l | 0 <= l < |conns| ensures conns[l] == Filtered(backends)[l].currentConns {
      assert Views(Filtered(backends))[l].conns == Filtered(backends)[l].currentConns;
    }
    LeastLoadedOfAvailable(Views(backends), k);
  }

  // ---------- Health score ----------

  ghost function SnapshotOf(backends: seq<Backend>, history: HistoryManager?, period: Period, sqrt: real -> real): Snapshot
    reads backends, history
  {
    Snapshot(Views(backends), if history == null then None else Some(history.cache), period, sqrt)
  }

  /** The first available backend of maximal combined score, which is at least 3. */
  ghost predicate IsBest(backends: seq<Backend>, history: HistoryManager?, period: Period, sqrt: real -> real, chosen: Backend)
    reads backends, history
  {
    exists i :: 0 <= i < |backends| && chosen == backends[i] && IsGoodChoice(SnapshotOf(backends, history, period, sqrt), i)
  }

  predicate IsGoodChoice(x: Snapshot, i: nat) {
    IsChoice(x, i) && TotalScore(x, x.bs[i]) >= 3
  }

  ghost predicate AllValid(backends: seq<Backend>)
    reads backends
  {
    forall b :: b in backends ==> Valid(b.View())
  }

  /** Selects the best backend; nil only when nothing is available, whatever the scores and the history. */
  method SelectHealthScore(backends: seq<Backend>, history: HistoryManager?, period: Period, sqrt: real -> real)
    returns (chosen: Backend?)
    requires IsSqrt(sqrt) && forall b :: b in backends ==> Valid(b.View())
    ensures ChoosesAvailable(backends, chosen)
    ensures chosen != null ==> IsBest(backends, history, period, sqrt, chosen)
  {
    var available := FilterAvailable(backends);
    if |available| == 0 {
      NothingFiltered(backends);
      return null;
    }
    var minLatency, minJitter := Minima(available, sqrt);
    chosen := BestAvailable(backends, available, minLatency, minJitter, history, period, sqrt);
  }

  method BestAvailable(ghost backends: seq<Backend>, available: seq<Backend>, minLatency: real, minJitter: real,
                       history: HistoryManager?, period: Period, sqrt: real -> real)
    returns (chosen: Backend?)
    requires available == Filtered(backends) != [] && AreMinima(available, sqrt, minLatency, minJitter)
    requires IsSqrt(sqrt) && AllValid(backends)
    ensures chosen != null && ChoosesAvailable(backends, chosen) && IsBest(backends, history, period, sqrt, chosen)
  {
    ghost var best;
    chosen, best := FirstBest(available, minLatency, minJitter, history, period, sqrt);
    FirstBestIsBest(backends, available, history, period, sqrt, minLatency, minJitter, chosen, best);
  }

  lemma FirstBestIsBest(backends: seq<Backend>, available: seq<Backend>, history: HistoryManager?, period: Period,
                        sqrt: real -> real, minLatency: real, minJitter: real, chosen: Backend?, best: nat)
    requires available == Filtered(backends) != [] && AreMinima(available, sqrt, minLatency, minJitter)
    requires IsSqrt(sqrt) && AllValid(backends)
    requires chosen != null <==> SomeNonNegative(Scores(available, minLatency, minJitter, history, period, sqrt))
    requires chosen != null ==>
               && best < |available| && chosen == available[best]
               && IsFirstGreatest(Scores(available, minLatency, minJitter, history, period, sqrt), best)
    ensures chosen != null && ChoosesAvailable(backends, chosen) && IsBest(backends, history, period, sqrt, chosen)
  {
    SomeFilteredPositive(backends, available, history, period, sqrt, minLatency, minJitter);
    ChoiceOfFiltered(backends, available, history, period, sqrt, minLatency, minJitter, best);
  }

  /** The combined score of one backend against given minima. */
  ghost function Combined(b: Backend, minLatency: real, minJitter: real, history: HistoryManager?,
                          period: Period, sqrt: real -> real): int
    reads b, history
  {
    RelativeScore(b.View(), sqrt, minLatency, minJitter) +
    if history == null then 0
    else HistoricalScore(history.cache, b.addr, period, Mean(b.latencyWindow), JitterOf(b.latencyWindow, sqrt))
  }

  ghost function Scores(available: seq<Backend>, minLatency: real, minJitter: real, history: HistoryManager?,
                        period: Period, sqrt: real -> real): (r: seq<int>)
    reads available, history
    ensures |r| == |available|
    ensures forall l :: 0 <= l < |r| ==> r[l] == Combined(available[l], minLatency, minJitter, history, period, sqrt)
  {
    if available == [] then []
    else
      var n := |available| - 1;
      Scores(available[..n], minLatency, minJitter, history, period, sqrt)
      + [Combined(available[n], minLatency, minJitter, history, period, sqrt)]
  }

  ghost predicate SomeNonNegative(scores: seq<int>) {
    exists l :: 0 <= l < |scores| && scores[l] >= 0
  }

  /** The first of the given backends with the greatest combined score; nil exactly when every score is negative,
      whatever state the backends are in by now. */
  method FirstBest(available: seq<Backend>, minLatency: real, minJitter: real, history: HistoryManager?,
                   period: Period, sqrt: real -> real)
    returns (chosen: Backend?, ghost best: nat)
    ensures chosen != null <==> SomeNonNegative(Scores(available, minLatency, minJitter, history, period, sqrt))
    ensures chosen != null ==>
              && best < |available| && chosen == available[best]
              && IsFirstGreatest(Scores(available, minLatency, minJitter, history, period, sqrt), best)
  {
    chosen := null;
    var bestScore := -1;
    ghost var scores := Scores(available, minLatency, minJitter, history, period, sqrt);
    best := 0;
    for k := 0 to |available|
      invariant chosen == null ==> bestScore == -1
      invariant chosen != null ==> best < k && chosen == available[best] && bestScore == scores[best] >= 0
      invariant forall l :: 0 <= l < k ==> scores[l] <= bestScore && (chosen != null && l < best ==> scores[l] < bestScore)
    {
      var score := CombinedScore(available[k], minLatency, minJitter, history, period, sqrt);
      if score > bestScore {
        bestScore := score;
        chosen := available[k];
        best := k;
      }
    }
  }

  /** A selection during which the only backend is disabled, after it was filtered and before it is scored: it comes
      back empty exactly when the history adjustment of the backend is negative. */
  method SelectWhileDisabling(b: Backend, history: HistoryManager?, period: Period, sqrt: real -> real)
    returns (chosen: Backend?)
    requires IsAvailable(b.View())
    modifies b`disabled
    ensures chosen == null <==>
              history != null &&
              HistoricalScore(history.cache, b.addr, period, Mean(b.latencyWindow), JitterOf(b.latencyWindow, sqrt)) < 0
  {
    var available := FilterAvailable([b]);
    assert [b][..0] == [];
    assert available == [b];
    b.SetDisabled(true);
    var minLatency, minJitter := Minima(available, sqrt);
    chosen := ScoreDisabled(b, minLatency, minJitter, history, period, sqrt);
  }

  method ScoreDisabled(b: Backend, minLatency: real, minJitter: real, history: HistoryManager?, period: Period, sqrt: real -> real)
    returns (chosen: Backend?)
    requires b.disabled
    ensures chosen == null <==>
              history != null &&
              HistoricalScore(history.cache, b.addr, period, Mean(b.latencyWindow), JitterOf(b.latencyWindow, sqrt)) < 0
  {
    ghost var best;
    OneScore(b, minLatency, minJitter, history, period, sqrt);
    chosen, best := FirstBest([b], minLatency, minJitter, history, period, sqrt);
  }

  lemma OneScore(b: Backend, minLatency: real, minJitter: real, history: HistoryManager?, period: Period, sqrt: real -> real)
    ensures SomeNonNegative(Scores([b], minLatency, minJitter, history, period, sqrt))
            <==> Combined(b, minLatency, minJitter, history, period, sqrt) >= 0
  {
    var scores := Scores([b], minLatency, minJitter, history, period, sqrt);
    assert scores[0] == Combined(b, minLatency, minJitter, history, period, sqrt);
  }

  /** The values that Minima finds. */
  ghost predicate AreMinima(available: seq<Backend>, sqrt: real -> real, minLatency: real, minJitter: real)
    reads available
  {
    && minLatency == OrOne(LeastPositive(Averages(Views(available))))
    && minJitter == OrOne(LeastPositive(Jitters(Views(available), sqrt)))
  }

  lemma CombinedIsTotal(x: Snapshot, history: HistoryManager?, b: Backend)
    requires x.history == if history == null then None else Some(history.cache)
    ensures Combined(b, MinLatency(x), MinJitter(x), history, x.period, x.sqrt) == TotalScore(x, b.View())
  {
  }

  lemma TotalsOfFiltered(backends: seq<Backend>, available: seq<Backend>, history: HistoryManager?, period: Period,
                         sqrt: real -> real, minLatency: real, minJitter: real)
    requires available == Filtered(backends) && AreMinima(available, sqrt, minLatency, minJitter)
    ensures var x := SnapshotOf(backends, history, period, sqrt);
            Totals(x, Available(x.bs)) == Scores(available, minLatency, minJitter, history, period, sqrt)
  {
    var x := SnapshotOf(backends, history, period, sqrt);
    FilteredViews(backends);
    forall l | 0 <= l < |available|
      ensures TotalScore(x, Available(x.bs)[l]) == Combined(available[l], minLatency, minJitter, history, period, sqrt)
    {
      CombinedIsTotal(x, history, available[l]);
    }
  }

  lemma SomeFilteredPositive(backends: seq<Backend>, available: seq<Backend>, history: HistoryManager?, period: Period,
                             sqrt: real -> real, minLatency: real, minJitter: real)
    requires available == Filtered(backends) != [] && AreMinima(available, sqrt, minLatency, minJitter)
    requires IsSqrt(sqrt) && AllValid(backends)
    ensures SomeNonNegative(Scores(available, minLatency, minJitter, history, period, sqrt))
  {
    var x := SnapshotOf(backends, history, period, sqrt);
    TotalsOfFiltered(backends, available, history, period, sqrt, minLatency, minJitter);
    var g := SomeTotalAtLeastThree(x);
    assert Totals(x, Available(x.bs))[g] >= 3;
  }

  lemma ChoiceOfFiltered(backends: seq<Backend>, available: seq<Backend>, history: HistoryManager?, period: Period,
                         sqrt: real -> real, minLatency: real, minJitter: real, k: nat)
    requires available == Filtered(backends) && AreMinima(available, sqrt, minLatency, minJitter)
    requires IsSqrt(sqrt) && AllValid(backends)
    requires IsFirstGreatest(Scores(available, minLatency, minJitter, history, period, sqrt), k)
    ensures ChoosesAvailable(backends, available[k]) && IsBest(backends, history, period, sqrt, available[k])
  {
    FilteredIsChoice(backends, k);
    GreatestAmongAvailable(backends, available, history, period, sqrt, minLatency, minJitter, k);
    ValidViews(backends);
    ChoiceInList(SnapshotOf(backends, history, period, sqrt), k);
    FilteredAt(backends, k);
  }

  lemma ValidViews(backends: seq<Backend>)
    requires AllValid(backends)
    ensures forall i :: 0 <= i < |Views(backends)| ==> Valid(Views(backends)[i])
  {
  }

  lemma GreatestAmongAvailable(backends: seq<Backend>, available: seq<Backend>, history: HistoryManager?, period: Period,
                               sqrt: real -> real, minLatency: real, minJitter: real, k: nat)
    requires available == Filtered(backends) && AreMinima(available, sqrt, minLatency, minJitter)
    requires IsFirstGreatest(Scores(available, minLatency, minJitter, history, period, sqrt), k)
    ensures var x := SnapshotOf(backends, history, period, sqrt);
            IsFirstGreatest(Totals(x, Available(x.bs)), k)
  {
    TotalsOfFiltered(backends, available, history, period, sqrt, minLatency, minJitter);
  }

  /** The first greatest total among the available backends is the choice, and at least 3. */
  lemma ChoiceInList(x: Snapshot, k: nat)
    requires IsFirstGreatest(Totals(x, Available(x.bs)), k)
    requires IsSqrt(x.sqrt) && forall i :: 0 <= i < |x.bs| ==> Valid(x.bs[i])
    ensures k < |AvailableAt(x.bs)|
    ensures var i := AvailableAt(x.bs)[k];
            i < |x.bs| && IsGoodChoice(x, i)
  {
    ChoiceOfAvailable(x, k);
    AvailableElement(x.bs, k);
    var g := SomeTotalAtLeastThree(x);
    assert Totals(x, Available(x.bs))[g] <= Totals(x, Available(x.bs))[k];
  }

  /** The minimum positive latency and jitter of the given backends, 1 where nothing was measured. */
  method Minima(backends: seq<Backend>, sqrt: real -> real) returns (minLatency: real, minJitter: real)
    ensures AreMinima(backends, sqrt, minLatency, minJitter)
  {
    minLatency, minJitter := LeastMeasured(backends, sqrt);
    if minLatency <= 0.0 {
      minLatency := 1.0;
    }
    if minJitter <= 0.0 {
      minJitter := 1.0;
    }
  }

  method LeastMeasured(backends: seq<Backend>, sqrt: real -> real) returns (minLatency: real, minJitter: real)
    ensures minLatency == LeastPositive(Averages(Views(backends)))
    ensures minJitter == LeastPositive(Jitters(Views(backends), sqrt))
  {
    minLatency, minJitter := -1.0, -1.0;
    ghost var avgs, jits := Averages(Views(backends)), Jitters(Views(backends), sqrt);
    for k := 0 to |backends|
      invariant minLatency == LeastPositive(avgs[..k]) && minJitter == LeastPositive(jits[..k])
    {
      LeastPositiveStep(avgs, k);
      LeastPositiveStep(jits, k);
      var lat := backends[k].AvgLatency();
      var jit := backends[k].Jitter(sqrt);
      assert lat == avgs[k] && jit == jits[k];
      if lat > 0.0 && (minLatency < 0.0 || lat < minLatency) {
        minLatency := lat;
      }
      if jit > 0.0 && (minJitter < 0.0 || jit < minJitter) {
        minJitter := jit;
      }
    }
    assert avgs[..|backends|] == avgs && jits[..|backends|] == jits;
  }

  lemma LeastPositiveStep(xs: seq<real>, k: nat)
    requires k < |xs|
    ensures LeastPositive(xs[..k + 1]) == Lesser(LeastPositive(xs[..k]), xs[k])
  {
    assert xs[..k + 1][..k] == xs[..k];
  }

  /** The relative score of one backend plus its history adjustment. */
  method CombinedScore(b: Backend, minLatency: real, minJitter: real, history: HistoryManager?, period: Period, sqrt: real -> real)
    returns (score: int)
    ensures score == Combined(b, minLatency, minJitter, history, period, sqrt)
    ensures -12 <= score <= 112
  {
    score := b.RelativeHealthScore(minLatency, minJitter, sqrt);
    if history != null {
      var avg := b.AvgLatency();
      var jitter := b.Jitter(sqrt);
      var histScore := history.HistoricalScore(b.addr, avg, jitter, period);
      score := score + histScore;
    }
  }
}
