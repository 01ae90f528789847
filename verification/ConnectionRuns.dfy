/** Capacity and connection accounting over whole runs of one backend, with any number of dials in flight
    (internal/loadbalancer/backend.go:272-302, server_info.go:60-122). */
module ConnectionRuns {
  import opened Wrappers
  import opened BackendModel

  // ---------- Capacity ----------

  /** Never more than `k` dials selected and not completed. */
  ghost predicate AtMostInFlight(u: Setup, es: seq<Step>, k: nat) {
    forall j :: 0 <= j <= |es| ==> Run(u, es[..j]).inFlight <= k
  }

  lemma AtMostInFlightPrefix(u: Setup, es: seq<Step>, k: nat)
    requires es != [] && AtMostInFlight(u, es, k)
    ensures AtMostInFlight(u, es[..|es| - 1], k) && Run(u, es).inFlight <= k
  {
    var t := es[..|es| - 1];
    assert es[..|es|] == es;
    forall j | 0 <= j <= |t| ensures Run(u, t[..j]).inFlight <= k { assert t[..j] == es[..j]; }
  }

  /** Selection checks the cap and the connection is counted only when the dial completes, so the cap can be
      overrun, but by at most one less than the number of dials in flight together. */
  lemma {:induction false} CapacityOverrunBound(u: Setup, es: seq<Step>, k: nat)
    requires u.maxConns >= 1 && k >= 1 && AtMostInFlight(u, es, k)
    ensures Run(u, es).b.conns + Run(u, es).inFlight <= u.maxConns - 1 + k
  {
    if es != [] {
      var t := es[..|es| - 1];
      AtMostInFlightPrefix(u, es, k);
      RunsStayValid(u, t);
      CapacityOverrunBound(u, t, k);
      CapacityStep(u, Run(u, t), es[|es| - 1], k);
    }
  }

  lemma CapacityStep(u: Setup, s: System, e: Step, k: nat)
    requires s.b.maxConns == u.maxConns >= 1
    requires s.b.conns + s.inFlight <= u.maxConns - 1 + k
    requires Next(u, s, e).inFlight <= k
    ensures Next(u, s, e).b.conns + Next(u, s, e).inFlight <= u.maxConns - 1 + k
  {
  }

  /** Dials made one at a time never exceed the cap. */
  lemma SerialDialsRespectCap(u: Setup, es: seq<Step>)
    requires u.maxConns >= 1 && AtMostInFlight(u, es, 1)
    ensures Run(u, es).b.conns <= u.maxConns
  {
    CapacityOverrunBound(u, es, 1);
  }

  /** In every reachable state: without a cap, that is with one of zero or less, a backend is available exactly when it
      is healthy and not disabled, however many connections it has; with a cap, it must have fewer than that. */
  lemma AvailabilityOfRuns(u: Setup, es: seq<Step>)
    ensures var b := Run(u, es).b;
            && (u.maxConns <= 0 ==> (IsAvailable(b) <==> b.healthy && !b.disabled))
            && (u.maxConns >= 1 ==> (IsAvailable(b) <==> b.healthy && !b.disabled && b.conns < u.maxConns))
  {
    RunsStayValid(u, es);
  }

  /** Without a cap, any number of dials can be made one after the other, and a further one is selected. */
  lemma UncappedDialsUnlimited(u: Setup, n: nat)
    requires u.maxConns <= 0
    ensures exists es :: AtMostInFlight(u, es, 1) && Run(u, es).b.conns == n
                      && Run(u, es + [DialSelect]).inFlight == Run(u, es).inFlight + 1
  {
    var es := SerialDials(n);
    SerialDialsFill(u, n);
    forall j | 0 <= j <= |es| ensures Run(u, es[..j]).inFlight <= 1 { SerialPrefix(u, n, j); }
    assert (es + [DialSelect])[..|es|] == es;
  }

  /** `n` dials, each completed before the next is selected. */
  function SerialDials(n: nat): seq<Step> {
    if n == 0 then [] else SerialDials(n - 1) + [DialSelect] + [DialEnd(0, Some("player"))]
  }

  /** The bound is tight: for every cap and every `k` there is a run that reaches it. */
  lemma CapacityOverrunReached(u: Setup, k: nat)
    requires u.maxConns >= 1 && k >= 1
    ensures exists es :: AtMostInFlight(u, es, k)
                      && Run(u, es).b.conns + Run(u, es).inFlight == u.maxConns - 1 + k
  {
    var es := Reaching(u.maxConns, k);
    FillThenSelect(u, k);
    forall j | 0 <= j <= |es| ensures Run(u, es[..j]).inFlight <= k { ReachingPrefix(u, k, j); }
  }

  function Reaching(maxConns: int, k: nat): seq<Step>
    requires maxConns >= 1
  {
    SerialDials(maxConns - 1) + seq(k, _ => DialSelect)
  }

  lemma {:induction false} SerialDialsFill(u: Setup, n: nat)
    requires u.maxConns <= 0 || n < u.maxConns
    ensures var s := Run(u, SerialDials(n));
            s.b.conns == n && s.inFlight == 0 && s.b.maxConns == u.maxConns && IsAvailable(s.b)
  {
    if n > 0 {
      SerialDialsFill(u, n - 1);
      var es := SerialDials(n);
      assert es[..|es| - 1] == SerialDials(n - 1) + [DialSelect];
      assert (SerialDials(n - 1) + [DialSelect])[..|es| - 2] == SerialDials(n - 1);
    }
  }

  lemma {:induction false} FillThenSelect(u: Setup, k: nat)
    requires u.maxConns >= 1
    ensures var s := Run(u, Reaching(u.maxConns, k));
            s.b.conns == u.maxConns - 1 && s.inFlight == k && s.b.maxConns == u.maxConns && IsAvailable(s.b)
  {
    var es := Reaching(u.maxConns, k);
    if k == 0 {
      SerialDialsFill(u, u.maxConns - 1);
      assert es == SerialDials(u.maxConns - 1);
    } else {
      FillThenSelect(u, k - 1);
      assert es[..|es| - 1] == Reaching(u.maxConns, k - 1);
    }
  }

  lemma SerialSlices(n: nat, j: nat)
    requires n > 0 && j <= |SerialDials(n - 1)|
    ensures |SerialDials(n)| == |SerialDials(n - 1)| + 2
    ensures SerialDials(n)[..j] == SerialDials(n - 1)[..j]
    ensures SerialDials(n)[..|SerialDials(n - 1)| + 1] == SerialDials(n - 1) + [DialSelect]
  {
    var p := SerialDials(n - 1);
    assert SerialDials(n) == p + [DialSelect] + [DialEnd(0, Some("player"))];
  }

  lemma {:induction false} SerialPrefix(u: Setup, n: nat, j: nat)
    requires (u.maxConns <= 0 || n < u.maxConns) && j <= |SerialDials(n)|
    ensures Run(u, SerialDials(n)[..j]).inFlight <= 1
  {
    if n == 0 {
      assert SerialDials(0)[..j] == [];
    } else {
      var p := SerialDials(n - 1);
      SerialSlices(n, if j <= |p| then j else 0);
      if j <= |p| {
        SerialPrefix(u, n - 1, j);
      } else if j == |p| + 1 {
        SerialSelected(u, n - 1);
      } else {
        SerialDialsFill(u, n);
        assert SerialDials(n)[..j] == SerialDials(n);
      }
    }
  }

  lemma SerialSelected(u: Setup, n: nat)
    requires u.maxConns <= 0 || n < u.maxConns
    ensures Run(u, SerialDials(n) + [DialSelect]).inFlight <= 1
  {
    SerialDialsFill(u, n);
    assert (SerialDials(n) + [DialSelect])[..|SerialDials(n)|] == SerialDials(n);
  }

  lemma ReachingPrefix(u: Setup, k: nat, j: nat)
    requires u.maxConns >= 1 && k >= 1 && j <= |Reaching(u.maxConns, k)|
    ensures Run(u, Reaching(u.maxConns, k)[..j]).inFlight <= k
  {
    var fill := SerialDials(u.maxConns - 1);
    var es := Reaching(u.maxConns, k);
    if j <= |fill| {
      SerialPrefix(u, u.maxConns - 1, j);
      assert es[..j] == fill[..j];
    } else {
      FillThenSelect(u, j - |fill|);
      assert es[..j] == Reaching(u.maxConns, j - |fill|);
    }
  }

  // ---------- Accounting ----------

  function OpenCount(handed: seq<Conn>): nat {
    if handed == [] then 0
    else OpenCount(handed[..|handed| - 1]) + if handed[|handed| - 1].open then 1 else 0
  }

  /** The names of the open connections. */
  function OpenNames(handed: seq<Conn>): set<string> {
    set i | 0 <= i < |handed| && handed[i].open :: handed[i].player
  }

  /** A first Close that finds the player's name already gone, and so does not lower the counter. */
  predicate LosesCount(s: System, e: Step) {
    e.Close? && e.id < |s.handed| && s.handed[e.id].open && s.handed[e.id].player !in s.b.players
  }

  /** How often that happened in a run. */
  function LostCloses(u: Setup, es: seq<Step>): nat {
    if es == [] then 0
    else LostCloses(u, es[..|es| - 1]) + if LosesCount(Run(u, es[..|es| - 1]), es[|es| - 1]) then 1 else 0
  }

  lemma {:induction false} CountAfterClose(handed: seq<Conn>, id: nat)
    requires id < |handed| && handed[id].open
    ensures OpenCount(handed[id := handed[id].(open := false)]) == OpenCount(handed) - 1
  {
    var t := handed[..|handed| - 1];
    var h' := handed[id := handed[id].(open := false)];
    if id < |t| {
      CountAfterClose(t, id);
      assert h'[..|h'| - 1] == t[id := t[id].(open := false)];
    } else {
      assert h'[..|h'| - 1] == t;
    }
  }

  lemma OpenNamesSnoc(handed: seq<Conn>)
    requires handed != []
    ensures var t, c := handed[..|handed| - 1], handed[|handed| - 1];
            OpenNames(handed) == OpenNames(t) + if c.open then {c.player} else {}
  {
  }

  lemma {:induction false} NamesAtMostOpen(handed: seq<Conn>)
    ensures |OpenNames(handed)| <= OpenCount(handed)
  {
    if handed != [] {
      var t, c := handed[..|handed| - 1], handed[|handed| - 1];
      NamesAtMostOpen(t);
      OpenNamesSnoc(handed);
    }
  }

  lemma SubsetSize(a: set<string>, b: set<string>)
    requires a <= b
    ensures |a| <= |b|
  {
    assert b == a + (b - a);
  }

  /** What a step does to the counter and to the open connections. */
  lemma ConnectionStep(u: Setup, s: System, e: Step)
    ensures var s' := Next(u, s, e);
            s'.b.conns - OpenCount(s'.handed)
            == s.b.conns - OpenCount(s.handed) + if LosesCount(s, e) then 1 else 0
  {
    match e
    case DialEnd(ns, Some(name)) => OneMoreOpen(s.handed, name);
    case Close(id) => CloseCounts(u, s, id);
    case _ =>
  }

  lemma OneMoreOpen(handed: seq<Conn>, name: string)
    ensures OpenCount(handed + [Conn(name, true)]) == OpenCount(handed) + 1
  {
    assert (handed + [Conn(name, true)])[..|handed|] == handed;
  }

  lemma CloseCounts(u: Setup, s: System, id: nat)
    ensures var s' := Next(u, s, Close(id));
            s'.b.conns - OpenCount(s'.handed)
            == s.b.conns - OpenCount(s.handed) + if LosesCount(s, Close(id)) then 1 else 0
  {
    if id < |s.handed| && s.handed[id].open { CountAfterClose(s.handed, id); }
  }

  /** Tracked names belong to open connections, unless a close already took the name away. */
  lemma {:induction false} TrackedNamesAreOpen(u: Setup, es: seq<Step>)
    ensures Run(u, es).b.players <= OpenNames(Run(u, es).handed)
  {
    if es != [] {
      TrackedNamesAreOpen(u, es[..|es| - 1]);
      TrackedStep(u, Run(u, es[..|es| - 1]), es[|es| - 1]);
    }
  }

  lemma TrackedStep(u: Setup, s: System, e: Step)
    requires s.b.players <= OpenNames(s.handed)
    ensures Next(u, s, e).b.players <= OpenNames(Next(u, s, e).handed)
  {
    var s' := Next(u, s, e);
    forall name | name in s'.b.players ensures name in OpenNames(s'.handed) {
      if name in s.b.players {
        var i :| 0 <= i < |s.handed| && s.handed[i].open && s.handed[i].player == name;
        assert s'.handed[i] == s.handed[i];
      } else {
        assert s'.handed[|s.handed|] == Conn(name, true);
      }
    }
  }

  /** The counter is the number of open connections plus the closes it missed, so it never falls below the
      open connections, which never fall below the tracked names. */
  lemma {:induction false} ConnectionAccounting(u: Setup, es: seq<Step>)
    ensures var s := Run(u, es);
            && s.b.conns == OpenCount(s.handed) + LostCloses(u, es)
            && |s.b.players| <= OpenCount(s.handed) <= s.b.conns
  {
    CounterIsOpenPlusLost(u, es);
    TrackedNamesAreOpen(u, es);
    SubsetSize(Run(u, es).b.players, OpenNames(Run(u, es).handed));
    NamesAtMostOpen(Run(u, es).handed);
  }

  lemma {:induction false} CounterIsOpenPlusLost(u: Setup, es: seq<Step>)
    ensures Run(u, es).b.conns == OpenCount(Run(u, es).handed) + LostCloses(u, es)
  {
    if es != [] {
      CounterIsOpenPlusLost(u, es[..|es| - 1]);
      ConnectionStep(u, Run(u, es[..|es| - 1]), es[|es| - 1]);
    }
  }

  // ---------- Distinct names ----------

  predicate DistinctOpen(handed: seq<Conn>) {
    forall i, j :: 0 <= i < j < |handed| && handed[i].open && handed[j].open ==> handed[i].player != handed[j].player
  }

  ghost predicate AlwaysDistinct(u: Setup, es: seq<Step>) {
    forall n :: 0 <= n <= |es| ==> DistinctOpen(Run(u, es[..n]).handed)
  }

  /** As long as no two open connections share a name, the tracked names are exactly those of the open
      connections and all three numbers are equal. */
  lemma DistinctNamesAgree(u: Setup, es: seq<Step>)
    requires AlwaysDistinct(u, es)
    ensures var s := Run(u, es);
            && s.b.players == OpenNames(s.handed)
            && |s.b.players| == OpenCount(s.handed) == s.b.conns
  {
    assert es[..|es|] == es;
    TrackedIsOpenWhenDistinct(u, es);
    CounterIsOpenPlusLost(u, es);
    DistinctNamesCount(Run(u, es).handed);
  }

  lemma {:induction false} TrackedIsOpenWhenDistinct(u: Setup, es: seq<Step>)
    requires AlwaysDistinct(u, es)
    ensures Run(u, es).b.players == OpenNames(Run(u, es).handed) && LostCloses(u, es) == 0
  {
    if es != [] {
      var t := es[..|es| - 1];
      forall n | 0 <= n <= |t| ensures DistinctOpen(Run(u, t[..n]).handed) { assert t[..n] == es[..n]; }
      TrackedIsOpenWhenDistinct(u, t);
      assert es[..|es| - 1] == t;
      DistinctStep(u, Run(u, t), es[|es| - 1]);
    }
  }

  lemma DistinctStep(u: Setup, s: System, e: Step)
    requires s.b.players == OpenNames(s.handed) && DistinctOpen(s.handed)
    ensures Next(u, s, e).b.players == OpenNames(Next(u, s, e).handed) && !LosesCount(s, e)
  {
    TrackedStep(u, s, e);
    match e {
      case DialEnd(ns, Some(name)) =>
        if s.inFlight > 0 {
          assert OpenNames(s.handed + [Conn(name, true)]) <= OpenNames(s.handed) + {name};
        }
      case Close(id) =>
        if id < |s.handed| && s.handed[id].open {
          var c := s.handed[id];
          assert c.player in OpenNames(s.handed);
          assert OpenNames(s.handed[id := c.(open := false)]) <= OpenNames(s.handed) - {c.player};
        }
      case _ =>
    }
  }

  lemma {:induction false} DistinctNamesCount(handed: seq<Conn>)
    requires DistinctOpen(handed)
    ensures |OpenNames(handed)| == OpenCount(handed)
  {
    if handed != [] {
      var t, c := handed[..|handed| - 1], handed[|handed| - 1];
      DistinctNamesCount(t);
      OpenNamesSnoc(handed);
    }
  }

  /** Two open connections under one name are one tracked name. */
  lemma {:induction false} SharedNameCounts(handed: seq<Conn>)
    requires !DistinctOpen(handed)
    ensures |OpenNames(handed)| < OpenCount(handed)
  {
    var t, c := handed[..|handed| - 1], handed[|handed| - 1];
    NamesAtMostOpen(t);
    OpenNamesSnoc(handed);
    if !DistinctOpen(t) {
      SharedNameCounts(t);
    } else {
      assert c.open && c.player in OpenNames(t);
    }
  }

  ghost predicate AlwaysAgree(u: Setup, es: seq<Step>) {
    forall n :: 0 <= n <= |es| ==> Agrees(Run(u, es[..n]))
  }

  /** The counter, the open connections and the tracked names are equally many. */
  predicate Agrees(s: System) { |s.b.players| == OpenCount(s.handed) == s.b.conns }

  /** The three numbers agree all through a run exactly when its open names stay distinct. */
  lemma AgreementIffDistinct(u: Setup, es: seq<Step>)
    ensures AlwaysAgree(u, es) <==> AlwaysDistinct(u, es)
  {
    forall n | 0 <= n <= |es| && !DistinctOpen(Run(u, es[..n]).handed) ensures !Agrees(Run(u, es[..n])) {
      SharedNameCounts(Run(u, es[..n]).handed);
      TrackedNamesAreOpen(u, es[..n]);
      SubsetSize(Run(u, es[..n]).b.players, OpenNames(Run(u, es[..n]).handed));
    }
    if AlwaysDistinct(u, es) {
      forall n | 0 <= n <= |es| ensures Agrees(Run(u, es[..n])) {
        DistinctPrefix(u, es, n);
        DistinctNamesAgree(u, es[..n]);
      }
    }
  }

  lemma DistinctPrefix(u: Setup, es: seq<Step>, n: nat)
    requires n <= |es| && AlwaysDistinct(u, es)
    ensures AlwaysDistinct(u, es[..n])
  {
    forall m | 0 <= m <= n ensures DistinctOpen(Run(u, es[..n][..m]).handed) { assert es[..n][..m] == es[..m]; }
  }

  // ---------- What a shared name costs ----------

  /** Two open connections under one name: after both are closed the counter still stands at one. */
  function SharedName(name: string): seq<Step> {
    [DialSelect, DialSelect, DialEnd(0, Some(name)), DialEnd(0, Some(name)), Close(0), Close(1)]
  }

  lemma SharedNameLeaksCount(u: Setup, name: string)
    ensures var s := Run(u, SharedName(name));
            OpenCount(s.handed) == 0 && s.b.players == {} && s.b.conns == 1
  {
    var c, d := Conn(name, true), Conn(name, false);
    var dials := [DialSelect, DialSelect, DialEnd(0, Some(name)), DialEnd(0, Some(name))];
    SharedNameDialled(u, name);
    RunTwo(u, dials, Close(0), Close(1));
    assert dials + [Close(0), Close(1)] == SharedName(name);
    assert Run(u, SharedName(name)).handed == [d, d] && [d, d][..1] == [d] && OpenCount([d]) == 0;
  }

  lemma SharedNameDialled(u: Setup, name: string)
    ensures var s := Run(u, [DialSelect, DialSelect, DialEnd(0, Some(name)), DialEnd(0, Some(name))]);
            s.handed == [Conn(name, true), Conn(name, true)] && s.b.players == {name} && s.b.conns == 2
  {
    var selected := [DialSelect, DialSelect];
    RunTwo(u, [], DialSelect, DialSelect);
    assert [] + selected == selected;
    RunTwo(u, selected, DialEnd(0, Some(name)), DialEnd(0, Some(name)));
    assert selected + [DialEnd(0, Some(name)), DialEnd(0, Some(name))]
        == [DialSelect, DialSelect, DialEnd(0, Some(name)), DialEnd(0, Some(name))];
  }

  lemma RunTwo(u: Setup, t: seq<Step>, e: Step, f: Step)
    ensures Run(u, t + [e, f]) == Next(u, Next(u, Run(u, t), e), f)
  {
    assert (t + [e, f])[..|t| + 1] == t + [e];
    assert (t + [e])[..|t|] == t;
  }

  /** A missed close is never made up for: once as many were missed as the cap allows connections, the
      backend is never available again, whatever follows. */
  lemma {:induction false} LostClosesAreForGood(u: Setup, es: seq<Step>, more: seq<Step>)
    requires 1 <= u.maxConns <= LostCloses(u, es)
    ensures !IsAvailable(Run(u, es + more).b)
  {
    LostClosesGrow(u, es, more);
    ConnectionAccounting(u, es + more);
    RunsStayValid(u, es + more);
  }

  lemma {:induction false} LostClosesGrow(u: Setup, es: seq<Step>, more: seq<Step>)
    ensures LostCloses(u, es) <= LostCloses(u, es + more)
  {
    if more == [] {
      assert es + more == es;
    } else {
      LostClosesGrow(u, es, more[..|more| - 1]);
      assert (es + more)[..|es + more| - 1] == es + more[..|more| - 1];
    }
  }
}
