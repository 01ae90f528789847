/** Dialling, closing, checking and switching backends (internal/loadbalancer/server_info.go,
    loadbalancer.go). Each method is one step of `BackendModel`. */
module LoadBalancer {
  import opened Wrappers
  import opened RealMath
  import opened Stats
  import opened BackendModel
  import opened BackendClass
  import opened HistoryModel
  import opened HistoryClass
  import HistoryRuns
  import Score
  import opened Strategy

  // ---------- Dial ----------

  datatype Kind = RoundRobinKind | LeastConnectionsKind | HealthScoreKind | SequentialKind | RandomKind

  /** GetStrategy: an unknown name means health-score. */
  function KindOf(name: string): Kind {
    if name == "round-robin" then RoundRobinKind
    else if name == "least-connections" then LeastConnectionsKind
    else if name == "sequential" then SequentialKind
    else if name == "random" then RandomKind
    else HealthScoreKind
  }

  /** A connection handed out by Dial, which gives its player back on the first Close only. */
  class TrackedConn {
    const backend: Backend
    const playerName: string
    var closed: bool

    constructor (backend: Backend, playerName: string)
      ensures this.backend == backend && this.playerName == playerName && !closed
    {
      this.backend, this.playerName, closed := backend, playerName, false;
    }

    method Close()
      modifies this, backend`players, backend`currentConns
      ensures closed
      ensures backend.View() == if old(closed) then old(backend.View()) else RemovePlayer(old(backend.View()), playerName)
    {
      if !closed {
        closed := true;
        backend.RemovePlayer(playerName);
      }
    }
  }

  class ServerInfo {
    const backends: seq<Backend>
    const kind: Kind
    const tickets: RoundRobin
    const unhealthyAfterFailures: int
    const history: HistoryManager?

    constructor (backends: seq<Backend>, strategy: string, unhealthyAfterFailures: int, history: HistoryManager?)
      ensures this.backends == backends && kind == KindOf(strategy) && fresh(tickets)
      ensures this.unhealthyAfterFailures == unhealthyAfterFailures && this.history == history
    {
      this.backends, kind := backends, KindOf(strategy);
      this.unhealthyAfterFailures, this.history := unhealthyAfterFailures, history;
      tickets := new RoundRobin();
    }

    /** What the strategy of this server chooses when something is available; `ticket` is the next ticket of
        the round robin. */
    ghost predicate Follows(ticket: nat, period: Period, sqrt: real -> real, draw: nat -> Option<nat>, chosen: Backend)
      reads backends, history
    {
      var available := Filtered(backends);
      available != [] &&
      match kind
      case RoundRobinKind => chosen == available[ticket % |available|]
      case LeastConnectionsKind =>
        exists i :: 0 <= i < |backends| && chosen == backends[i] && Score.IsLeastLoaded(Views(backends), i)
      case HealthScoreKind => IsBest(backends, history, period, sqrt, chosen)
      case SequentialKind => chosen == available[0]
      case RandomKind =>
        var k := if draw(|available|).Some? then draw(|available|).value else 0;
        k < |available| && chosen == available[k]
    }

    function NextTicket(): nat
      reads tickets
    {
      (tickets.counter + 1) % COUNTER_RANGE
    }

    /** Whatever the strategy, nothing is selected exactly when nothing is available, and otherwise an
        available backend of this server is. */
    method Select(period: Period, sqrt: real -> real, draw: nat -> Option<nat>) returns (chosen: Backend?)
      requires IsSqrt(sqrt) && forall b :: b in backends ==> Valid(b.View())
      requires forall n: nat :: n > 0 && draw(n).Some? ==> draw(n).value < n
      modifies tickets`counter
      ensures ChoosesAvailable(backends, chosen)
      ensures chosen != null ==> Follows(old(NextTicket()), period, sqrt, draw, chosen)
      ensures tickets.counter == if kind == RoundRobinKind && chosen != null then old(NextTicket()) else old(tickets.counter)
    {
      if kind == RoundRobinKind {
        chosen := tickets.Select(backends);
      } else {
        chosen := SelectWithoutTicket(period, sqrt, draw, NextTicket());
      }
    }

    /** The strategies that keep nothing between selections. */
    method SelectWithoutTicket(period: Period, sqrt: real -> real, draw: nat -> Option<nat>, ghost ticket: nat)
      returns (chosen: Backend?)
      requires kind != RoundRobinKind
      requires IsSqrt(sqrt) && forall b :: b in backends ==> Valid(b.View())
      requires forall n: nat :: n > 0 && draw(n).Some? ==> draw(n).value < n
      ensures ChoosesAvailable(backends, chosen)
      ensures chosen != null ==> Follows(ticket, period, sqrt, draw, chosen)
    {
      match kind {
        case LeastConnectionsKind => chosen := SelectLeastConnections(backends);
        case HealthScoreKind => chosen := SelectHealthScore(backends, history, period, sqrt);
        case SequentialKind => chosen := SelectSequential(backends);
        case RandomKind => chosen := SelectRandom(backends, draw);
      }
      if chosen != null { SomethingFiltered(backends, chosen); }
    }

    /** Selects and dials; `connected` and `latency` are what the network answers, `player` is absent for a
        dial without one. Only the selected backend changes. */
    method Dial(period: Period, sqrt: real -> real, draw: nat -> Option<nat>,
                connected: bool, latency: nat, player: Option<string>)
      returns (chosen: Backend?, conn: TrackedConn?)
      requires IsSqrt(sqrt) && forall b :: b in backends ==> Valid(b.View())
      requires forall n: nat :: n > 0 && draw(n).Some? ==> draw(n).value < n
      modifies backends, tickets`counter
      ensures chosen == null ==> conn == null && forall b :: b in backends ==> !old(IsAvailable(b.View()))
      ensures chosen != null ==>
                && chosen in backends && old(IsAvailable(chosen.View()))
                && old(Follows(NextTicket(), period, sqrt, draw, chosen))
                && (conn != null <==> connected)
                && chosen.View() == if connected
                                    then DialSucceeded(old(chosen.View()), latency, if player.Some? then player.value else "")
                                    else DialFailed(old(chosen.View()), unhealthyAfterFailures, latency)
      ensures conn != null ==> fresh(conn) && conn.backend == chosen && !conn.closed
      ensures conn != null ==> conn.playerName == if player.Some? then player.value else ""
      ensures forall b :: b in backends && b != chosen ==> b.View() == old(b.View())
    {
      conn := null;
      chosen := Select(period, sqrt, draw);
      if chosen == null {
        return;
      }
      if !connected {
        FailDial(chosen, unhealthyAfterFailures, latency);
        return;
      }
      var playerName := "";
      if player.Some? {
        playerName := player.value;
      }
      CompleteDial(chosen, latency, playerName);
      conn := new TrackedConn(chosen, playerName);
    }
  }

  /** What each configured name stands for: the next ticket, the fewest connections, the first available backend, a
      drawn one, and the best score for every other name. */
  lemma StrategyByName(server: ServerInfo, name: string, ticket: nat, period: Period, sqrt: real -> real,
                       draw: nat -> Option<nat>, chosen: Backend)
    requires server.kind == KindOf(name) && server.Follows(ticket, period, sqrt, draw, chosen)
    ensures var available := Filtered(server.backends);
            && available != []
            && (name == "round-robin" ==> chosen == available[ticket % |available|])
            && (name == "least-connections" ==>
                  forall b :: b in server.backends && IsAvailable(b.View()) ==> chosen.currentConns <= b.currentConns)
            && (name == "sequential" ==> chosen == available[0])
            && (name == "random" ==>
                  chosen == available[0] || (draw(|available|).Some? && draw(|available|).value < |available|
                                             && chosen == available[draw(|available|).value]))
            && (name !in {"round-robin", "least-connections", "sequential", "random"} ==>
                  IsBest(server.backends, server.history, period, sqrt, chosen))
  {
    if name == "least-connections" {
      var i :| 0 <= i < |server.backends| && chosen == server.backends[i] && Score.IsLeastLoaded(Views(server.backends), i);
      forall b | b in server.backends && IsAvailable(b.View()) ensures chosen.currentConns <= b.currentConns {
        var j :| 0 <= j < |server.backends| && server.backends[j] == b;
        assert Views(server.backends)[j].conns == b.currentConns;
      }
    }
  }

  method FailDial(backend: Backend, unhealthyAfterFailures: int, latency: nat)
    modifies backend
    ensures backend.View() == DialFailed(old(backend.View()), unhealthyAfterFailures, latency)
  {
    backend.RecordFailure();
    backend.RecordLatency(latency);
    if unhealthyAfterFailures > 0 && backend.failCount >= unhealthyAfterFailures && backend.healthy {
      backend.SetHealthy(false);
      backend.ResetSuccessCount();
    }
  }

  method CompleteDial(backend: Backend, latency: nat, playerName: string)
    modifies backend
    ensures backend.View() == DialSucceeded(old(backend.View()), latency, playerName)
  {
    backend.RecordSuccess();
    backend.RecordLatency(latency);
    backend.AddPlayer(playerName);
  }

  // ---------- Health checks ----------

  /** The state of a checked backend, by the answer of its ping. */
  function Checked(b: State, ping: Option<nat>, unhealthyAfter: int, healthyAfter: int): State {
    match ping
    case None => CheckMissed(b, unhealthyAfter)
    case Some(ns) => CheckPassed(b, healthyAfter, ns)
  }

  /** The sample a check records: the latency of the ping and the jitter of the window that includes it. */
  function HistoryStep(b: State, ping: Option<nat>, period: Period, sqrt: real -> real): Option<HistoryRuns.Step> {
    match ping
    case None => None
    case Some(ns) =>
      Some(HistoryRuns.Record(b.addr, period, Milliseconds(ns) as real, JitterOf(RecordLatency(b, ns).window, sqrt)))
  }

  /** A finished check is the end of a check in the runs of the backend. */
  lemma CheckedIsCheckEnd(u: Setup, s: System, ping: Option<nat>)
    requires s.probing
    ensures Next(u, s, CheckEnd(ping)).b == Checked(s.b, ping, u.unhealthyAfter, u.healthyAfter)
  {
  }

  function HistoryAfter(h: HistoryRuns.Hist, e: Option<HistoryRuns.Step>): HistoryRuns.Hist {
    if e.None? then h else HistoryRuns.Next(h, e.value)
  }

  /** A sample has entered a slot: the latency in whole milliseconds, and the standard deviation of the window. */
  ghost predicate SampleEntered(before: PeriodStats, after: PeriodStats, ns: nat, window: seq<int>) {
    exists ms: nat, jitter: real ::
      && ms * 1_000_000 <= ns < ms * 1_000_000 + 1_000_000
      && jitter >= 0.0 && Square(jitter) == Variance(window)
      && BlendedIn(before, after, ms, jitter)
  }

  /** The first sample is taken as it is; each later one counts for a tenth. */
  predicate BlendedIn(before: PeriodStats, after: PeriodStats, ms: nat, jitter: real) {
    && after.samples == before.samples + 1
    && after.avgLatency == (if before.samples == 0 then ms as real else 0.1 * ms as real + 0.9 * before.avgLatency)
    && after.avgJitter == (if before.samples == 0 then jitter else 0.1 * jitter + 0.9 * before.avgJitter)
  }

  /** A passed check enters its latency and the jitter of the window that includes it into the slot of the backend and
      the period, and into no other; a missed one enters nothing. */
  lemma PassedCheckEntersHistory(h: HistoryRuns.Hist, b: State, ns: nat, period: Period, sqrt: real -> real,
                                 unhealthyAfter: int, healthyAfter: int)
    requires IsSqrt(sqrt)
    ensures var h' := HistoryAfter(h, HistoryStep(b, Some(ns), period, sqrt));
            && SampleEntered(SlotsOf(h.cache, b.addr)[period], SlotsOf(h'.cache, b.addr)[period], ns,
                             Checked(b, Some(ns), unhealthyAfter, healthyAfter).window)
            && forall addr, p: Period :: addr != b.addr || p != period ==>
                 SlotsOf(h'.cache, addr)[p] == SlotsOf(h.cache, addr)[p]
    ensures HistoryAfter(h, HistoryStep(b, None, period, sqrt)) == h
  {
    var w := RecordLatency(b, ns).window;
    JitterIsStandardDeviation(w, sqrt);
    assert BlendedIn(SlotsOf(h.cache, b.addr)[period],
                     SlotsOf(HistoryAfter(h, HistoryStep(b, Some(ns), period, sqrt)).cache, b.addr)[period],
                     Milliseconds(ns), JitterOf(w, sqrt));
  }

  /** What the check loop does once the ping of a backend has answered or failed. */
  method FinishCheck(backend: Backend, ping: Option<nat>, unhealthyAfter: int, healthyAfter: int,
                     history: HistoryManager, hour: nat, minute: nat, sqrt: real -> real)
    requires hour < 24 && minute < 60
    modifies backend, history
    ensures backend.View() == Checked(old(backend.View()), ping, unhealthyAfter, healthyAfter)
    ensures history.View() == HistoryAfter(old(history.View()), HistoryStep(old(backend.View()), ping, PeriodIndex(hour, minute), sqrt))
    ensures ping.Some? && IsSqrt(sqrt) ==>
              var p := PeriodIndex(hour, minute);
              SampleEntered(SlotsOf(old(history.cache), backend.addr)[p], SlotsOf(history.cache, backend.addr)[p],
                            ping.value, backend.latencyWindow)
  {
    ghost var h, b := history.View(), backend.View();
    if ping.Some? && IsSqrt(sqrt) {
      PassedCheckEntersHistory(h, b, ping.value, PeriodIndex(hour, minute), sqrt, unhealthyAfter, healthyAfter);
    }
    match ping {
      case None =>
        backend.RecordHealthCheckFailure();
        if backend.failCount >= unhealthyAfter {
          if backend.healthy {
            backend.SetHealthy(false);
          }
        }
      case Some(latency) =>
        backend.RecordLatency(latency);
        var jitter := backend.Jitter(sqrt);
        history.Record(backend.addr, Milliseconds(latency) as real, jitter, hour, minute);
        PassCheck(backend, healthyAfter);
    }
  }

  method PassCheck(backend: Backend, healthyAfter: int)
    modifies backend
    ensures var b := old(backend.View()).(fails := 0, succs := old(backend.successCount) + 1);
            backend.View() == if b.healthy then IncreaseTrust(b)
                              else if b.succs >= healthyAfter then b.(healthy := true, trust := 50, succs := 0)
                              else b
  {
    var wasUnhealthy := !backend.healthy;
    backend.RecordHealthCheckSuccess();
    if wasUnhealthy {
      if backend.successCount >= healthyAfter {
        backend.SetHealthy(true);
        backend.ResetTrust();
        backend.ResetSuccessCount();
      }
    } else {
      backend.IncreaseTrust();
    }
  }

  datatype Time = Time(hour: nat, minute: nat)

  type TimeOfDay = t: Time | t.hour < 24 && t.minute < 60 witness Time(0, 0)

  /** What a ping answers, and the local time when it has. */
  datatype Answer = Answer(ping: Option<nat>, at: TimeOfDay)

  /** What a backend's part in a round adds to the history: nothing when it is disabled. */
  function HistoryStepAfter(h: HistoryRuns.Hist, b: State, a: Answer, sqrt: real -> real): HistoryRuns.Hist {
    if b.disabled then h else HistoryAfter(h, AnswerStep(b, a, sqrt))
  }

  /** The history after checking the first backends of a list. */
  function HistoryAfterAll(h: HistoryRuns.Hist, bs: seq<State>, answers: seq<Answer>, sqrt: real -> real): HistoryRuns.Hist
    requires |bs| == |answers|
  {
    if bs == [] then h
    else
      var n := |bs| - 1;
      HistoryStepAfter(HistoryAfterAll(h, bs[..n], answers[..n], sqrt), bs[n], answers[n], sqrt)
  }

  function AnswerStep(b: State, a: Answer, sqrt: real -> real): Option<HistoryRuns.Step> {
    HistoryStep(b, a.ping, PeriodIndex(a.at.hour, a.at.minute), sqrt)
  }

  /** What a round records for one slot: of every enabled backend with that address whose ping was answered in that
      period, the latency and the jitter of the window that includes it. */
  function RoundSamples(bs: seq<State>, answers: seq<Answer>, addr: string, period: Period, sqrt: real -> real): seq<(real, real)>
    requires |bs| == |answers|
  {
    if bs == [] then []
    else
      var n := |bs| - 1;
      RoundSamples(bs[..n], answers[..n], addr, period, sqrt) +
      if bs[n].disabled then [] else RoundSamplesOf(bs[n], answers[n], addr, period, sqrt)
  }

  function RoundSamplesOf(b: State, a: Answer, addr: string, period: Period, sqrt: real -> real): seq<(real, real)> {
    if a.ping.Some? && b.addr == addr && PeriodIndex(a.at.hour, a.at.minute) == period then
      var ms := a.ping.value / 1_000_000;
      [(ms as real, JitterOf(Recent(b.window + [ms], b.windowSize), sqrt))]
    else []
  }

  /** The records of a round. */
  function RoundSteps(bs: seq<State>, answers: seq<Answer>, sqrt: real -> real): seq<HistoryRuns.Step>
    requires |bs| == |answers|
  {
    if bs == [] then []
    else
      var n := |bs| - 1;
      RoundSteps(bs[..n], answers[..n], sqrt) +
      if bs[n].disabled || answers[n].ping.None? then [] else [AnswerStep(bs[n], answers[n], sqrt).value]
  }

  /** A round takes the history of a run to that of a longer one, */
  lemma {:induction false} RoundIsRun(table: Table, es: seq<HistoryRuns.Step>, bs: seq<State>, answers: seq<Answer>, sqrt: real -> real)
    requires |bs| == |answers|
    ensures HistoryAfterAll(HistoryRuns.Run(table, es), bs, answers, sqrt)
         == HistoryRuns.Run(table, es + RoundSteps(bs, answers, sqrt))
  {
    var steps := RoundSteps(bs, answers, sqrt);
    if bs == [] {
      assert es + steps == es;
    } else {
      var n := |bs| - 1;
      var before := RoundSteps(bs[..n], answers[..n], sqrt);
      RoundIsRun(table, es, bs[..n], answers[..n], sqrt);
      if bs[n].disabled || answers[n].ping.None? {
        assert steps == before;
      } else {
        var e := AnswerStep(bs[n], answers[n], sqrt).value;
        HistoryRuns.RunOneMore(table, es + before, e);
        assert es + steps == es + before + [e];
      }
    }
  }

  /** ... whose samples of any slot are the earlier ones and those of the round, in order. */
  lemma {:induction false} RoundEntersSamples(es: seq<HistoryRuns.Step>, bs: seq<State>, answers: seq<Answer>,
                                              addr: string, period: Period, sqrt: real -> real)
    requires |bs| == |answers| && forall i :: 0 <= i < |bs| ==> Valid(bs[i])
    ensures HistoryRuns.SlotSamples(es + RoundSteps(bs, answers, sqrt), addr, period)
         == HistoryRuns.SlotSamples(es, addr, period) + RoundSamples(bs, answers, addr, period, sqrt)
  {
    var steps := RoundSteps(bs, answers, sqrt);
    if bs == [] {
      assert es + steps == es;
    } else {
      var n := |bs| - 1;
      var before := RoundSteps(bs[..n], answers[..n], sqrt);
      RoundEntersSamples(es, bs[..n], answers[..n], addr, period, sqrt);
      if bs[n].disabled || answers[n].ping.None? {
        assert steps == before;
      } else {
        assert es + steps == es + before + [AnswerStep(bs[n], answers[n], sqrt).value];
        AnswerEntersSample(es + before, bs[n], answers[n], addr, period, sqrt);
      }
    }
  }

  lemma AnswerEntersSample(es: seq<HistoryRuns.Step>, b: State, a: Answer, addr: string, period: Period, sqrt: real -> real)
    requires Valid(b) && a.ping.Some?
    ensures HistoryRuns.SlotSamples(es + [AnswerStep(b, a, sqrt).value], addr, period)
         == HistoryRuns.SlotSamples(es, addr, period) + RoundSamplesOf(b, a, addr, period, sqrt)
  {
    var e := AnswerStep(b, a, sqrt).value;
    assert (es + [e])[..|es|] == es;
    PushIsRecent(b.window, b.windowSize, a.ping.value / 1_000_000);
  }

  lemma PushIsRecent(window: seq<int>, windowSize: pos, ms: int)
    requires |window| <= windowSize
    ensures Push(window, windowSize, ms) == Recent(window + [ms], windowSize)
  {
  }

  lemma HistoryAfterOneMore(h: HistoryRuns.Hist, bs: seq<State>, answers: seq<Answer>, k: nat, sqrt: real -> real)
    requires k < |bs| == |answers|
    ensures HistoryAfterAll(h, bs[..k + 1], answers[..k + 1], sqrt)
         == HistoryStepAfter(HistoryAfterAll(h, bs[..k], answers[..k], sqrt), bs[k], answers[k], sqrt)
  {
    assert bs[..k + 1][..k] == bs[..k] && answers[..k + 1][..k] == answers[..k];
  }

  /** What a round makes of a backend. */
  function AfterRound(b: State, a: Answer, unhealthyAfter: int, healthyAfter: int): State {
    if b.disabled then b else Checked(b, a.ping, unhealthyAfter, healthyAfter)
  }

  /** In the runs of a backend its part in a round is the start and the end of a check; a disabled one has none. */
  lemma RoundIsCheck(u: Setup, s: System, a: Answer)
    ensures AfterRound(s.b, a, u.unhealthyAfter, u.healthyAfter)
         == if s.b.disabled then s.b else Next(u, Next(u, s, CheckStart), CheckEnd(a.ping)).b
  {
  }

  function AllAfterRound(bs: seq<State>, answers: seq<Answer>, unhealthyAfter: int, healthyAfter: int): (r: seq<State>)
    requires |bs| == |answers|
    ensures |r| == |bs|
    ensures forall i :: 0 <= i < |bs| ==> r[i] == AfterRound(bs[i], answers[i], unhealthyAfter, healthyAfter)
  {
    if bs == [] then []
    else
      var n := |bs| - 1;
      AllAfterRound(bs[..n], answers[..n], unhealthyAfter, healthyAfter)
      + [AfterRound(bs[n], answers[n], unhealthyAfter, healthyAfter)]
  }

  /** One backend's part in a round. */
  method CheckBackend(backend: Backend, a: Answer, unhealthyAfter: int, healthyAfter: int,
                      history: HistoryManager, sqrt: real -> real, ghost after: State)
    requires after == AfterRound(backend.View(), a, unhealthyAfter, healthyAfter)
    modifies backend, history
    ensures backend.View() == after
    ensures history.View() == HistoryStepAfter(old(history.View()), old(backend.View()), a, sqrt)
  {
    if !backend.disabled {
      FinishCheck(backend, a.ping, unhealthyAfter, healthyAfter, history, a.at.hour, a.at.minute, sqrt);
    }
  }

  /** One round over the backends of all servers: every backend that is not disabled is checked once, the others are
      left alone, and the history hears of the passed checks in order, each in the period of its own time. */
  method CheckAllBackends(backends: seq<Backend>, answers: seq<Answer>, unhealthyAfter: int, healthyAfter: int,
                          history: HistoryManager, sqrt: real -> real)
    requires |answers| == |backends|
    requires forall i, j :: 0 <= i < j < |backends| ==> backends[i] != backends[j]
    modifies backends, history
    ensures forall i :: 0 <= i < |backends| ==>
              backends[i].View() == AfterRound(old(backends[i].View()), answers[i], unhealthyAfter, healthyAfter)
    ensures history.View() == HistoryAfterAll(old(history.View()), old(Views(backends)), answers, sqrt)
  {
    ghost var before, h := Views(backends), history.View();
    ghost var after := AllAfterRound(before, answers, unhealthyAfter, healthyAfter);
    for k := 0 to |backends|
      invariant forall i :: 0 <= i < |backends| ==> backends[i].View() == if i < k then after[i] else before[i]
      invariant history.View() == HistoryAfterAll(h, before[..k], answers[..k], sqrt)
    {
      HistoryAfterOneMore(h, before, answers, k, sqrt);
      CheckBackend(backends[k], answers[k], unhealthyAfter, healthyAfter, history, sqrt, after[k]);
    }
    assert before[..|backends|] == before && answers[..|backends|] == answers;
  }

  // ---------- Enabling and disabling ----------

  /** DisableBackend and EnableBackend: switches the first backend of the server with that address. */
  method SwitchBackend(servers: map<string, ServerInfo>, serverName: string, backendAddr: string, disabled: bool)
    returns (found: bool, ghost k: nat)
    modifies if serverName in servers then (set b | b in servers[serverName].backends) else {}
    ensures found <==> serverName in servers && exists b :: b in servers[serverName].backends && b.addr == backendAddr
    ensures found ==> var backends := servers[serverName].backends;
                      && k < |backends| && backends[k].addr == backendAddr
                      && (forall j :: 0 <= j < k ==> backends[j].addr != backendAddr)
                      && backends[k].View() == old(backends[k].View()).(disabled := disabled)
    ensures serverName in servers ==>
              forall b :: b in servers[serverName].backends ==>
                (found && b == servers[serverName].backends[k]) || b.View() == old(b.View())
  {
    k := 0;
    if serverName !in servers {
      return false, 0;
    }
    var backends := servers[serverName].backends;
    for i := 0 to |backends|
      invariant forall j :: 0 <= j < i ==> backends[j].addr != backendAddr
      invariant forall b :: b in backends ==> b.View() == old(b.View())
    {
      if backends[i].addr == backendAddr {
        backends[i].SetDisabled(disabled);
        return true, i;
      }
    }
    return false, 0;
  }
}
