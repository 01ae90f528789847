/** The idle shutdown of servers (internal/dynamicserver/manager.go:278-440): idle ticks, commands and timer
    callbacks, each one step, with the clock in milliseconds. */
module IdleModel {
  import opened Wrappers

  datatype Setup = Setup(uuids: map<string, string>, idleSeconds: int)

  /** A ShutdownConfig: the end of the protection period and the auto-shutdown toggle. */
  datatype Config = Config(protectionEnd: int, enabled: bool)

  /** A timer that has neither fired nor been stopped. */
  datatype Timer = Timer(server: string, deadline: int)

  /** `timers` is the manager's map from names to timers; `pending` are the timers of the runtime. */
  datatype State = State(
    now: nat, timers: map<string, nat>, pending: map<nat, Timer>, configs: map<string, Config>, nextId: nat)

  datatype Step =
    | Tick(at: nat, server: string, players: Option<nat>, status: Option<int>) // players is None when not registered
    | SetDelay(at: nat, server: string, seconds: int)
    | ClearProtection(at: nat, server: string)
    | SetEnabled(at: nat, server: string, on: bool)
    | Fire(at: nat, id: nat, players: Option<nat>)
    | Shutdown(at: nat)

  function ConfigOf(s: State, server: string): Config {
    if server in s.configs then s.configs[server] else Config(0, true)
  }

  predicate Protected(s: State, server: string, at: int) { at < ConfigOf(s, server).protectionEnd }

  predicate IsEnabled(s: State, server: string) { ConfigOf(s, server).enabled }

  /** Time does not run backwards, and a timer fires at its deadline or later, unless it was stopped. */
  predicate Possible(s: State, e: Step) {
    s.now <= e.at && (e.Fire? ==> e.id in s.pending && s.pending[e.id].deadline <= e.at)
  }

  /** scheduleShutdown up to the installation of the timer. */
  predicate Schedules(u: Setup, s: State, server: string, status: Option<int>) {
    IsEnabled(s, server) && server in u.uuids && server !in s.timers && status == Some(3)
  }

  function Installed(u: Setup, s: State, server: string, at: nat): State {
    s.(timers := s.timers[server := s.nextId],
       pending := s.pending[s.nextId := Timer(server, at + u.idleSeconds * 1000)],
       nextId := s.nextId + 1)
  }

  function Cancelled(s: State, server: string): State {
    if server in s.timers then s.(timers := s.timers - {server}, pending := s.pending - {s.timers[server]}) else s
  }

  function WithConfig(s: State, server: string, c: Config): State { s.(configs := s.configs[server := c]) }

  /** What a step does at its time; a step that is not possible does nothing, so every sequence is a run. */
  function Next(u: Setup, s: State, e: Step): State {
    if !Possible(s, e) then s else Effect(u, s.(now := e.at), e)
  }

  function Effect(u: Setup, s: State, e: Step): State {
    match e
    case Tick(at, server, players, status) =>
      if Protected(s, server, at) || players.None? then s
      else if players.value > 0 then Cancelled(s, server)
      else if Schedules(u, s, server, status) then Installed(u, s, server, at)
      else s
    case SetDelay(at, server, seconds) =>
      Cancelled(WithConfig(s, server, ConfigOf(s, server).(protectionEnd := at + seconds * 1000)), server)
    case ClearProtection(_, server) =>
      if server in s.configs then WithConfig(s, server, s.configs[server].(protectionEnd := 0)) else s
    case SetEnabled(_, server, on) =>
      if on then WithConfig(s, server, ConfigOf(s, server).(enabled := true))
      else Cancelled(WithConfig(s, server, Config(0, false)), server)
    case Fire(_, id, _) =>
      if id in s.pending then s.(timers := s.timers - {s.pending[id].server}, pending := s.pending - {id}) else s
    case Shutdown(_) => s.(timers := map[], pending := s.pending - s.timers.Values)
  }

  /** The server that a step stops: the callback of its timer runs, and finds it registered and empty. */
  predicate Stops(s: State, e: Step, server: string) {
    Possible(s, e) && e.Fire? && s.pending[e.id].server == server && e.players == Some(0)
  }

  function Run(u: Setup, es: seq<Step>): State {
    if es == [] then State(0, map[], map[], map[], 0) else Next(u, Run(u, es[..|es| - 1]), es[|es| - 1])
  }

  // ---------- The timer map ----------

  /** The map holds exactly the pending timers, each under the name of its server. */
  ghost predicate TimersMatch(s: State) {
    && (forall server :: server in s.timers ==>
          s.timers[server] in s.pending && s.pending[s.timers[server]].server == server)
    && (forall id :: id in s.pending ==>
          id < s.nextId && s.pending[id].server in s.timers && s.timers[s.pending[id].server] == id)
  }

  lemma CancelKeepsMatch(s: State, server: string)
    requires TimersMatch(s)
    ensures TimersMatch(Cancelled(s, server))
  {
  }

  lemma FireKeepsMatch(s: State, id: nat)
    requires TimersMatch(s) && id in s.pending
    ensures TimersMatch(s.(timers := s.timers - {s.pending[id].server}, pending := s.pending - {id}))
  {
  }

  lemma NextKeepsMatch(u: Setup, s: State, e: Step)
    requires TimersMatch(s)
    ensures TimersMatch(Next(u, s, e))
  {
    if Possible(s, e) {
      match e
      case SetDelay(_, server, _) =>
        CancelKeepsMatch(WithConfig(s.(now := e.at), server, Next(u, s, e).configs[server]), server);
      case SetEnabled(_, server, on) =>
        CancelKeepsMatch(WithConfig(s.(now := e.at), server, Next(u, s, e).configs[server]), server);
      case Tick(_, server, _, _) => CancelKeepsMatch(s.(now := e.at), server);
      case Fire(_, id, _) => FireKeepsMatch(s.(now := e.at), id);
      case Shutdown(_) =>
        forall id | id in s.pending ensures id in s.timers.Values {
          assert s.timers[s.pending[id].server] == id;
        }
      case _ =>
    }
  }

  lemma {:induction false} RunsMatch(u: Setup, es: seq<Step>)
    ensures TimersMatch(Run(u, es))
  {
    if es != [] {
      RunsMatch(u, es[..|es| - 1]);
      NextKeepsMatch(u, Run(u, es[..|es| - 1]), es[|es| - 1]);
    }
  }

  /** In every run the timer map equals the set of pending timers. */
  lemma TimerMapIsPendingSet(u: Setup, es: seq<Step>)
    ensures Run(u, es).timers.Values == Run(u, es).pending.Keys
    ensures forall server :: server in Run(u, es).timers ==> Run(u, es).pending[Run(u, es).timers[server]].server == server
  {
    RunsMatch(u, es);
    var s := Run(u, es);
    forall id | id in s.pending ensures id in s.timers.Values { assert s.timers[s.pending[id].server] == id; }
  }

  // ---------- When a timer is pending ----------

  /** A tick that sees the server running and empty, and installs a timer for it. */
  predicate Arms(u: Setup, s: State, e: Step, server: string) {
    && Possible(s, e) && e.Tick? && e.server == server
    && !Protected(s, server, e.at) && e.players == Some(0) && Schedules(u, s, server, e.status)
  }

  /** A step that takes the timer of a server away. */
  predicate Disturbs(s: State, e: Step, server: string) {
    && Possible(s, e)
    && match e
       case Tick(at, name, players, _) =>
         name == server && !Protected(s, server, at) && players.Some? && players.value > 0
       case SetDelay(_, name, _) => name == server
       case ClearProtection(_, _) => false
       case SetEnabled(_, name, on) => name == server && !on
       case Fire(_, id, _) => s.pending[id].server == server
       case Shutdown(_) => true
  }

  lemma TimerStep(u: Setup, s: State, e: Step, server: string)
    requires TimersMatch(s)
    ensures var s' := Next(u, s, e);
            && (server in s'.timers <==> Arms(u, s, e, server) || (server in s.timers && !Disturbs(s, e, server)))
            && (Arms(u, s, e, server) ==> HasTimer(s', server, Timer(server, e.at + u.idleSeconds * 1000)))
            && (server in s.timers && !Disturbs(s, e, server) ==> HasTimer(s', server, s.pending[s.timers[server]]))
  {
    TimerComesAndGoes(u, s, e, server);
    if server in s.timers && !Disturbs(s, e, server) { UndisturbedTimerStays(u, s, e, server); }
  }

  predicate HasTimer(s: State, server: string, timer: Timer) {
    server in s.timers && s.timers[server] in s.pending && s.pending[s.timers[server]] == timer
  }

  lemma TimerComesAndGoes(u: Setup, s: State, e: Step, server: string)
    requires TimersMatch(s)
    ensures server in Next(u, s, e).timers <==> Arms(u, s, e, server) || (server in s.timers && !Disturbs(s, e, server))
  {
    if e.Tick? { TickComesAndGoes(u, s, e, server); } else { OtherComesAndGoes(u, s, e, server); }
  }

  lemma TickComesAndGoes(u: Setup, s: State, e: Step, server: string)
    requires TimersMatch(s) && e.Tick?
    ensures server in Next(u, s, e).timers <==> Arms(u, s, e, server) || (server in s.timers && !Disturbs(s, e, server))
  {
  }

  lemma OtherComesAndGoes(u: Setup, s: State, e: Step, server: string)
    requires TimersMatch(s) && !e.Tick?
    ensures server in Next(u, s, e).timers <==> server in s.timers && !Disturbs(s, e, server)
  {
  }

  lemma UndisturbedTimerStays(u: Setup, s: State, e: Step, server: string)
    requires TimersMatch(s) && server in s.timers && !Disturbs(s, e, server)
    ensures HasTimer(Next(u, s, e), server, s.pending[s.timers[server]])
  {
  }

  predicate ArmsAt(u: Setup, es: seq<Step>, i: nat, server: string)
    requires i < |es|
  {
    Arms(u, Run(u, es[..i]), es[i], server)
  }

  predicate DisturbsAt(u: Setup, es: seq<Step>, j: nat, server: string)
    requires j < |es|
  {
    Disturbs(Run(u, es[..j]), es[j], server)
  }

  /** A timer was installed at step `i` and nothing has disturbed it since. */
  ghost predicate ArmedSince(u: Setup, es: seq<Step>, server: string, i: nat) {
    && i < |es| && ArmsAt(u, es, i, server)
    && forall j :: i < j < |es| ==> !DisturbsAt(u, es, j, server)
  }

  lemma ArmedSincePrefix(u: Setup, es: seq<Step>, server: string, i: nat)
    requires i < |es| - 1
    ensures ArmedSince(u, es, server, i) <==>
            ArmedSince(u, es[..|es| - 1], server, i) && !DisturbsAt(u, es, |es| - 1, server)
  {
    var t := es[..|es| - 1];
    assert forall j :: 0 <= j < |t| ==> t[..j] == es[..j] && t[j] == es[j];
    if ArmedSince(u, t, server, i) && !DisturbsAt(u, es, |es| - 1, server) {
      forall j | i < j < |es| ensures !DisturbsAt(u, es, j, server) {
        if j < |t| { assert !DisturbsAt(u, t, j, server); }
      }
    }
    if ArmedSince(u, es, server, i) {
      forall j | i < j < |t| ensures !DisturbsAt(u, t, j, server) { assert !DisturbsAt(u, es, j, server); }
    }
  }

  /** After any run a server has a timer exactly when some tick armed it and nothing disturbed it since. */
  lemma {:induction false} TimerPendingIff(u: Setup, es: seq<Step>, server: string)
    ensures server in Run(u, es).timers <==> exists i: nat :: ArmedSince(u, es, server, i)
  {
    if es != [] {
      var t, n := es[..|es| - 1], |es| - 1;
      RunsMatch(u, t);
      TimerPendingIff(u, t, server);
      TimerStep(u, Run(u, t), es[n], server);
      if server in Run(u, es).timers {
        if Arms(u, Run(u, t), es[n], server) {
          assert ArmedSince(u, es, server, n);
        } else {
          var i: nat :| ArmedSince(u, t, server, i);
          ArmedSincePrefix(u, es, server, i);
        }
      }
      if i: nat :| ArmedSince(u, es, server, i) {
        if i < n { ArmedSincePrefix(u, es, server, i); }
      }
    }
  }

  /** ... and its deadline is the idle time after that tick. */
  lemma {:induction false} DeadlineIsIdleTimeAfterTick(u: Setup, es: seq<Step>, server: string, i: nat)
    requires ArmedSince(u, es, server, i)
    ensures HasTimer(Run(u, es), server, Timer(server, es[i].at + u.idleSeconds * 1000))
  {
    var t, n := es[..|es| - 1], |es| - 1;
    RunsMatch(u, t);
    if i < n {
      ArmedSincePrefix(u, es, server, i);
      DeadlineIsIdleTimeAfterTick(u, t, server, i);
      DeadlineKept(u, Run(u, t), es[n], server, Timer(server, es[i].at + u.idleSeconds * 1000));
    } else {
      DeadlineSet(u, Run(u, t), es[n], server);
    }
  }

  lemma DeadlineKept(u: Setup, s: State, e: Step, server: string, timer: Timer)
    requires TimersMatch(s) && HasTimer(s, server, timer) && !Disturbs(s, e, server)
    ensures HasTimer(Next(u, s, e), server, timer)
  {
    UndisturbedTimerStays(u, s, e, server);
  }

  lemma DeadlineSet(u: Setup, s: State, e: Step, server: string)
    requires TimersMatch(s) && Arms(u, s, e, server)
    ensures HasTimer(Next(u, s, e), server, Timer(server, e.at + u.idleSeconds * 1000))
  {
    TimerStep(u, s, e, server);
  }

  /** Pending timers belong to servers with a configured instance. */
  lemma {:induction false} PendingTimersKnown(u: Setup, es: seq<Step>, id: nat)
    requires id in Run(u, es).pending
    ensures Run(u, es).pending[id].server in u.uuids
  {
    var server := Run(u, es).pending[id].server;
    RunsMatch(u, es);
    TimerPendingIff(u, es, server);
    var i: nat :| ArmedSince(u, es, server, i);
    assert ArmsAt(u, es, i, server);
  }

  // ---------- What a stop traces back to ----------

  /** Around step `j`, since a tick at time `since`: auto-shutdown is on, no protection reaches past `since`, and
      if the step is a tick that could read the player count of the server, it read 0. */
  predicate QuietAt(u: Setup, es: seq<Step>, j: nat, server: string, since: nat)
    requires j < |es|
  {
    var s, s' := Run(u, es[..j]), Run(u, es[..j + 1]);
    && IsEnabled(s', server) && ConfigOf(s', server).protectionEnd <= since
    && (Possible(s, es[j]) && es[j].Tick? && es[j].server == server && es[j].players.Some? ==> es[j].players.value == 0)
  }

  lemma QuietStep(u: Setup, s: State, e: Step, server: string, since: nat)
    requires since <= s.now && IsEnabled(s, server) && ConfigOf(s, server).protectionEnd <= since
    requires !Disturbs(s, e, server)
    ensures var s' := Next(u, s, e);
            && since <= s'.now && IsEnabled(s', server) && ConfigOf(s', server).protectionEnd <= since
            && (Possible(s, e) && e.Tick? && e.server == server && e.players.Some? ==> e.players.value == 0)
  {
  }

  lemma {:induction false} QuietWhileArmed(u: Setup, es: seq<Step>, server: string, i: nat, j: nat)
    requires ArmedSince(u, es, server, i) && i <= j < |es|
    ensures QuietAt(u, es, j, server, es[i].at) && es[i].at <= Run(u, es[..j + 1]).now
  {
    assert es[..j + 1][..j] == es[..j];
    if i < j {
      QuietWhileArmed(u, es, server, i, j - 1);
      assert !DisturbsAt(u, es, j, server);
      QuietStep(u, Run(u, es[..j]), es[j], server, es[i].at);
    }
  }

  /** Every stop traces back to a tick, at least the idle time earlier, that saw the server running (status 3)
      with no players; from that tick to the stop every tick that could read the player count read 0,
      auto-shutdown stayed on, and no protection was in force. */
  lemma StopTracesBack(u: Setup, es: seq<Step>, e: Step, server: string) returns (i: nat)
    requires Stops(Run(u, es), e, server)
    ensures i < |es| && es[i].Tick? && es[i].server == server
    ensures es[i].players == Some(0) && es[i].status == Some(3) && server in u.uuids
    ensures es[i].at + u.idleSeconds * 1000 <= e.at && e.Fire? && e.players == Some(0)
    ensures forall j :: i <= j < |es| ==> QuietAt(u, es, j, server, es[i].at)
    ensures IsEnabled(Run(u, es), server) && !Protected(Run(u, es), server, e.at)
  {
    RunsMatch(u, es);
    TimerPendingIff(u, es, server);
    i :| ArmedSince(u, es, server, i);
    DeadlineIsIdleTimeAfterTick(u, es, server, i);
    forall j | i <= j < |es| ensures QuietAt(u, es, j, server, es[i].at) { QuietWhileArmed(u, es, server, i, j); }
    QuietWhileArmed(u, es, server, i, |es| - 1);
    assert es[..|es|] == es;
  }

  /** Conversely an armed timer that nothing disturbs stops its server when it fires, if the callback finds the
      server registered and empty. */
  lemma UndisturbedTimerStops(u: Setup, es: seq<Step>, server: string, i: nat, at: nat)
    requires ArmedSince(u, es, server, i)
    requires at >= Run(u, es).now && at >= es[i].at + u.idleSeconds * 1000
    ensures server in Run(u, es).timers
    ensures Stops(Run(u, es), Fire(at, Run(u, es).timers[server], Some(0)), server)
  {
    DeadlineIsIdleTimeAfterTick(u, es, server, i);
  }

  // ---------- What ticks and commands leave behind ----------

  /** A tick leaves a protected or unregistered server as it is, takes the timer of one with players away, and gives an
      empty one a timer at most; it never touches a configuration or another server. */
  lemma TickLeaves(u: Setup, s: State, at: nat, server: string, players: Option<nat>, status: Option<int>)
    requires s.now <= at
    ensures var s' := Next(u, s, Tick(at, server, players, status));
            var protected := server in s.configs && at < s.configs[server].protectionEnd;
            && s'.configs == s.configs && s'.timers - {server} == s.timers - {server}
            && (protected || players.None? || (players == Some(0) && server in s.timers) ==> s' == s.(now := at))
            && (!protected && players.Some? && players.value > 0 ==>
                  s'.timers == s.timers - {server} && s'.nextId == s.nextId)
  {
  }

  /** A delay sets the end of the protection and keeps the switch, which is on where nothing was configured. */
  lemma DelayLeaves(u: Setup, s: State, at: nat, server: string, seconds: int)
    requires s.now <= at
    ensures var s' := Next(u, s, SetDelay(at, server, seconds));
            && s'.configs == s.configs[server := Config(at + seconds * 1000, server in s.configs ==> s.configs[server].enabled)]
            && s'.timers == s.timers - {server}
  {
  }

  /** Clearing ends the protection of a configured server, and touches nothing else. */
  lemma ClearingLeaves(u: Setup, s: State, at: nat, server: string)
    requires s.now <= at
    ensures var s' := Next(u, s, ClearProtection(at, server));
            && s'.timers == s.timers && s'.pending == s.pending
            && s'.configs == if server in s.configs then s.configs[server := Config(0, s.configs[server].enabled)] else s.configs
  {
  }

  /** Switching on keeps the protection and the timers; switching off ends both for the server. */
  lemma SwitchingLeaves(u: Setup, s: State, at: nat, server: string)
    requires s.now <= at
    ensures var s' := Next(u, s, SetEnabled(at, server, true));
            && s'.timers == s.timers && s'.pending == s.pending
            && s'.configs == s.configs[server := Config(if server in s.configs then s.configs[server].protectionEnd else 0, true)]
    ensures var s' := Next(u, s, SetEnabled(at, server, false));
            s'.timers == s.timers - {server} && s'.configs == s.configs[server := Config(0, false)]
  {
  }

  /** After the shutdown of the manager no timer is left, in the map or pending. */
  lemma ShutdownLeavesNoTimer(u: Setup, es: seq<Step>, at: nat)
    requires Run(u, es).now <= at
    ensures var s' := Next(u, Run(u, es), Shutdown(at));
            s'.timers == map[] && s'.pending == map[] && s'.configs == Run(u, es).configs
  {
    TimerMapIsPendingSet(u, es);
  }
}
