/** The idle shutdown with timer callbacks taken apart as well: a timer that has expired can no longer be stopped, its
    callback deletes the entry of its server by name, and stops the server later
    (internal/dynamicserver/manager.go:331-355, 362-371). */
module IdleCallbacks {
  import opened Wrappers
  import opened IdleModel
  import opened IdleSplit

  /** The callback of an expired timer. */
  datatype Callback = Callback(id: nat, server: string, deleted: bool, finished: bool)

  datatype CallbackState = CallbackState(s: SplitState, callbacks: seq<Callback>)

  datatype CallbackStep =
    | Other(e: SplitStep)                            // anything but a callback
    | Expire(at: nat, id: nat)                       // the callback starts
    | DeleteEntry(at: nat, k: nat)                   // it takes the lock and deletes by name
    | Finish(at: nat, k: nat, players: Option<nat>)  // it looks at the players and stops the server, or not

  predicate Enabled(c: CallbackState, e: CallbackStep) {
    match e
    case Other(p) => CanHappen(c.s, p) && !(p.Whole? && p.e.Fire?)
    case Expire(at, id) => Possible(c.s.base, Fire(at, id, None))
    case DeleteEntry(at, k) => c.s.base.now <= at && k < |c.callbacks| && !c.callbacks[k].deleted
    case Finish(at, k, _) =>
      c.s.base.now <= at && k < |c.callbacks| && c.callbacks[k].deleted && !c.callbacks[k].finished
  }

  function WithBase(c: CallbackState, base: State): CallbackState { c.(s := c.s.(base := base)) }

  function CallbackNext(u: Setup, c: CallbackState, e: CallbackStep): CallbackState {
    if !Enabled(c, e) then c
    else
      var base := c.s.base;
      match e
      case Other(p) => c.(s := SplitNext(u, c.s, p))
      case Expire(at, id) =>
        WithBase(c, base.(now := at, pending := base.pending - {id}))
        .(callbacks := c.callbacks + [Callback(id, base.pending[id].server, false, false)])
      case DeleteEntry(at, k) =>
        WithBase(c, base.(now := at, timers := base.timers - {c.callbacks[k].server}))
        .(callbacks := c.callbacks[k := c.callbacks[k].(deleted := true)])
      case Finish(at, k, _) =>
        WithBase(c, base.(now := at)).(callbacks := c.callbacks[k := c.callbacks[k].(finished := true)])
  }

  function CallbackRun(u: Setup, es: seq<CallbackStep>): CallbackState {
    if es == [] then CallbackState(SplitRun(u, []), [])
    else CallbackNext(u, CallbackRun(u, es[..|es| - 1]), es[|es| - 1])
  }

  /** The server is stopped. */
  predicate CallbackStops(c: CallbackState, e: CallbackStep, server: string) {
    Enabled(c, e) && e.Finish? && c.callbacks[e.k].server == server && e.players == Some(0)
  }

  /** A callback whose steps follow each other at once is the callback in one step, and stops the server exactly when
      that does. */
  lemma UnsplitCallbackIsFire(u: Setup, c: CallbackState, at: nat, id: nat, players: Option<nat>, server: string)
    requires Enabled(c, Expire(at, id))
    ensures var k := |c.callbacks|;
            var started := CallbackNext(u, c, Expire(at, id));
            var deleted := CallbackNext(u, started, DeleteEntry(at, k));
            && CallbackNext(u, deleted, Finish(at, k, players)).s == SplitNext(u, c.s, Whole(Fire(at, id, players)))
            && (CallbackStops(deleted, Finish(at, k, players), server)
                <==> SplitStops(c.s, Whole(Fire(at, id, players)), server))
  {
  }

  // ---------- Timers and their callbacks ----------

  predicate CallbackOk(c: CallbackState, k: nat)
    requires k < |c.callbacks|
  {
    c.callbacks[k].id < c.s.base.nextId && c.callbacks[k].id !in c.s.base.pending
  }

  /** Identities are given out once, and a turn under way finds no entry of its server. */
  ghost predicate Inv(c: CallbackState) {
    && (forall id :: id in c.s.base.pending ==> id < c.s.base.nextId)
    && (forall k :: 0 <= k < |c.callbacks| ==> CallbackOk(c, k))
    && (c.s.gap.Some? ==> c.s.gap.value !in c.s.base.timers)
  }

  lemma PendingAfter(u: Setup, s: SplitState, p: SplitStep, id: nat)
    ensures SplitNext(u, s, p).base.nextId >= s.base.nextId
    ensures id in SplitNext(u, s, p).base.pending ==>
              || (id in s.base.pending && SplitNext(u, s, p).base.pending[id] == s.base.pending[id])
              || (id == s.base.nextId < SplitNext(u, s, p).base.nextId && Installs(s, p))
  {
  }

  lemma AddedTimer(u: Setup, s: SplitState, p: SplitStep)
    requires Installs(s, p)
    ensures s.base.nextId in SplitNext(u, s, p).base.pending
    ensures SplitNext(u, s, p).base.pending[s.base.nextId] == Timer(s.gap.value, p.at + u.idleSeconds * 1000)
  {
  }

  lemma GapStaysFree(u: Setup, s: SplitState, p: SplitStep)
    requires s.gap.Some? ==> s.gap.value !in s.base.timers
    ensures var s' := SplitNext(u, s, p);
            s'.gap.Some? ==> s'.gap.value !in s'.base.timers
  {
  }

  lemma NextKeepsInv(u: Setup, c: CallbackState, e: CallbackStep)
    requires Inv(c)
    ensures Inv(CallbackNext(u, c, e))
  {
    var c' := CallbackNext(u, c, e);
    if Enabled(c, e) && e.Other? {
      GapStaysFree(u, c.s, e.e);
      forall id | id in c'.s.base.pending ensures id < c'.s.base.nextId { PendingAfter(u, c.s, e.e, id); }
      forall k | 0 <= k < |c'.callbacks| ensures CallbackOk(c', k) {
        assert CallbackOk(c, k);
        PendingAfter(u, c.s, e.e, c.callbacks[k].id);
      }
    } else {
      forall k | 0 <= k < |c'.callbacks| ensures CallbackOk(c', k) { if k < |c.callbacks| { assert CallbackOk(c, k); } }
    }
  }

  lemma {:induction false} RunsKeepInv(u: Setup, es: seq<CallbackStep>)
    ensures Inv(CallbackRun(u, es))
  {
    if es != [] {
      RunsKeepInv(u, es[..|es| - 1]);
      NextKeepsInv(u, CallbackRun(u, es[..|es| - 1]), es[|es| - 1]);
    }
  }

  /** The timer can still be stopped: it is pending, and the entry of its server. */
  predicate Stoppable(c: CallbackState, server: string, id: nat) {
    id in c.s.base.pending && server in c.s.base.timers && c.s.base.timers[server] == id
  }

  /** The timer was stopped: it is not pending any more, and never expired. */
  ghost predicate Gone(c: CallbackState, id: nat) {
    && id < c.s.base.nextId && id !in c.s.base.pending
    && forall k :: 0 <= k < |c.callbacks| ==> c.callbacks[k].id != id
  }

  lemma GoneStays(u: Setup, c: CallbackState, e: CallbackStep, id: nat)
    requires Gone(c, id)
    ensures Gone(CallbackNext(u, c, e), id)
  {
    if Enabled(c, e) && e.Other? { PendingAfter(u, c.s, e.e, id); }
  }

  lemma {:induction false} GoneForGood(u: Setup, es: seq<CallbackStep>, j: nat, id: nat)
    requires j <= |es| && Gone(CallbackRun(u, es[..j]), id)
    ensures Gone(CallbackRun(u, es), id)
  {
    if j == |es| {
      assert es[..j] == es;
    } else {
      assert es[..|es| - 1][..j] == es[..j];
      GoneForGood(u, es[..|es| - 1], j, id);
      GoneStays(u, CallbackRun(u, es[..|es| - 1]), es[|es| - 1], id);
    }
  }

  // ---------- Commands ----------

  predicate CommandCauses(c: CallbackState, e: CallbackStep, server: string, f: Fault) {
    e.Other? && Enabled(c, e) && Causes(c.s, e.e, server, f)
  }

  predicate CommandOverwrites(c: CallbackState, e: CallbackStep, server: string, f: Fault) {
    e.Other? && Enabled(c, e) && Overwrites(c.s, e.e, server, f)
  }

  lemma FaultAfter(u: Setup, c: CallbackState, e: CallbackStep, server: string, f: Fault)
    ensures Has(CallbackNext(u, c, e).s.base, server, f) <==>
            CommandCauses(c, e, server, f) || (Has(c.s.base, server, f) && !CommandOverwrites(c, e, server, f))
  {
    if Enabled(c, e) && e.Other? { FaultStep(u, c.s, e.e, server, f); }
  }

  lemma NoCallbackYet(c: CallbackState, id: nat)
    requires Inv(c) && id in c.s.base.pending
    ensures id < c.s.base.nextId && forall k :: 0 <= k < |c.callbacks| ==> c.callbacks[k].id != id
  {
    forall k | 0 <= k < |c.callbacks| ensures c.callbacks[k].id != id { assert CallbackOk(c, k); }
  }

  /** A command that brings a fault about stops the timer, if it still can. */
  lemma CommandStopsTimer(u: Setup, c: CallbackState, e: CallbackStep, server: string, id: nat, f: Fault)
    requires Inv(c) && Stoppable(c, server, id) && CommandCauses(c, e, server, f)
    ensures Gone(CallbackNext(u, c, e), id)
  {
    NoCallbackYet(c, id);
  }

  /** Whatever is not a callback leaves the timer as it is or stops it. */
  lemma OtherStopsOrKeeps(u: Setup, c: CallbackState, p: SplitStep, server: string, id: nat)
    requires Inv(c) && Stoppable(c, server, id)
    ensures var c' := CallbackNext(u, c, Other(p));
            Stoppable(c', server, id) || id !in c'.s.base.pending
  {
  }

  /** How a timer that is not stopped becomes unstoppable: it expires, or the callback of an older timer deletes the
      entry, which by now is that of the newer one. */
  lemma BecomesUnstoppable(u: Setup, c: CallbackState, e: CallbackStep, server: string, id: nat)
    requires Inv(c) && Stoppable(c, server, id)
    requires !Stoppable(CallbackNext(u, c, e), server, id) && !Gone(CallbackNext(u, c, e), id)
    ensures || (e.Expire? && e.id == id)
            || (e.DeleteEntry? && e.k < |c.callbacks| && c.callbacks[e.k].server == server && c.callbacks[e.k].id != id)
  {
    NoCallbackYet(c, id);
    if e.Other? {
      OtherStopsOrKeeps(u, c, e.e, server, id);
      if Enabled(c, e) { PendingAfter(u, c.s, e.e, id); }
    }
  }

  // ---------- Which turn armed a timer ----------

  predicate TurnOpens(u: Setup, c: CallbackState, e: CallbackStep, server: string) {
    e.Other? && Enabled(c, e) && Opens(u, c.s, e.e, server)
  }

  predicate TurnInstalls(c: CallbackState, e: CallbackStep) { e.Other? && Enabled(c, e) && Installs(c.s, e.e) }

  /** The check at position `i` opened the turn of the server, and no timer has been installed since. */
  predicate TurnOpenSince(u: Setup, es: seq<CallbackStep>, server: string, i: nat) {
    i < |es| && es[i].Other? && es[i].e.Check? &&
    var t, c, e := es[..|es| - 1], CallbackRun(u, es[..|es| - 1]), es[|es| - 1];
    if i == |es| - 1 then TurnOpens(u, c, e, server) else TurnOpenSince(u, t, server, i) && !TurnInstalls(c, e)
  }

  /** The timer `id` of the server was installed at position `k`, in the turn that its check at `i` opened. */
  predicate TimerFrom(u: Setup, es: seq<CallbackStep>, server: string, id: nat, i: nat, k: nat) {
    k < |es| && es[k].Other? && es[k].e.Install? &&
    var t, c, e := es[..|es| - 1], CallbackRun(u, es[..|es| - 1]), es[|es| - 1];
    if k == |es| - 1 then TurnOpenSince(u, t, server, i) && TurnInstalls(c, e) && id == c.s.base.nextId
    else TimerFrom(u, t, server, id, i, k)
  }

  lemma {:induction false} OpenTurnFound(u: Setup, es: seq<CallbackStep>, server: string) returns (i: nat)
    requires CallbackRun(u, es).s.gap == Some(server)
    ensures TurnOpenSince(u, es, server, i)
  {
    var t, n := es[..|es| - 1], |es| - 1;
    if TurnOpens(u, CallbackRun(u, t), es[n], server) {
      i := n;
    } else {
      i := OpenTurnFound(u, t, server);
    }
  }

  /** Every pending timer has a turn that installed it, and is due the idle time after that. */
  lemma {:induction false} PendingTimerFrom(u: Setup, es: seq<CallbackStep>, id: nat) returns (i: nat, k: nat)
    requires id in CallbackRun(u, es).s.base.pending
    ensures var timer := CallbackRun(u, es).s.base.pending[id];
            && TimerFrom(u, es, timer.server, id, i, k)
            && timer.deadline == es[k].e.at + u.idleSeconds * 1000
  {
    var t, n := es[..|es| - 1], |es| - 1;
    var c, e := CallbackRun(u, t), es[n];
    if TurnInstalls(c, e) && id == c.s.base.nextId {
      AddedTimer(u, c.s, e.e);
      i := OpenTurnFound(u, t, c.s.gap.value);
      k := n;
    } else {
      if e.Other? { PendingAfter(u, c.s, e.e, id); }
      i, k := PendingTimerFrom(u, t, id);
    }
  }

  /** ... and so has every timer that has expired, no earlier than that. */
  lemma {:induction false} ExpiredTimerFrom(u: Setup, es: seq<CallbackStep>, j: nat) returns (i: nat, k: nat)
    requires j < |CallbackRun(u, es).callbacks|
    ensures var callback := CallbackRun(u, es).callbacks[j];
            && TimerFrom(u, es, callback.server, callback.id, i, k)
            && es[k].e.at + u.idleSeconds * 1000 <= CallbackRun(u, es).s.base.now
  {
    var t, n := es[..|es| - 1], |es| - 1;
    var c, e := CallbackRun(u, t), es[n];
    NowGrows(u, c, e);
    if j < |c.callbacks| {
      i, k := ExpiredTimerFrom(u, t, j);
    } else {
      i, k := PendingTimerFrom(u, t, e.id);
    }
  }

  lemma NowGrows(u: Setup, c: CallbackState, e: CallbackStep)
    ensures c.s.base.now <= CallbackNext(u, c, e).s.base.now
    ensures TurnOpens(u, c, e, if e.Other? && e.e.Check? then e.e.server else "") ==> CallbackNext(u, c, e).s.base.now == e.e.at
  {
  }

  lemma {:induction false} CheckedAt(u: Setup, es: seq<CallbackStep>, server: string, i: nat)
    requires TurnOpenSince(u, es, server, i)
    ensures TurnOpens(u, CallbackRun(u, es[..i]), es[i], server) && es[i].e.at <= CallbackRun(u, es).s.base.now
  {
    var t, n := es[..|es| - 1], |es| - 1;
    NowGrows(u, CallbackRun(u, t), es[n]);
    if i < n {
      CheckedAt(u, t, server, i);
      assert t[..i] == es[..i];
    }
  }

  lemma {:induction false} TimerFromFacts(u: Setup, es: seq<CallbackStep>, server: string, id: nat, i: nat, k: nat)
    requires TimerFrom(u, es, server, id, i, k)
    ensures i < k && es[i].Other? && es[i].e.Check? && TurnOpens(u, CallbackRun(u, es[..i]), es[i], server)
    ensures es[i].e.at <= es[k].e.at <= CallbackRun(u, es).s.base.now
  {
    var t, n := es[..|es| - 1], |es| - 1;
    NowGrows(u, CallbackRun(u, t), es[n]);
    if k < n {
      TimerFromFacts(u, t, server, id, i, k);
    } else {
      CheckedAt(u, t, server, i);
    }
    assert t[..i] == es[..i];
  }

  // ---------- Commands that stand ----------

  /** The command at position `j` brought the fault about, and no later command has overwritten it. */
  predicate CommandStandsAt(u: Setup, es: seq<CallbackStep>, j: nat, server: string, f: Fault) {
    j < |es| &&
    var c, e := CallbackRun(u, es[..|es| - 1]), es[|es| - 1];
    if j == |es| - 1 then CommandCauses(c, e, server, f)
    else CommandStandsAt(u, es[..|es| - 1], j, server, f) && !CommandOverwrites(c, e, server, f)
  }

  /** A command from position `m` on stands. */
  ghost predicate SomeCommandStands(u: Setup, es: seq<CallbackStep>, m: nat, server: string, f: Fault) {
    exists j: nat :: m <= j < |es| && CommandStandsAt(u, es, j, server, f)
  }

  lemma {:induction false} StandingCommandCauses(u: Setup, es: seq<CallbackStep>, j: nat, server: string, f: Fault)
    requires CommandStandsAt(u, es, j, server, f)
    ensures CommandCauses(CallbackRun(u, es[..j]), es[j], server, f)
  {
    if j < |es| - 1 {
      StandingCommandCauses(u, es[..|es| - 1], j, server, f);
      assert es[..|es| - 1][..j] == es[..j];
    }
  }

  lemma SomeCommandStandsStep(u: Setup, es: seq<CallbackStep>, m: nat, server: string, f: Fault)
    requires m < |es|
    ensures var t, c, e := es[..|es| - 1], CallbackRun(u, es[..|es| - 1]), es[|es| - 1];
            SomeCommandStands(u, es, m, server, f)
            <==> CommandCauses(c, e, server, f) || (SomeCommandStands(u, t, m, server, f) && !CommandOverwrites(c, e, server, f))
  {
    var t, c, e := es[..|es| - 1], CallbackRun(u, es[..|es| - 1]), es[|es| - 1];
    if SomeCommandStands(u, es, m, server, f) {
      var j: nat :| m <= j < |es| && CommandStandsAt(u, es, j, server, f);
      assert j < |t| ==> CommandStandsAt(u, t, j, server, f);
    }
    if CommandCauses(c, e, server, f) {
      assert CommandStandsAt(u, es, |t|, server, f);
    } else if SomeCommandStands(u, t, m, server, f) && !CommandOverwrites(c, e, server, f) {
      var j: nat :| m <= j < |t| && CommandStandsAt(u, t, j, server, f);
      assert CommandStandsAt(u, es, j, server, f);
    }
  }

  lemma {:induction false} FaultIffSomeCommandStands(u: Setup, es: seq<CallbackStep>, m: nat, server: string, f: Fault)
    requires m <= |es| && !Has(CallbackRun(u, es[..m]).s.base, server, f)
    ensures Has(CallbackRun(u, es).s.base, server, f) <==> SomeCommandStands(u, es, m, server, f)
  {
    if m == |es| {
      assert es[..m] == es;
      assert !SomeCommandStands(u, es, m, server, f);
    } else {
      var t := es[..|es| - 1];
      assert t[..m] == es[..m];
      FaultIffSomeCommandStands(u, t, m, server, f);
      FaultAfter(u, CallbackRun(u, t), es[|es| - 1], server, f);
      SomeCommandStandsStep(u, es, m, server, f);
    }
  }

  lemma NoFaultWhenChecked(u: Setup, es: seq<CallbackStep>, server: string, i: nat, f: Fault)
    requires i < |es| && TurnOpens(u, CallbackRun(u, es[..i]), es[i], server)
    requires f.ProtectedAt? ==> es[i].e.at <= f.t
    ensures !Has(CallbackRun(u, es[..i + 1]).s.base, server, f)
  {
    assert es[..i + 1][..i] == es[..i];
    ConfigsKept(u, CallbackRun(u, es[..i]).s, es[i].e);
  }

  // ---------- Stops ----------

  /** A command after the check at `i` stands that came when the timer could not be stopped: not yet installed, or its
      entry deleted by the callback of an older one, or already expired. */
  ghost predicate LateCommandStands(u: Setup, es: seq<CallbackStep>, i: nat, server: string, id: nat, f: Fault) {
    exists j: nat :: i < j < |es| && LateCommandAt(u, es, j, server, id, f)
  }

  predicate LateCommandAt(u: Setup, es: seq<CallbackStep>, j: nat, server: string, id: nat, f: Fault)
    requires j < |es|
  {
    CommandStandsAt(u, es, j, server, f) && !Stoppable(CallbackRun(u, es[..j]), server, id)
  }

  /** Every stop has a timer that was installed in a turn of the server, whose check saw it running and empty, and
      comes at least the idle time after the installation. */
  lemma CallbackStopTracesBack(u: Setup, es: seq<CallbackStep>, e: CallbackStep, server: string) returns (i: nat, k: nat)
    requires CallbackStops(CallbackRun(u, es), e, server)
    ensures TimerFrom(u, es, server, CallbackRun(u, es).callbacks[e.k].id, i, k) && i < k
    ensures es[i].Other? && es[i].e.Check? && es[i].e.server == server
    ensures es[i].e.players == Some(0) && es[i].e.status == Some(3)
    ensures es[i].e.at <= es[k].e.at && es[k].e.at + u.idleSeconds * 1000 <= e.at && e.players == Some(0)
  {
    i, k := ExpiredTimerFrom(u, es, e.k);
    TimerFromFacts(u, es, server, CallbackRun(u, es).callbacks[e.k].id, i, k);
  }

  /** A stop falls into a protection, or comes with auto-shutdown off, exactly when such a command stands that came
      after the check, at a moment when its timer could not be stopped. */
  lemma CallbackStopViolatesIff(u: Setup, es: seq<CallbackStep>, e: CallbackStep, server: string, f: Fault, i: nat, k: nat)
    requires CallbackStops(CallbackRun(u, es), e, server)
    requires TimerFrom(u, es, server, CallbackRun(u, es).callbacks[e.k].id, i, k)
    requires f == SwitchedOff || f == ProtectedAt(e.at)
    ensures Has(CallbackRun(u, es).s.base, server, f)
            <==> LateCommandStands(u, es, i, server, CallbackRun(u, es).callbacks[e.k].id, f)
  {
    var id := CallbackRun(u, es).callbacks[e.k].id;
    TimerFromFacts(u, es, server, id, i, k);
    NoFaultWhenChecked(u, es, server, i, f);
    FaultIffSomeCommandStands(u, es, i + 1, server, f);
    if SomeCommandStands(u, es, i + 1, server, f) {
      var j: nat :| i + 1 <= j < |es| && CommandStandsAt(u, es, j, server, f);
      StandingCommandIsLate(u, es, e.k, server, f, j);
      assert LateCommandAt(u, es, j, server, id, f);
    }
    if LateCommandStands(u, es, i, server, id, f) {
      var j: nat :| i < j < |es| && LateCommandAt(u, es, j, server, id, f);
      assert CommandStandsAt(u, es, j, server, f);
    }
  }

  /** A command that found the timer stoppable would have stopped it, so that it had no callback. */
  lemma StandingCommandIsLate(u: Setup, es: seq<CallbackStep>, k: nat, server: string, f: Fault, j: nat)
    requires k < |CallbackRun(u, es).callbacks| && CommandStandsAt(u, es, j, server, f)
    ensures !Stoppable(CallbackRun(u, es[..j]), server, CallbackRun(u, es).callbacks[k].id)
  {
    var id := CallbackRun(u, es).callbacks[k].id;
    StandingCommandCauses(u, es, j, server, f);
    RunsKeepInv(u, es[..j]);
    if Stoppable(CallbackRun(u, es[..j]), server, id) {
      CommandStopsTimer(u, CallbackRun(u, es[..j]), es[j], server, id, f);
      assert es[..j + 1][..j] == es[..j];
      GoneForGood(u, es, j + 1, id);
    }
  }

  // ---------- The windows are real ----------

  lemma RunOne(u: Setup, es: seq<CallbackStep>, e: CallbackStep)
    ensures CallbackRun(u, es + [e]) == CallbackNext(u, CallbackRun(u, es), e)
  {
    assert (es + [e])[..|es|] == es;
  }

  /** A turn of a server that runs empty, all at one time. */
  function Turn(at: nat, server: string): seq<CallbackStep> {
    [Other(Check(at, server, Some(0), Some(3))), Other(Install(at))]
  }

  function Delay(at: nat, server: string, seconds: int): CallbackStep { Other(Whole(SetDelay(at, server, seconds))) }

  lemma TurnInstallsTimer(u: Setup, es: seq<CallbackStep>, at: nat, server: string)
    requires var c := CallbackRun(u, es);
             c.s.gap.None? && c.s.base.now <= at && Schedules(u, c.s.base, server, Some(3)) && !Protected(c.s.base, server, at)
    ensures CallbackRun(u, es + Turn(at, server))
         == WithBase(CallbackRun(u, es), Installed(u, CallbackRun(u, es).s.base.(now := at), server, at))
  {
    RunOne(u, es, Turn(at, server)[0]);
    RunOne(u, es + [Turn(at, server)[0]], Turn(at, server)[1]);
    assert es + Turn(at, server) == es + [Turn(at, server)[0]] + [Turn(at, server)[1]];
  }

  /** A delay command that comes once the timer has expired. */
  function DelayAfterExpiry(server: string, due: nat, seconds: int): seq<CallbackStep> {
    Turn(0, server) + [Expire(due, 0)] + [Delay(due, server, seconds)] + [DeleteEntry(due, 0)]
  }

  /** ... does not keep its callback from stopping the server. */
  lemma DelayAfterExpiryStops(u: Setup, server: string, due: nat, seconds: int)
    requires server in u.uuids && due == u.idleSeconds * 1000
    ensures var c := CallbackRun(u, DelayAfterExpiry(server, due, seconds));
            && CallbackStops(c, Finish(due, 0, Some(0)), server)
            && (Protected(c.s.base, server, due) <==> seconds > 0)
  {
    var expired := Turn(0, server) + [Expire(due, 0)];
    FirstTimerExpires(u, server, due);
    RunOne(u, expired, Delay(due, server, seconds));
    RunOne(u, expired + [Delay(due, server, seconds)], DeleteEntry(due, 0));
  }

  /** A timer expires; before its callback deletes the entry, players come and go again, and a new timer is installed:
      the callback deletes the entry of that one. */
  function Orphaning(server: string, due: nat): seq<CallbackStep> {
    Turn(0, server) + [Expire(due, 0)] + [Other(Check(due, server, Some(1), Some(3)))] + Turn(due, server) + [DeleteEntry(due, 0)]
  }

  /** The state with one expired timer of the server, and perhaps a newer one. */
  function WithExpired(server: string, now: nat, timers: map<string, nat>, pending: map<nat, Timer>, deleted: bool, nextId: nat): CallbackState {
    CallbackState(SplitState(State(now, timers, pending, map[], nextId), None), [Callback(0, server, deleted, false)])
  }

  lemma FirstTimerExpires(u: Setup, server: string, due: nat)
    requires server in u.uuids && due == u.idleSeconds * 1000
    ensures CallbackRun(u, Turn(0, server) + [Expire(due, 0)]) == WithExpired(server, due, map[server := 0], map[], false, 1)
  {
    TurnInstallsTimer(u, [], 0, server);
    assert [] + Turn(0, server) == Turn(0, server);
    RunOne(u, Turn(0, server), Expire(due, 0));
    assert CallbackRun(u, Turn(0, server)).s.base == State(0, map[server := 0], map[0 := Timer(server, due)], map[], 1);
  }

  lemma PlayersCome(u: Setup, server: string, due: nat)
    ensures CallbackNext(u, WithExpired(server, due, map[server := 0], map[], false, 1), Other(Check(due, server, Some(1), Some(3))))
         == WithExpired(server, due, map[], map[], false, 1)
  {
  }

  lemma OlderDeletesNewer(u: Setup, server: string, due: nat)
    ensures CallbackNext(u, WithExpired(server, due, map[server := 1], map[1 := Timer(server, due + due)], false, 2), DeleteEntry(due, 0))
         == WithExpired(server, due, map[], map[1 := Timer(server, due + due)], true, 2)
  {
  }

  lemma OrphanedTimer(u: Setup, server: string, due: nat)
    requires server in u.uuids && due == u.idleSeconds * 1000
    ensures CallbackRun(u, Orphaning(server, due)) == WithExpired(server, due, map[], map[1 := Timer(server, due + due)], true, 2)
  {
    var expired := Turn(0, server) + [Expire(due, 0)];
    var emptied := expired + [Other(Check(due, server, Some(1), Some(3)))];
    FirstTimerExpires(u, server, due);
    RunOne(u, expired, Other(Check(due, server, Some(1), Some(3))));
    PlayersCome(u, server, due);
    TurnInstallsTimer(u, emptied, due, server);
    RunOne(u, emptied + Turn(due, server), DeleteEntry(due, 0));
    OlderDeletesNewer(u, server, due);
  }

  lemma DelayMissesTimer(u: Setup, server: string, due: nat, seconds: int)
    ensures var c := WithExpired(server, due, map[], map[1 := Timer(server, due + due)], true, 2);
            var d := CallbackNext(u, CallbackNext(u, CallbackNext(u, c, Delay(due, server, seconds)), Expire(due + due, 1)),
                                  DeleteEntry(due + due, 1));
            && CallbackStops(d, Finish(due + due, 1, Some(0)), server)
            && (Protected(d.s.base, server, due + due) <==> seconds * 1000 > due)
  {
  }

  /** A delay command finds no entry then, and the newer timer stops the server although the command came long before
      it expired: inside the protection exactly when that is longer than the idle time. */
  lemma OrphanedTimerStops(u: Setup, server: string, due: nat, seconds: int)
    requires server in u.uuids && due == u.idleSeconds * 1000
    ensures var es := Orphaning(server, due) + [Delay(due, server, seconds)] + [Expire(due + due, 1)] + [DeleteEntry(due + due, 1)];
            var c := CallbackRun(u, es);
            && CallbackStops(c, Finish(due + due, 1, Some(0)), server)
            && (Protected(c.s.base, server, due + due) <==> seconds > u.idleSeconds)
  {
    var es := Orphaning(server, due);
    OrphanedTimer(u, server, due);
    RunOne(u, es, Delay(due, server, seconds));
    RunOne(u, es + [Delay(due, server, seconds)], Expire(due + due, 1));
    RunOne(u, es + [Delay(due, server, seconds)] + [Expire(due + due, 1)], DeleteEntry(due + due, 1));
    DelayMissesTimer(u, server, due, seconds);
  }
}
