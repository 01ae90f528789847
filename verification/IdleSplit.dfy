/** The idle shutdown with a server's turn in a tick split in two: scheduleShutdown checks and reads the status,
    and only later installs the timer (internal/dynamicserver/manager.go:303-360). Ticks come from one loop, so
    one turn is under way at a time; commands, callbacks and the shutdown of the manager can fall in between. */
module IdleSplit {
  import opened Wrappers
  import opened IdleModel

  /** `gap` is the server whose turn has been checked and waits for its timer. */
  datatype SplitState = SplitState(base: State, gap: Option<string>)

  datatype SplitStep =
    | Whole(e: Step)  // a command, a callback or the shutdown of the manager
    | Check(at: nat, server: string, players: Option<nat>, status: Option<int>)
    | Install(at: nat)

  function AsTick(e: SplitStep): Step
    requires e.Check?
  {
    Tick(e.at, e.server, e.players, e.status)
  }

  predicate CanHappen(s: SplitState, e: SplitStep) {
    match e
    case Whole(p) => !p.Tick? && Possible(s.base, p)
    case Check(at, _, _, _) => s.gap.None? && s.base.now <= at
    case Install(at) => s.gap.Some? && s.base.now <= at
  }

  /** A check that finds the server running and empty, and goes on to install a timer. */
  predicate Opens(u: Setup, s: SplitState, e: SplitStep, server: string) {
    CanHappen(s, e) && e.Check? && Arms(u, s.base, AsTick(e), server)
  }

  predicate Installs(s: SplitState, e: SplitStep) { CanHappen(s, e) && e.Install? }

  function SplitNext(u: Setup, s: SplitState, e: SplitStep): SplitState {
    if !CanHappen(s, e) then s
    else match e
      case Whole(p) => s.(base := Next(u, s.base, p))
      case Check(at, server, _, _) =>
        if Opens(u, s, e, server) then SplitState(s.base.(now := at), Some(server))
        else s.(base := Next(u, s.base, AsTick(e)))
      case Install(at) => SplitState(Installed(u, s.base.(now := at), s.gap.value, at), None)
  }

  function SplitRun(u: Setup, es: seq<SplitStep>): SplitState {
    if es == [] then SplitState(Run(u, []), None)
    else SplitNext(u, SplitRun(u, es[..|es| - 1]), es[|es| - 1])
  }

  /** A turn whose two halves follow each other at once is the tick in one step. */
  lemma UnsplitTurnIsTick(u: Setup, s: SplitState, at: nat, server: string, players: Option<nat>, status: Option<int>)
    requires s.gap.None?
    ensures SplitNext(u, SplitNext(u, s, Check(at, server, players, status)), Install(at))
         == SplitState(Next(u, s.base, Tick(at, server, players, status)), None)
  {
  }

  // ---------- The timer map ----------

  ghost predicate SplitMatch(u: Setup, s: SplitState) {
    TimersMatch(s.base) && (s.gap.Some? ==> s.gap.value !in s.base.timers && s.gap.value in u.uuids)
  }

  lemma InstalledKeepsMatch(u: Setup, s: State, server: string, at: nat)
    requires TimersMatch(s) && server !in s.timers
    ensures TimersMatch(Installed(u, s, server, at))
  {
  }

  lemma SplitNextKeepsMatch(u: Setup, s: SplitState, e: SplitStep)
    requires SplitMatch(u, s)
    ensures SplitMatch(u, SplitNext(u, s, e))
  {
    if CanHappen(s, e) {
      match e
      case Whole(p) =>
        NextKeepsMatch(u, s.base, p);
        if s.gap.Some? { TimerComesAndGoes(u, s.base, p, s.gap.value); }
      case Check(at, server, _, _) =>
        if !Opens(u, s, e, server) { NextKeepsMatch(u, s.base, AsTick(e)); }
      case Install(at) => InstalledKeepsMatch(u, s.base.(now := at), s.gap.value, at);
    }
  }

  lemma {:induction false} SplitRunsMatch(u: Setup, es: seq<SplitStep>)
    ensures SplitMatch(u, SplitRun(u, es))
  {
    if es != [] {
      SplitRunsMatch(u, es[..|es| - 1]);
      SplitNextKeepsMatch(u, SplitRun(u, es[..|es| - 1]), es[|es| - 1]);
    }
  }

  /** A step that takes the timer of a server away. */
  predicate SplitDisturbs(s: SplitState, e: SplitStep, server: string) {
    && CanHappen(s, e)
    && match e
       case Whole(p) => Disturbs(s.base, p, server)
       case Check(_, _, _, _) => Disturbs(s.base, AsTick(e), server)
       case Install(_) => false
  }

  lemma SplitTimerStep(u: Setup, s: SplitState, e: SplitStep, server: string)
    requires SplitMatch(u, s)
    ensures var s' := SplitNext(u, s, e);
            && (server in s'.base.timers <==>
                (Installs(s, e) && s.gap.value == server) || (server in s.base.timers && !SplitDisturbs(s, e, server)))
            && (Installs(s, e) && s.gap.value == server ==>
                HasTimer(s'.base, server, Timer(server, e.at + u.idleSeconds * 1000)))
            && (server in s.base.timers && !SplitDisturbs(s, e, server) ==>
                HasTimer(s'.base, server, s.base.pending[s.base.timers[server]]))
  {
    if CanHappen(s, e) {
      match e
      case Whole(p) => TimerStep(u, s.base, p, server);
      case Check(_, name, _, _) => if !Opens(u, s, e, name) { TimerStep(u, s.base, AsTick(e), server); }
      case Install(_) =>
    }
  }

  // ---------- Which turn armed a timer ----------

  /** The check at position `c` opened the turn of the server, and no timer has been installed since. */
  predicate OpenSince(u: Setup, es: seq<SplitStep>, server: string, c: nat) {
    c < |es| && es[c].Check? &&
    var s, e := SplitRun(u, es[..|es| - 1]), es[|es| - 1];
    if c == |es| - 1 then Opens(u, s, e, server) else OpenSince(u, es[..|es| - 1], server, c) && !Installs(s, e)
  }

  lemma {:induction false} OpenPrefix(u: Setup, es: seq<SplitStep>, server: string, c: nat, j: nat)
    requires OpenSince(u, es, server, c) && c < j <= |es|
    ensures OpenSince(u, es[..j], server, c)
  {
    if j == |es| {
      assert es[..j] == es;
    } else {
      OpenPrefix(u, es[..|es| - 1], server, c, j);
      assert es[..|es| - 1][..j] == es[..j];
    }
  }

  lemma OpenedBy(u: Setup, es: seq<SplitStep>, server: string, c: nat)
    requires OpenSince(u, es, server, c)
    ensures Opens(u, SplitRun(u, es[..c]), es[c], server)
  {
    OpenPrefix(u, es, server, c, c + 1);
    assert es[..c + 1][..c] == es[..c];
  }

  lemma {:induction false} TurnOpened(u: Setup, es: seq<SplitStep>, server: string) returns (c: nat)
    requires SplitRun(u, es).gap == Some(server)
    ensures OpenSince(u, es, server, c)
  {
    var t, n := es[..|es| - 1], |es| - 1;
    if Opens(u, SplitRun(u, t), es[n], server) {
      c := n;
    } else {
      c := TurnOpened(u, t, server);
    }
  }

  lemma {:induction false} OpenTurn(u: Setup, es: seq<SplitStep>, server: string, c: nat)
    requires OpenSince(u, es, server, c)
    ensures SplitRun(u, es).gap == Some(server) && es[c].at <= SplitRun(u, es).base.now
  {
    var n := |es| - 1;
    if c < n {
      OpenTurn(u, es[..n], server, c);
    }
  }

  /** The timer of a server was installed at position `k` in the turn that its check at `c` opened, and nothing
      has disturbed it since. */
  predicate ArmedBy(u: Setup, es: seq<SplitStep>, server: string, c: nat, k: nat) {
    k < |es| && es[k].Install? &&
    var t, s, e := es[..|es| - 1], SplitRun(u, es[..|es| - 1]), es[|es| - 1];
    if k == |es| - 1 then OpenSince(u, t, server, c) && Installs(s, e)
    else ArmedBy(u, t, server, c, k) && !SplitDisturbs(s, e, server)
  }

  lemma {:induction false} ArmedAtInstall(u: Setup, es: seq<SplitStep>, server: string, c: nat, k: nat)
    requires ArmedBy(u, es, server, c, k)
    ensures c < k && OpenSince(u, es[..k], server, c) && Installs(SplitRun(u, es[..k]), es[k])
    ensures es[c].Check? && Opens(u, SplitRun(u, es[..c]), es[c], server)
  {
    var t := es[..|es| - 1];
    if k < |es| - 1 {
      ArmedAtInstall(u, t, server, c, k);
      assert t[..k] == es[..k] && t[..c] == es[..c];
    } else {
      OpenedBy(u, t, server, c);
      assert t[..c] == es[..c];
    }
  }

  lemma {:induction false} UndisturbedSinceInstall(u: Setup, es: seq<SplitStep>, server: string, c: nat, k: nat, j: nat)
    requires ArmedBy(u, es, server, c, k) && k < j < |es|
    ensures !SplitDisturbs(SplitRun(u, es[..j]), es[j], server)
  {
    var t := es[..|es| - 1];
    if j < |es| - 1 {
      UndisturbedSinceInstall(u, t, server, c, k, j);
      assert t[..j] == es[..j];
    }
  }

  lemma {:induction false} TimerArmed(u: Setup, es: seq<SplitStep>, server: string) returns (c: nat, k: nat)
    requires server in SplitRun(u, es).base.timers
    ensures ArmedBy(u, es, server, c, k)
  {
    var t, n := es[..|es| - 1], |es| - 1;
    SplitRunsMatch(u, t);
    SplitTimerStep(u, SplitRun(u, t), es[n], server);
    if Installs(SplitRun(u, t), es[n]) && SplitRun(u, t).gap.value == server {
      c := TurnOpened(u, t, server);
      k := n;
    } else {
      c, k := TimerArmed(u, t, server);
    }
  }

  /** An armed timer that nothing disturbed is due the idle time after its installation. */
  lemma {:induction false} DeadlineAfterInstall(u: Setup, es: seq<SplitStep>, server: string, c: nat, k: nat)
    requires ArmedBy(u, es, server, c, k)
    ensures HasTimer(SplitRun(u, es).base, server, Timer(server, es[k].at + u.idleSeconds * 1000))
  {
    var t, n := es[..|es| - 1], |es| - 1;
    SplitRunsMatch(u, t);
    SplitTimerStep(u, SplitRun(u, t), es[n], server);
    if k < n {
      DeadlineAfterInstall(u, t, server, c, k);
    } else {
      OpenTurn(u, t, server, c);
    }
  }

  ghost predicate Armed(u: Setup, es: seq<SplitStep>, server: string) {
    exists c: nat, k: nat :: ArmedBy(u, es, server, c, k)
  }

  /** A server has a timer exactly when some turn armed it and nothing disturbed it since. */
  lemma SplitTimerPendingIff(u: Setup, es: seq<SplitStep>, server: string)
    ensures server in SplitRun(u, es).base.timers <==> Armed(u, es, server)
  {
    if server in SplitRun(u, es).base.timers {
      var c, k := TimerArmed(u, es, server);
    }
    if Armed(u, es, server) {
      var c: nat, k: nat :| ArmedBy(u, es, server, c, k);
      DeadlineAfterInstall(u, es, server, c, k);
    }
  }

  // ---------- What the guarantee forbids ----------

  /** A protection that reaches past time `t`, or auto-shutdown switched off. */
  datatype Fault = ProtectedAt(t: nat) | SwitchedOff

  predicate Has(s: State, server: string, f: Fault) {
    match f
    case ProtectedAt(t) => Protected(s, server, t)
    case SwitchedOff => !IsEnabled(s, server)
  }

  /** A command that brings the fault about. */
  predicate Causes(s: SplitState, e: SplitStep, server: string, f: Fault) {
    && CanHappen(s, e) && e.Whole?
    && match f
       case ProtectedAt(t) => e.e.SetDelay? && e.e.server == server && e.e.at + e.e.seconds * 1000 > t
       case SwitchedOff => e.e.SetEnabled? && e.e.server == server && !e.e.on
  }

  /** A command after which nothing is left of what earlier ones said. */
  predicate Overwrites(s: SplitState, e: SplitStep, server: string, f: Fault) {
    && CanHappen(s, e) && e.Whole?
    && match f
       case ProtectedAt(_) =>
         || (e.e.SetDelay? && e.e.server == server)
         || (e.e.ClearProtection? && e.e.server == server)
         || (e.e.SetEnabled? && e.e.server == server && !e.e.on)
       case SwitchedOff => e.e.SetEnabled? && e.e.server == server
  }

  lemma FaultStep(u: Setup, s: SplitState, e: SplitStep, server: string, f: Fault)
    ensures Has(SplitNext(u, s, e).base, server, f)
            <==> Causes(s, e, server, f) || (Has(s.base, server, f) && !Overwrites(s, e, server, f))
  {
    if CanHappen(s, e) && e.Whole? {
      WholeFaultStep(u, s, e, server, f);
    } else {
      ConfigsKept(u, s, e);
    }
  }

  lemma WholeFaultStep(u: Setup, s: SplitState, e: SplitStep, server: string, f: Fault)
    requires CanHappen(s, e) && e.Whole?
    ensures Has(SplitNext(u, s, e).base, server, f)
            <==> Causes(s, e, server, f) || (Has(s.base, server, f) && !Overwrites(s, e, server, f))
  {
  }

  lemma ConfigsKept(u: Setup, s: SplitState, e: SplitStep)
    requires !CanHappen(s, e) || !e.Whole?
    ensures SplitNext(u, s, e).base.configs == s.base.configs
  {
  }

  /** The command at position `j` brought the fault about, and no later command has overwritten it. */
  predicate Stands(u: Setup, es: seq<SplitStep>, j: nat, server: string, f: Fault) {
    j < |es| &&
    var s, e := SplitRun(u, es[..|es| - 1]), es[|es| - 1];
    if j == |es| - 1 then Causes(s, e, server, f)
    else Stands(u, es[..|es| - 1], j, server, f) && !Overwrites(s, e, server, f)
  }

  lemma {:induction false} StandsCauses(u: Setup, es: seq<SplitStep>, j: nat, server: string, f: Fault)
    requires Stands(u, es, j, server, f)
    ensures Causes(SplitRun(u, es[..j]), es[j], server, f)
  {
    if j < |es| - 1 {
      StandsCauses(u, es[..|es| - 1], j, server, f);
      assert es[..|es| - 1][..j] == es[..j];
    }
  }

  /** One of the commands at positions `from` to `to` stands. */
  ghost predicate CommandStands(u: Setup, es: seq<SplitStep>, from: nat, to: nat, server: string, f: Fault) {
    exists j: nat :: from <= j < to && Stands(u, es, j, server, f)
  }

  /** A fault that was not there after `m` steps is there now exactly when some later command stands. */
  lemma {:induction false} FaultIffCommandStands(u: Setup, es: seq<SplitStep>, m: nat, server: string, f: Fault)
    requires m <= |es| && !Has(SplitRun(u, es[..m]).base, server, f)
    ensures Has(SplitRun(u, es).base, server, f) <==> CommandStands(u, es, m, |es|, server, f)
  {
    if m == |es| {
      assert es[..m] == es;
      assert !CommandStands(u, es, m, m, server, f);
    } else {
      var t := es[..|es| - 1];
      assert t[..m] == es[..m];
      FaultIffCommandStands(u, t, m, server, f);
      FaultOneMore(u, es, m, server, f);
    }
  }

  lemma FaultOneMore(u: Setup, es: seq<SplitStep>, m: nat, server: string, f: Fault)
    requires m < |es|
    requires var t := es[..|es| - 1];
             Has(SplitRun(u, t).base, server, f) <==> CommandStands(u, t, m, |t|, server, f)
    ensures Has(SplitRun(u, es).base, server, f) <==> CommandStands(u, es, m, |es|, server, f)
  {
    FaultStep(u, SplitRun(u, es[..|es| - 1]), es[|es| - 1], server, f);
    StandsOneMore(u, es, m, server, f);
  }

  lemma StandsOneMore(u: Setup, es: seq<SplitStep>, m: nat, server: string, f: Fault)
    requires m < |es|
    ensures var t, s, e := es[..|es| - 1], SplitRun(u, es[..|es| - 1]), es[|es| - 1];
            CommandStands(u, es, m, |es|, server, f)
            <==> Causes(s, e, server, f) || (CommandStands(u, t, m, |t|, server, f) && !Overwrites(s, e, server, f))
  {
    var t, s, e := es[..|es| - 1], SplitRun(u, es[..|es| - 1]), es[|es| - 1];
    if CommandStands(u, es, m, |es|, server, f) {
      var j: nat :| m <= j < |es| && Stands(u, es, j, server, f);
      assert j < |t| ==> Stands(u, t, j, server, f);
    }
    if Causes(s, e, server, f) {
      assert Stands(u, es, |t|, server, f);
    } else if CommandStands(u, t, m, |t|, server, f) && !Overwrites(s, e, server, f) {
      var j: nat :| m <= j < |t| && Stands(u, t, j, server, f);
      assert Stands(u, es, j, server, f);
    }
  }

  /** At the check neither fault is there, for any time from then on. */
  lemma NoFaultAtCheck(u: Setup, es: seq<SplitStep>, server: string, c: nat, f: Fault)
    requires c < |es| && Opens(u, SplitRun(u, es[..c]), es[c], server)
    requires f.ProtectedAt? ==> es[c].at <= f.t
    ensures !Has(SplitRun(u, es[..c + 1]).base, server, f)
  {
    assert es[..c + 1][..c] == es[..c];
  }

  /** Once a timer is installed, a command that brings a fault about cancels it. */
  lemma CausesDisturb(s: SplitState, e: SplitStep, server: string, f: Fault)
    requires Causes(s, e, server, f)
    ensures SplitDisturbs(s, e, server)
  {
  }

  // ---------- Stops ----------

  predicate SplitStops(s: SplitState, e: SplitStep, server: string) {
    CanHappen(s, e) && e.Whole? && Stops(s.base, e.e, server)
  }

  /** Every stop has a turn that armed it: a check that saw the server running and empty, an installation after
      it, and the stop at least the idle time after that. */
  lemma SplitStopTracesBack(u: Setup, es: seq<SplitStep>, e: SplitStep, server: string) returns (c: nat, k: nat)
    requires SplitStops(SplitRun(u, es), e, server)
    ensures ArmedBy(u, es, server, c, k) && c < k
    ensures es[c].Check? && es[c].server == server && es[c].players == Some(0) && es[c].status == Some(3)
    ensures es[c].at <= es[k].at && es[k].at + u.idleSeconds * 1000 <= e.e.at
    ensures e.e.Fire? && e.e.players == Some(0)
  {
    SplitRunsMatch(u, es);
    c, k := TimerArmed(u, es, server);
    DeadlineAfterInstall(u, es, server, c, k);
    CheckedBefore(u, es, server, c, k);
    ArmedAtInstall(u, es, server, c, k);
  }

  /** A stop violates the guarantee, inside a protection or with auto-shutdown off, exactly when a command that
      fell between the check and the installation of the turn that armed it still stands. */
  lemma StopViolatesIff(u: Setup, es: seq<SplitStep>, e: SplitStep, server: string, f: Fault, c: nat, k: nat)
    requires SplitStops(SplitRun(u, es), e, server) && ArmedBy(u, es, server, c, k)
    requires f == SwitchedOff || f == ProtectedAt(e.e.at)
    ensures Has(SplitRun(u, es).base, server, f) <==> CommandStands(u, es, c + 1, k, server, f)
  {
    ArmedAtInstall(u, es, server, c, k);
    CheckedBefore(u, es, server, c, k);
    NoFaultAtCheck(u, es, server, c, f);
    FaultIffCommandStands(u, es, c + 1, server, f);
    if CommandStands(u, es, c + 1, |es|, server, f) {
      var j: nat :| c + 1 <= j < |es| && Stands(u, es, j, server, f);
      StandsBeforeInstall(u, es, server, f, c, k, j);
    }
  }

  lemma {:induction false} CheckedBefore(u: Setup, es: seq<SplitStep>, server: string, c: nat, k: nat)
    requires ArmedBy(u, es, server, c, k)
    ensures c < k && es[c].Check? && es[c].at <= es[k].at <= SplitRun(u, es).base.now
  {
    var t := es[..|es| - 1];
    if k < |t| {
      CheckedBefore(u, t, server, c, k);
    } else {
      OpenTurn(u, t, server, c);
    }
  }

  lemma StandsBeforeInstall(u: Setup, es: seq<SplitStep>, server: string, f: Fault, c: nat, k: nat, j: nat)
    requires ArmedBy(u, es, server, c, k) && Stands(u, es, j, server, f)
    ensures j < k
  {
    StandsCauses(u, es, j, server, f);
    if k < j {
      CausesDisturb(SplitRun(u, es[..j]), es[j], server, f);
      UndisturbedSinceInstall(u, es, server, c, k, j);
    } else if j == k {
      ArmedAtInstall(u, es, server, c, k);
    }
  }

  // ---------- The whole time from the check on ----------

  predicate Quiet(s: State, server: string, since: nat) {
    !Has(s, server, ProtectedAt(since)) && !Has(s, server, SwitchedOff)
  }

  predicate BreaksQuiet(s: SplitState, e: SplitStep, server: string, since: nat) {
    Causes(s, e, server, ProtectedAt(since)) || Causes(s, e, server, SwitchedOff)
  }

  lemma QuietStepIff(u: Setup, s: SplitState, e: SplitStep, server: string, since: nat)
    requires Quiet(s.base, server, since)
    ensures Quiet(SplitNext(u, s, e).base, server, since) <==> !BreaksQuiet(s, e, server, since)
  {
    FaultStep(u, s, e, server, ProtectedAt(since));
    FaultStep(u, s, e, server, SwitchedOff);
  }

  /** Quiet after each of the first `n` steps, from the check at `c` on. */
  ghost predicate QuietUntil(u: Setup, es: seq<SplitStep>, server: string, c: nat, n: nat)
    requires c < |es| && es[c].Check? && n <= |es|
  {
    forall j :: c < j <= n ==> Quiet(SplitRun(u, es[..j]).base, server, es[c].at)
  }

  /** No command among the first `n` steps, from the check at `c` on, breaks the quiet. */
  ghost predicate UnbrokenUntil(u: Setup, es: seq<SplitStep>, server: string, c: nat, n: nat)
    requires c < |es| && es[c].Check? && n <= |es|
  {
    forall j :: c < j < n ==> !BreaksQuiet(SplitRun(u, es[..j]), es[j], server, es[c].at)
  }

  lemma {:induction false} QuietWhileUnbroken(u: Setup, es: seq<SplitStep>, server: string, c: nat, n: nat)
    requires c < n <= |es| && Opens(u, SplitRun(u, es[..c]), es[c], server)
    requires UnbrokenUntil(u, es, server, c, n)
    ensures Quiet(SplitRun(u, es[..n]).base, server, es[c].at)
  {
    if n == c + 1 {
      NoFaultAtCheck(u, es, server, c, ProtectedAt(es[c].at));
      NoFaultAtCheck(u, es, server, c, SwitchedOff);
    } else {
      QuietWhileUnbroken(u, es, server, c, n - 1);
      QuietAfterOneMore(u, es, server, n - 1, es[c].at);
    }
  }

  lemma QuietUntilIff(u: Setup, es: seq<SplitStep>, server: string, c: nat, n: nat)
    requires c < n <= |es| && Opens(u, SplitRun(u, es[..c]), es[c], server)
    ensures QuietUntil(u, es, server, c, n) <==> UnbrokenUntil(u, es, server, c, n)
  {
    if UnbrokenUntil(u, es, server, c, n) {
      forall j | c < j <= n ensures Quiet(SplitRun(u, es[..j]).base, server, es[c].at) {
        QuietWhileUnbroken(u, es, server, c, j);
      }
    }
    if QuietUntil(u, es, server, c, n) {
      forall j | c < j < n ensures !BreaksQuiet(SplitRun(u, es[..j]), es[j], server, es[c].at) {
        QuietAfterOneMore(u, es, server, j, es[c].at);
      }
    }
  }

  lemma QuietAfterOneMore(u: Setup, es: seq<SplitStep>, server: string, j: nat, since: nat)
    requires j < |es|
    ensures Quiet(SplitRun(u, es[..j]).base, server, since) ==>
              (Quiet(SplitRun(u, es[..j + 1]).base, server, since) <==> !BreaksQuiet(SplitRun(u, es[..j]), es[j], server, since))
  {
    assert es[..j + 1][..j] == es[..j];
    if Quiet(SplitRun(u, es[..j]).base, server, since) {
      QuietStepIff(u, SplitRun(u, es[..j]), es[j], server, since);
    }
  }

  /** From the check of an armed timer on, auto-shutdown stayed on and no protection was in force at any moment,
      exactly when no delay and no switching-off fell between the check and the installation. */
  lemma QuietIffNothingInGap(u: Setup, es: seq<SplitStep>, server: string, c: nat, k: nat)
    requires ArmedBy(u, es, server, c, k)
    ensures c < |es| && es[c].Check?
    ensures QuietUntil(u, es, server, c, |es|) <==> UnbrokenUntil(u, es, server, c, k)
  {
    ArmedAtInstall(u, es, server, c, k);
    QuietUntilIff(u, es, server, c, |es|);
    forall j | k <= j < |es| ensures !BreaksQuiet(SplitRun(u, es[..j]), es[j], server, es[c].at) {
      UnbrokenOnceInstalled(u, es, server, c, k, j, es[c].at);
    }
  }

  lemma UnbrokenOnceInstalled(u: Setup, es: seq<SplitStep>, server: string, c: nat, k: nat, j: nat, since: nat)
    requires ArmedBy(u, es, server, c, k) && k <= j < |es|
    ensures !BreaksQuiet(SplitRun(u, es[..j]), es[j], server, since)
  {
    var s := SplitRun(u, es[..j]);
    if k < j { UndisturbedSinceInstall(u, es, server, c, k, j); } else { ArmedAtInstall(u, es, server, c, k); }
    if Causes(s, es[j], server, ProtectedAt(since)) { CausesDisturb(s, es[j], server, ProtectedAt(since)); }
    if Causes(s, es[j], server, SwitchedOff) { CausesDisturb(s, es[j], server, SwitchedOff); }
  }

  /** The other half of the guarantee survives the split: from the check on, every check that could read the
      player count of the server read 0. */
  lemma EmptySinceCheck(u: Setup, es: seq<SplitStep>, server: string, c: nat, k: nat, j: nat)
    requires ArmedBy(u, es, server, c, k) && c < j < |es|
    requires es[j].Check? && es[j].server == server && CanHappen(SplitRun(u, es[..j]), es[j])
    requires !Protected(SplitRun(u, es[..j]).base, server, es[j].at) && es[j].players.Some?
    ensures es[j].players == Some(0)
  {
    ArmedAtInstall(u, es, server, c, k);
    if j < k {
      OpenPrefix(u, es[..k], server, c, j);
      assert es[..k][..j] == es[..j];
      OpenTurn(u, es[..j], server, c);
    } else if j > k {
      UndisturbedSinceInstall(u, es, server, c, k, j);
    }
  }

  // ---------- The gap is real ----------

  /** A delay command between the check and the installation of one turn. */
  function DelayInGap(server: string, checked: nat, delayed: nat, seconds: int, installed: nat): seq<SplitStep> {
    [Check(checked, server, Some(0), Some(3)), Whole(SetDelay(delayed, server, seconds)), Install(installed)]
  }

  /** ... and the server is stopped when the timer is due, inside the protection exactly when that ends later. */
  lemma DelayInGapStops(u: Setup, server: string, checked: nat, delayed: nat, seconds: int, installed: nat)
    requires server in u.uuids && u.idleSeconds >= 0 && checked <= delayed <= installed
    ensures var s := SplitRun(u, DelayInGap(server, checked, delayed, seconds, installed));
            var due := installed + u.idleSeconds * 1000;
            && server in s.base.timers
            && SplitStops(s, Whole(Fire(due, s.base.timers[server], Some(0))), server)
            && (Protected(s.base, server, due) <==> delayed + seconds * 1000 > due)
  {
    var es := DelayInGap(server, checked, delayed, seconds, installed);
    assert es[..2][..1] == [es[0]] && es[..1][..0] == [];
    assert SplitRun(u, es[..1]) == SplitState(Run(u, []).(now := checked), Some(server));
    assert SplitRun(u, es[..2]) == SplitNext(u, SplitRun(u, es[..1]), es[1]);
  }

  /** The same with the switch: the server is stopped although its auto-shutdown is off. */
  lemma SwitchInGapStops(u: Setup, server: string, checked: nat, switched: nat, installed: nat)
    requires server in u.uuids && u.idleSeconds >= 0 && checked <= switched <= installed
    ensures var es := [Check(checked, server, Some(0), Some(3)), Whole(SetEnabled(switched, server, false)), Install(installed)];
            var s, due := SplitRun(u, es), installed + u.idleSeconds * 1000;
            && server in s.base.timers
            && SplitStops(s, Whole(Fire(due, s.base.timers[server], Some(0))), server)
            && !IsEnabled(s.base, server)
  {
    var es := [Check(checked, server, Some(0), Some(3)), Whole(SetEnabled(switched, server, false)), Install(installed)];
    assert es[..2][..1] == [es[0]] && es[..1][..0] == [];
    assert SplitRun(u, es[..1]) == SplitState(Run(u, []).(now := checked), Some(server));
    assert SplitRun(u, es[..2]) == SplitNext(u, SplitRun(u, es[..1]), es[1]);
  }
}
