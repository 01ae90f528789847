/** A failing dial in its separate steps, with health checks and other dials in between
    (internal/loadbalancer/server_info.go:75-84). Dial takes a backend down before it resets the success counter,
    which has been growing while the backend was up. */
module DialGap {
  import opened Wrappers
  import opened BackendModel

  /** A system with its failing dials by how far they are: counted (the failure and the latency are recorded),
      guarded (the threshold was seen reached, on a healthy backend), and down (the flag is cleared, the reset of
      the counter is still to come). */
  datatype GapSystem = GapSystem(s: System, counted: nat, guarded: nat, down: nat)

  datatype GapStep =
    | Whole(e: Step)  // anything but the end of a failing dial
    | Count(ns: nat)
    | Guard
    | TakeDown
    | Reset

  predicate CanHappen(g: GapSystem, e: GapStep) {
    match e
    case Whole(p) => !(p.DialEnd? && p.player.None?)
    case Count(_) => g.s.inFlight > 0
    case Guard => g.counted > 0
    case TakeDown => g.guarded > 0
    case Reset => g.down > 0
  }

  function WithBackend(g: GapSystem, b: State): GapSystem { g.(s := g.s.(b := b)) }

  function GuardHolds(u: Setup, b: State): bool { u.unhealthyAfter > 0 && b.fails >= u.unhealthyAfter && b.healthy }

  function GapNext(u: Setup, g: GapSystem, e: GapStep): GapSystem {
    if !CanHappen(g, e) then g
    else match e
      case Whole(p) => g.(s := Next(u, g.s, p))
      case Count(ns) =>
        g.(s := g.s.(inFlight := g.s.inFlight - 1, b := RecordLatency(g.s.b, ns).(fails := g.s.b.fails + 1)),
           counted := g.counted + 1)
      case Guard => g.(counted := g.counted - 1, guarded := g.guarded + if GuardHolds(u, g.s.b) then 1 else 0)
      case TakeDown => WithBackend(g, g.s.b.(healthy := false)).(guarded := g.guarded - 1, down := g.down + 1)
      case Reset => WithBackend(g, g.s.b.(succs := 0)).(down := g.down - 1)
  }

  function GapRun(u: Setup, es: seq<GapStep>): GapSystem {
    if es == [] then GapSystem(Run(u, []), 0, 0, 0) else GapNext(u, GapRun(u, es[..|es| - 1]), es[|es| - 1])
  }

  /** A failing dial whose steps follow each other at once is the failing dial in one step. */
  lemma UnsplitDialIsDial(u: Setup, g: GapSystem, ns: nat)
    requires g.counted == g.guarded == g.down == 0
    ensures GapNext(u, GapNext(u, GapNext(u, GapNext(u, g, Count(ns)), Guard), TakeDown), Reset)
         == g.(s := Next(u, g.s, DialEnd(ns, None)))
  {
  }

  // ---------- What a step does to the health ----------

  predicate Passes(g: GapSystem, e: GapStep) {
    e.Whole? && e.e.CheckEnd? && e.e.ping.Some? && g.s.probing
  }

  predicate Misses(g: GapSystem, e: GapStep) {
    e.Whole? && e.e.CheckEnd? && e.e.ping.None? && g.s.probing
  }

  predicate GoesDown(u: Setup, g: GapSystem, e: GapStep) { g.s.b.healthy && !GapNext(u, g, e).s.b.healthy }

  predicate Recovers(u: Setup, g: GapSystem, e: GapStep) { !g.s.b.healthy && GapNext(u, g, e).s.b.healthy }

  /** The backend is down and some failing dial is between its guard and its reset. */
  predicate InGap(g: GapSystem) { !g.s.b.healthy && g.guarded + g.down > 0 }

  /** The passed checks since the backend last went down or a check was last missed. */
  function Streak(u: Setup, es: seq<GapStep>): nat {
    if es == [] then 0
    else
      var t := es[..|es| - 1];
      var g, e := GapRun(u, t), es[|es| - 1];
      if GoesDown(u, g, e) || Misses(g, e) then 0 else Streak(u, t) + if Passes(g, e) then 1 else 0
  }

  /** Some of them fell into the gap of a failing dial. */
  predicate Misplaced(u: Setup, es: seq<GapStep>) {
    if es == [] then false
    else
      var t := es[..|es| - 1];
      var g, e := GapRun(u, t), es[|es| - 1];
      !(GoesDown(u, g, e) || Misses(g, e)) && (Misplaced(u, t) || (Passes(g, e) && InGap(g)))
  }

  /** The passed checks since the success counter was last set to zero: by a missed check, a reset or a recovery. */
  function Credit(u: Setup, es: seq<GapStep>): nat {
    if es == [] then 0
    else
      var t := es[..|es| - 1];
      var g, e := GapRun(u, t), es[|es| - 1];
      if Misses(g, e) || Recovers(u, g, e) || (e.Reset? && CanHappen(g, e)) then 0
      else Credit(u, t) + if Passes(g, e) then 1 else 0
  }

  /** The success counter, in every run and also inside the gap. */
  lemma {:induction false} CounterIsCredit(u: Setup, es: seq<GapStep>)
    ensures GapRun(u, es).s.b.succs == Credit(u, es)
  {
    if es != [] {
      CounterIsCredit(u, es[..|es| - 1]);
      CounterStep(u, GapRun(u, es[..|es| - 1]), es[|es| - 1]);
    }
  }

  lemma CounterStep(u: Setup, g: GapSystem, e: GapStep)
    ensures GapNext(u, g, e).s.b.succs
         == if Misses(g, e) || Recovers(u, g, e) || (e.Reset? && CanHappen(g, e)) then 0
            else g.s.b.succs + if Passes(g, e) then 1 else 0
  {
  }

  /** A recovery is a passed check that finds the counter one below the threshold, or higher. */
  lemma RecoversOnCredit(u: Setup, es: seq<GapStep>, e: GapStep)
    ensures Recovers(u, GapRun(u, es), e) <==>
            !GapRun(u, es).s.b.healthy && Passes(GapRun(u, es), e) && Credit(u, es) + 1 >= u.healthyAfter
  {
    CounterIsCredit(u, es);
    RecoveryStep(u, GapRun(u, es), e);
  }

  lemma RecoveryStep(u: Setup, g: GapSystem, e: GapStep)
    ensures Recovers(u, g, e) <==> !g.s.b.healthy && Passes(g, e) && g.s.b.succs + 1 >= u.healthyAfter
  {
  }

  // ---------- Recovery on exactly the threshold pass ----------

  /** The next step recovers the backend exactly when it is the passed check that completes the threshold since
      it went down or since the last missed check. */
  predicate Exact(u: Setup, es: seq<GapStep>, e: GapStep) {
    var g := GapRun(u, es);
    Recovers(u, g, e) <==> !g.s.b.healthy && Passes(g, e) && Streak(u, es) == u.healthyAfter - 1
  }

  ghost predicate ExactFrom(u: Setup, es: seq<GapStep>, from: nat) {
    forall i :: from <= i < |es| ==> Exact(u, es[..i], es[i])
  }

  predicate PassesInGap(u: Setup, es: seq<GapStep>, e: GapStep) { Passes(GapRun(u, es), e) && InGap(GapRun(u, es)) }

  ghost predicate NonePassesInGap(u: Setup, es: seq<GapStep>, from: nat) {
    forall i :: from <= i < |es| ==> !PassesInGap(u, es[..i], es[i])
  }

  predicate ExactlyAligned(u: Setup, g: GapSystem, streak: nat, misplaced: bool) {
    !g.s.b.healthy ==>
      && (misplaced ==> streak >= 1)
      && (!misplaced && g.guarded + g.down > 0 ==> streak == 0)
      && (g.guarded + g.down == 0 ==>
            g.s.b.succs < u.healthyAfter && if misplaced then g.s.b.succs < streak else g.s.b.succs == streak)
  }

  /** How the counter and the streak of a backend that is down compare: outside a gap they are equal, unless some
      pass of the streak fell into one, and then the counter stays behind for the rest of the streak. */
  lemma {:induction false} RunsAligned(u: Setup, es: seq<GapStep>)
    requires u.healthyAfter >= 1
    ensures ExactlyAligned(u, GapRun(u, es), Streak(u, es), Misplaced(u, es))
    ensures GapRun(u, es).s.b.succs >= 0
  {
    if es != [] {
      var t, e := es[..|es| - 1], es[|es| - 1];
      RunsAligned(u, t);
      var g := GapRun(u, t);
      AlignedStep(u, g, e, Streak(u, t), Misplaced(u, t));
      CounterStep(u, g, e);
    }
  }

  lemma AlignedStep(u: Setup, g: GapSystem, e: GapStep, streak: nat, misplaced: bool)
    requires u.healthyAfter >= 1 && g.s.b.succs >= 0 && ExactlyAligned(u, g, streak, misplaced)
    ensures var ends := GoesDown(u, g, e) || Misses(g, e);
            ExactlyAligned(u, GapNext(u, g, e), if ends then 0 else streak + if Passes(g, e) then 1 else 0,
                           !ends && (misplaced || (Passes(g, e) && InGap(g))))
  {
  }

  /** Whether the backend is up, or its streak has no pass inside a gap. */
  predicate InOrder(u: Setup, es: seq<GapStep>) { GapRun(u, es).s.b.healthy || !Misplaced(u, es) }

  lemma ExactInOrder(u: Setup, es: seq<GapStep>, e: GapStep)
    requires u.healthyAfter >= 1 && InOrder(u, es) && !PassesInGap(u, es, e)
    ensures Exact(u, es, e)
  {
    RunsAligned(u, es);
    RecoveryStep(u, GapRun(u, es), e);
  }

  lemma InOrderStep(u: Setup, es: seq<GapStep>, e: GapStep)
    requires InOrder(u, es) && !PassesInGap(u, es, e)
    ensures InOrder(u, es + [e])
  {
    assert (es + [e])[..|es|] == es;
    var g := GapRun(u, es);
    if g.s.b.healthy && !GoesDown(u, g, e) {
      assert GapRun(u, es + [e]) == GapNext(u, g, e);
    }
  }

  lemma {:induction false} StaysInOrder(u: Setup, es: seq<GapStep>, from: nat, i: nat)
    requires from <= i <= |es| && InOrder(u, es[..from]) && NonePassesInGap(u, es, from)
    ensures InOrder(u, es[..i])
  {
    if from < i {
      StaysInOrder(u, es, from, i - 1);
      assert es[..i] == es[..i - 1] + [es[i - 1]];
      InOrderStep(u, es[..i - 1], es[i - 1]);
    }
  }

  // ---------- Once a pass is misplaced ----------

  /** A way to go on, without any further pass inside a gap, in which some recovery is early, late or missing. */
  ghost predicate GoesWrong(u: Setup, es: seq<GapStep>, more: seq<GapStep>) {
    NonePassesInGap(u, es + more, |es|) && !ExactFrom(u, es + more, |es|)
  }

  lemma GoesWrongNow(u: Setup, es: seq<GapStep>, e: GapStep)
    requires !PassesInGap(u, es, e) && !Exact(u, es, e)
    ensures GoesWrong(u, es, [e])
  {
    assert (es + [e])[..|es|] == es && (es + [e])[|es|] == e;
  }

  lemma GoesWrongLater(u: Setup, es: seq<GapStep>, e: GapStep, more: seq<GapStep>)
    requires !PassesInGap(u, es, e) && GoesWrong(u, es + [e], more)
    ensures GoesWrong(u, es, [e] + more)
  {
    var whole := es + [e] + more;
    assert es + ([e] + more) == whole && whole[..|es|] == es && whole[|es|] == e;
  }

  /** A step that takes the failing dials, the switch or the health check on, towards the next passed check. */
  function Onward(g: GapSystem): GapStep {
    if g.guarded > 0 then TakeDown
    else if g.down > 0 then Reset
    else if !g.s.probing then Whole(if g.s.b.disabled then SetDisabled(false) else CheckStart)
    else Whole(CheckEnd(Some(0)))
  }

  function Pending(g: GapSystem): nat { 2 * g.guarded + g.down }

  function BeforePass(g: GapSystem): nat { if g.s.probing then 0 else if g.s.b.disabled then 2 else 1 }

  lemma OnwardKeepsDown(u: Setup, es: seq<GapStep>)
    requires u.healthyAfter >= 1 && !InOrder(u, es) && Exact(u, es, Onward(GapRun(u, es)))
    ensures !PassesInGap(u, es, Onward(GapRun(u, es)))
    ensures !InOrder(u, es + [Onward(GapRun(u, es))])
  {
    var g := GapRun(u, es);
    assert (es + [Onward(g)])[..|es|] == es;
    RunsAligned(u, es);
    RecoveryStep(u, g, Onward(g));
  }

  lemma {:induction false} MisplacedGoesWrong(u: Setup, es: seq<GapStep>) returns (more: seq<GapStep>)
    requires u.healthyAfter >= 1 && !InOrder(u, es)
    ensures GoesWrong(u, es, more)
    decreases Pending(GapRun(u, es)), u.healthyAfter - GapRun(u, es).s.b.succs, BeforePass(GapRun(u, es))
  {
    var g := GapRun(u, es);
    var e := Onward(g);
    RunsAligned(u, es);
    if Exact(u, es, e) {
      OnwardKeepsDown(u, es);
      assert (es + [e])[..|es|] == es;
      more := MisplacedGoesWrong(u, es + [e]);
      GoesWrongLater(u, es, e, more);
      more := [e] + more;
    } else {
      GoesWrongNow(u, es, e);
      more := [e];
    }
  }

  // ---------- The exact conditions ----------

  /** From the end of a run on, as long as no further passed check falls into a gap, every recovery comes on
      exactly the threshold pass: this holds exactly when the backend is up or no pass of its current streak fell
      into the gap of a failing dial. */
  lemma ExactAheadIff(u: Setup, es: seq<GapStep>)
    requires u.healthyAfter >= 1
    ensures (forall more :: NonePassesInGap(u, es + more, |es|) ==> ExactFrom(u, es + more, |es|)) <==> InOrder(u, es)
  {
    if InOrder(u, es) {
      forall more | NonePassesInGap(u, es + more, |es|) ensures ExactFrom(u, es + more, |es|) {
        ExactWhileInOrder(u, es + more, |es|);
      }
    } else {
      var more := MisplacedGoesWrong(u, es);
    }
  }

  lemma ExactWhileInOrder(u: Setup, es: seq<GapStep>, from: nat)
    requires u.healthyAfter >= 1 && from <= |es| && InOrder(u, es[..from]) && NonePassesInGap(u, es, from)
    ensures ExactFrom(u, es, from)
  {
    forall i | from <= i < |es| ensures Exact(u, es[..i], es[i]) {
      StaysInOrder(u, es, from, i);
      ExactInOrder(u, es[..i], es[i]);
    }
  }

  /** In particular, a run in which no passed check falls into a gap recovers on exactly the threshold pass. */
  lemma ExactWithoutGapPasses(u: Setup, es: seq<GapStep>)
    requires u.healthyAfter >= 1 && NonePassesInGap(u, es, 0)
    ensures ExactFrom(u, es, 0)
  {
    assert es[..0] == [];
    ExactWhileInOrder(u, es, 0);
  }

  // ---------- Setups that are exact in every run ----------

  lemma {:induction false} NoGapWithoutThreshold(u: Setup, es: seq<GapStep>)
    requires u.unhealthyAfter <= 0
    ensures GapRun(u, es).guarded == 0 && GapRun(u, es).down == 0
  {
    if es != [] { NoGapWithoutThreshold(u, es[..|es| - 1]); }
  }

  lemma {:induction false} FirstPassRecovers(u: Setup, es: seq<GapStep>)
    requires u.healthyAfter == 1
    ensures !GapRun(u, es).s.b.healthy ==> Streak(u, es) == 0
  {
    if es != [] {
      var t, e := es[..|es| - 1], es[|es| - 1];
      FirstPassRecovers(u, t);
      RunsAligned(u, t);
      RecoveryStep(u, GapRun(u, t), e);
    }
  }

  /** `n` failing dials up to their guards, one after the other. */
  function FailingDials(n: nat): seq<GapStep> {
    if n == 0 then [] else FailingDials(n - 1) + [Whole(DialSelect), Count(0), Guard]
  }

  lemma RunThree(u: Setup, t: seq<GapStep>, a: GapStep, b: GapStep, c: GapStep)
    ensures GapRun(u, t + [a, b, c]) == GapNext(u, GapNext(u, GapNext(u, GapRun(u, t), a), b), c)
  {
    assert (t + [a, b, c])[..|t| + 2] == t + [a, b] && (t + [a, b])[..|t| + 1] == t + [a] && (t + [a])[..|t|] == t;
    assert GapRun(u, t + [a]) == GapNext(u, GapRun(u, t), a);
    assert GapRun(u, t + [a, b]) == GapNext(u, GapRun(u, t + [a]), b);
  }

  lemma {:induction false} FailingDialsPileUp(u: Setup, n: nat)
    requires n <= u.unhealthyAfter
    ensures var g := GapRun(u, FailingDials(n));
            && g.s.b.healthy && !g.s.b.disabled && g.s.b.fails == n && g.s.b.succs == 0 && g.s.b.conns == 0
            && g.s.b.maxConns == u.maxConns && g.s.inFlight == 0 && g.counted == 0 && g.down == 0
            && g.guarded == (if n > 0 && n == u.unhealthyAfter then 1 else 0)
  {
    if n > 0 {
      FailingDialsPileUp(u, n - 1);
      RunThree(u, FailingDials(n - 1), Whole(DialSelect), Count(0), Guard);
    }
  }

  /** The last of them takes the backend down, and a health check passes before it resets the counter. */
  function PassBeforeReset(u: Setup): seq<GapStep>
    requires u.unhealthyAfter >= 1
  {
    FailingDials(u.unhealthyAfter) + [TakeDown, Whole(CheckStart), Whole(CheckEnd(Some(0)))]
  }

  lemma PassBeforeResetIsMisplaced(u: Setup)
    requires u.unhealthyAfter >= 1 && u.healthyAfter >= 2
    ensures !InOrder(u, PassBeforeReset(u))
  {
    var t, es := FailingDials(u.unhealthyAfter), PassBeforeReset(u);
    FailingDialsPileUp(u, u.unhealthyAfter);
    RunThree(u, t, TakeDown, Whole(CheckStart), Whole(CheckEnd(Some(0))));
    var two := t + [TakeDown, Whole(CheckStart)];
    assert es[..|es| - 1] == two && two[..|two| - 1] == t + [TakeDown] && (t + [TakeDown])[..|t|] == t;
    assert GapRun(u, two) == GapNext(u, GapNext(u, GapRun(u, t), TakeDown), Whole(CheckStart));
  }

  /** Every run of a setup recovers on exactly the threshold pass exactly when the threshold is a single pass, or
      when no failed dial ever takes a backend down. */
  lemma AlwaysExactIff(u: Setup)
    requires u.healthyAfter >= 1
    ensures (forall es :: ExactFrom(u, es, 0)) <==> u.healthyAfter == 1 || u.unhealthyAfter <= 0
  {
    if u.healthyAfter == 1 || u.unhealthyAfter <= 0 {
      forall es ensures ExactFrom(u, es, 0) {
        forall i | 0 <= i < |es| ensures Exact(u, es[..i], es[i]) { ExactForSetup(u, es[..i], es[i]); }
      }
    } else {
      PassBeforeResetIsMisplaced(u);
      var es := PassBeforeReset(u);
      var more := MisplacedGoesWrong(u, es);
      var i :| |es| <= i < |es + more| && !Exact(u, (es + more)[..i], (es + more)[i]);
      assert !ExactFrom(u, es + more, 0);
    }
  }

  lemma ExactForSetup(u: Setup, es: seq<GapStep>, e: GapStep)
    requires u.healthyAfter == 1 || (u.healthyAfter >= 1 && u.unhealthyAfter <= 0)
    ensures Exact(u, es, e)
  {
    RunsAligned(u, es);
    RecoveryStep(u, GapRun(u, es), e);
    if u.healthyAfter == 1 {
      FirstPassRecovers(u, es);
    } else {
      NoGapWithoutThreshold(u, es);
      NoMisplacedWithoutThreshold(u, es);
    }
  }

  lemma {:induction false} NoMisplacedWithoutThreshold(u: Setup, es: seq<GapStep>)
    requires u.unhealthyAfter <= 0
    ensures !Misplaced(u, es)
  {
    if es != [] {
      NoGapWithoutThreshold(u, es[..|es| - 1]);
      NoMisplacedWithoutThreshold(u, es[..|es| - 1]);
    }
  }
}
