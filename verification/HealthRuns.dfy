/** The health flag, the trust coefficient and the latency window over whole runs of one backend. */
module HealthRuns {
  import opened Wrappers
  import opened Stats
  import opened BackendModel

  // ---------- The story of a run ----------

  /** What the health of a backend hears about: the ends of health checks and of dials. */
  datatype Outcome = Pass | Miss | DialOk | DialFail

  datatype Health = Health(fails: int, succs: int, healthy: bool, trust: int)

  function HealthOf(b: State): Health { Health(b.fails, b.succs, b.healthy, b.trust) }

  /** The checks and dials that ended in a run, in order. */
  function Story(u: Setup, es: seq<Step>): seq<Outcome> {
    if es == [] then []
    else
      var s, e := Run(u, es[..|es| - 1]), es[|es| - 1];
      Story(u, es[..|es| - 1]) +
      match e
      case CheckEnd(ping) => if !s.probing then [] else if ping.Some? then [Pass] else [Miss]
      case DialEnd(_, player) => if s.inFlight == 0 then [] else if player.Some? then [DialOk] else [DialFail]
      case _ => []
  }

  function React(u: Setup, h: Health, o: Outcome): Health {
    match o
    case Pass =>
      if h.healthy then Health(0, h.succs + 1, true, if h.trust + 10 > 100 then 100 else h.trust + 10)
      else if h.succs + 1 >= u.healthyAfter then Health(0, 0, true, 50)
      else Health(0, h.succs + 1, false, h.trust)
    case Miss => Health(h.fails + 1, 0, h.healthy && h.fails + 1 < u.unhealthyAfter, h.trust)
    case DialOk => h.(fails := 0)
    case DialFail =>
      if h.healthy && u.unhealthyAfter > 0 && h.fails + 1 >= u.unhealthyAfter
      then Health(h.fails + 1, 0, false, h.trust)
      else h.(fails := h.fails + 1)
  }

  function HealthAfter(u: Setup, os: seq<Outcome>): Health {
    if os == [] then Health(0, 0, true, 100) else React(u, HealthAfter(u, os[..|os| - 1]), os[|os| - 1])
  }

  /** The health of a backend is a function of its story: selections, closes, enabling and disabling, the
      latencies and the players have no influence on it. So what is proved below of every story holds of
      every run. */
  lemma {:induction false} HealthFollowsStory(u: Setup, es: seq<Step>)
    ensures HealthOf(Run(u, es).b) == HealthAfter(u, Story(u, es))
  {
    if es != [] {
      var t := es[..|es| - 1];
      HealthFollowsStory(u, t);
      assert es == t + [es[|es| - 1]];
      NextReacts(u, t, es[|es| - 1]);
      RunOneMore(u, t, es[|es| - 1]);
    }
  }

  lemma ChecksReact(u: Setup, b: State, ns: nat)
    requires b.trust <= 100
    ensures HealthOf(CheckPassed(b, u.healthyAfter, ns)) == React(u, HealthOf(b), Pass)
    ensures HealthOf(CheckMissed(b, u.unhealthyAfter)) == React(u, HealthOf(b), Miss)
  {
  }

  lemma DialsReact(u: Setup, b: State, ns: nat, name: string)
    ensures HealthOf(DialSucceeded(b, ns, name)) == React(u, HealthOf(b), DialOk)
    ensures HealthOf(DialFailed(b, u.unhealthyAfter, ns)) == React(u, HealthOf(b), DialFail)
    ensures HealthOf(RemovePlayer(b, name)) == HealthOf(b)
  {
  }

  lemma StoryGrows(u: Setup, os: seq<Outcome>, o: Outcome)
    ensures HealthAfter(u, os + [o]) == React(u, HealthAfter(u, os), o)
  {
    assert (os + [o])[..|os|] == os;
  }

  lemma RunOneMore(u: Setup, t: seq<Step>, e: Step)
    ensures Run(u, t + [e]) == Next(u, Run(u, t), e)
  {
    assert (t + [e])[..|t|] == t;
  }

  lemma NextReacts(u: Setup, t: seq<Step>, e: Step)
    requires HealthOf(Run(u, t).b) == HealthAfter(u, Story(u, t))
    ensures HealthOf(Next(u, Run(u, t), e).b) == HealthAfter(u, Story(u, t + [e]))
  {
    var s := Run(u, t);
    assert (t + [e])[..|t|] == t;
    RunsStayValid(u, t);
    match e {
      case CheckEnd(ping) =>
        ChecksReact(u, s.b, if ping.Some? then ping.value else 0);
        StoryGrows(u, Story(u, t), if ping.Some? then Pass else Miss);
      case DialEnd(ns, player) =>
        DialsReact(u, s.b, ns, if player.Some? then player.value else "");
        StoryGrows(u, Story(u, t), if player.Some? then DialOk else DialFail);
      case Close(id) =>
        if id < |s.handed| { DialsReact(u, s.b, 0, s.handed[id].player); }
      case _ =>
    }
    assert Story(u, t) + [] == Story(u, t);
  }

  // ---------- Counting in a story ----------

  datatype What =
    | APass | AMiss | PassWhileHealthy | Failure | Success
    | GoesDown  // the outcome takes the health flag from true to false
    | Recovers  // ... and from false to true

  predicate Happens(u: Setup, h: Health, o: Outcome, what: What) {
    match what
    case APass => o == Pass
    case AMiss => o == Miss
    case PassWhileHealthy => o == Pass && h.healthy
    case Failure => o == Miss || o == DialFail
    case Success => o == Pass || o == DialOk
    case GoesDown => h.healthy && !React(u, h, o).healthy
    case Recovers => !h.healthy && React(u, h, o).healthy
  }

  predicate HappensAt(u: Setup, os: seq<Outcome>, i: nat, what: What)
    requires i < |os|
  {
    Happens(u, HealthAfter(u, os[..i]), os[i], what)
  }

  /** How many times it happened at position `from` of the story or later. */
  function Count(u: Setup, os: seq<Outcome>, from: nat, what: What): nat {
    if |os| <= from then 0
    else Count(u, os[..|os| - 1], from, what) + if HappensAt(u, os, |os| - 1, what) then 1 else 0
  }

  /** The position just after the last time it happened; 0 when it never did. */
  function After(u: Setup, os: seq<Outcome>, what: What): (k: nat)
    ensures k <= |os|
  {
    if os == [] then 0
    else if HappensAt(u, os, |os| - 1, what) then |os|
    else After(u, os[..|os| - 1], what)
  }

  /** `After` is what its name says. */
  lemma {:induction false} AfterIsAfterTheLast(u: Setup, os: seq<Outcome>, what: What, i: nat)
    requires i < |os|
    ensures i == After(u, os, what) - 1 ==> HappensAt(u, os, i, what)
    ensures i >= After(u, os, what) ==> !HappensAt(u, os, i, what)
  {
    if i < |os| - 1 {
      AfterIsAfterTheLast(u, os[..|os| - 1], what, i);
      assert os[..|os| - 1][..i] == os[..i];
    }
  }

  // ---------- What the counters mean ----------

  function Max(a: nat, b: nat): nat { if a >= b then a else b }

  /** Where the current streak of passed checks starts: after the backend last went down or a check was
      last missed, whichever is later. */
  function StreakStart(u: Setup, os: seq<Outcome>): nat {
    Max(After(u, os, GoesDown), After(u, os, AMiss))
  }

  /** The failure counter is the number of failures since the last success, of checks and dials alike. */
  lemma {:induction false} FailuresSinceLastSuccess(u: Setup, os: seq<Outcome>)
    ensures HealthAfter(u, os).fails == Count(u, os, After(u, os, Success), Failure)
  {
    if os != [] {
      FailuresSinceLastSuccess(u, os[..|os| - 1]);
    }
  }

  /** While the backend is down, the success counter is the number of checks passed since it went down or
      since the last missed check. (While it is up the counter just grows.) */
  lemma {:induction false} PassesSinceSetback(u: Setup, os: seq<Outcome>)
    ensures var h := HealthAfter(u, os);
            !h.healthy ==> h.succs == Count(u, os, StreakStart(u, os), APass)
  {
    if os != [] {
      PassesSinceSetback(u, os[..|os| - 1]);
    }
  }

  /** Trust in closed form: full for a backend that never recovered, otherwise half plus a tenth for every
      check passed while healthy since the last recovery, whatever else happened in between. */
  lemma {:induction false} TrustClosedForm(u: Setup, os: seq<Outcome>)
    ensures HealthAfter(u, os).trust ==
            if After(u, os, Recovers) == 0 then 100
            else
              var k := Count(u, os, After(u, os, Recovers), PassWhileHealthy);
              if k >= 5 then 100 else 50 + 10 * k
  {
    if os != [] {
      TrustClosedForm(u, os[..|os| - 1]);
    }
  }

  // ---------- Hysteresis ----------

  lemma {:induction false} HealthyBelowFailureThreshold(u: Setup, os: seq<Outcome>)
    requires u.unhealthyAfter >= 1
    ensures var h := HealthAfter(u, os);
            h.healthy ==> h.fails < u.unhealthyAfter
  {
    if os != [] {
      HealthyBelowFailureThreshold(u, os[..|os| - 1]);
    }
  }

  lemma {:induction false} UnhealthyBelowSuccessThreshold(u: Setup, os: seq<Outcome>)
    requires u.healthyAfter >= 1
    ensures var h := HealthAfter(u, os);
            !h.healthy ==> h.succs < u.healthyAfter
  {
    if os != [] {
      UnhealthyBelowSuccessThreshold(u, os[..|os| - 1]);
    }
  }

  /** In every reachable state of a backend with positive thresholds: up means fewer failures than the
      threshold, down means fewer passed checks than the threshold, and trust is one of six values. */
  lemma {:induction false} HysteresisOfRuns(u: Setup, es: seq<Step>)
    requires u.unhealthyAfter >= 1 && u.healthyAfter >= 1
    ensures var b := Run(u, es).b;
            && (b.healthy ==> b.fails < u.unhealthyAfter)
            && (!b.healthy ==> b.succs < u.healthyAfter)
            && b.trust in {50, 60, 70, 80, 90, 100}
  {
    HealthFollowsStory(u, es);
    HysteresisOfStories(u, Story(u, es));
  }

  lemma {:induction false} HysteresisOfStories(u: Setup, os: seq<Outcome>)
    requires u.unhealthyAfter >= 1 && u.healthyAfter >= 1
    ensures var h := HealthAfter(u, os);
            WithinThresholds(u, h) && h.trust in {50, 60, 70, 80, 90, 100}
  {
    HealthyBelowFailureThreshold(u, os);
    UnhealthyBelowSuccessThreshold(u, os);
    TrustClosedForm(u, os);
  }

  /** After any story, the next outcome takes the backend down exactly when it is the failure that completes
      `unhealthyAfter` failures without a success in between. */
  lemma GoesDownOnThresholdFailure(u: Setup, os: seq<Outcome>, o: Outcome)
    requires u.unhealthyAfter >= 1
    ensures var h := HealthAfter(u, os);
            Happens(u, h, o, GoesDown) <==>
            && h.healthy
            && Happens(u, h, o, Failure)
            && Count(u, os, After(u, os, Success), Failure) == u.unhealthyAfter - 1
  {
    FailuresSinceLastSuccess(u, os);
    HealthyBelowFailureThreshold(u, os);
  }

  /** After any story, the next outcome recovers the backend exactly when it is the passed check that
      completes `healthyAfter` of them since it went down or since the last missed check. */
  lemma RecoversOnThresholdPass(u: Setup, os: seq<Outcome>, o: Outcome)
    requires u.healthyAfter >= 1
    ensures var h := HealthAfter(u, os);
            Happens(u, h, o, Recovers) <==>
            && !h.healthy
            && o == Pass
            && Count(u, os, StreakStart(u, os), APass) == u.healthyAfter - 1
  {
    PassesSinceSetback(u, os);
    UnhealthyBelowSuccessThreshold(u, os);
  }

  /** Flapping is paid for: `unhealthyAfter` failures for every time down, `healthyAfter` passed checks for
      every recovery; and the two alternate. */
  lemma FlipBudget(u: Setup, os: seq<Outcome>)
    requires u.unhealthyAfter >= 1 && u.healthyAfter >= 1
    ensures u.unhealthyAfter * Count(u, os, 0, GoesDown) <= Count(u, os, 0, Failure)
    ensures u.healthyAfter * Count(u, os, 0, Recovers) <= Count(u, os, 0, APass)
    ensures Count(u, os, 0, GoesDown) == Count(u, os, 0, Recovers) + if HealthAfter(u, os).healthy then 0 else 1
  {
    FailureBudget(u, os);
    PassBudget(u, os);
    FlipsAlternate(u, os);
    FailuresSinceLastSuccess(u, os);
    PassesSinceSetback(u, os);
  }

  lemma {:induction false} FlipsAlternate(u: Setup, os: seq<Outcome>)
    ensures Count(u, os, 0, GoesDown) == Count(u, os, 0, Recovers) + if HealthAfter(u, os).healthy then 0 else 1
  {
    if os != [] {
      FlipsAlternate(u, os[..|os| - 1]);
    }
  }

  lemma {:induction false} FailureBudget(u: Setup, os: seq<Outcome>)
    requires u.unhealthyAfter >= 1
    ensures var h := HealthAfter(u, os);
            u.unhealthyAfter * Count(u, os, 0, GoesDown) + (if h.healthy then h.fails else 0)
            <= Count(u, os, 0, Failure)
  {
    if os != [] {
      var t := os[..|os| - 1];
      FailureBudget(u, t);
      FailuresSinceLastSuccess(u, t);
      HealthyBelowFailureThreshold(u, t);
      var downs := Count(u, t, 0, GoesDown);
      OneMore(u.unhealthyAfter, downs);
    }
  }

  lemma {:induction false} PassBudget(u: Setup, os: seq<Outcome>)
    requires u.healthyAfter >= 1
    ensures var h := HealthAfter(u, os);
            u.healthyAfter * Count(u, os, 0, Recovers) + (if h.healthy then 0 else h.succs)
            <= Count(u, os, 0, APass)
  {
    if os != [] {
      var t := os[..|os| - 1];
      PassBudget(u, t);
      PassesSinceSetback(u, t);
      UnhealthyBelowSuccessThreshold(u, t);
      var ups := Count(u, t, 0, Recovers);
      OneMore(u.healthyAfter, ups);
    }
  }

  lemma OneMore(a: int, n: int)
    ensures a * (n + 1) == a * n + a
  {
  }

  // ---------- Thresholds of zero or less ----------

  predicate WithinThresholds(u: Setup, h: Health) {
    if h.healthy then h.fails < u.unhealthyAfter else h.succs < u.healthyAfter
  }

  /** Hysteresis holds of every story exactly when both thresholds are positive. */
  lemma HysteresisNeedsPositiveThresholds(u: Setup)
    ensures (forall os :: WithinThresholds(u, HealthAfter(u, os))) <==> u.unhealthyAfter >= 1 && u.healthyAfter >= 1
  {
    if u.unhealthyAfter >= 1 && u.healthyAfter >= 1 {
      forall os ensures WithinThresholds(u, HealthAfter(u, os)) {
        HealthyBelowFailureThreshold(u, os);
        UnhealthyBelowSuccessThreshold(u, os);
      }
    } else if u.unhealthyAfter < 1 {
      assert !WithinThresholds(u, HealthAfter(u, []));
    } else {
      MissesTakeDown(u, u.unhealthyAfter);
      assert !WithinThresholds(u, HealthAfter(u, seq(u.unhealthyAfter, _ => Miss)));
    }
  }

  lemma {:induction false} MissesTakeDown(u: Setup, n: nat)
    requires u.unhealthyAfter >= 1
    ensures var h := HealthAfter(u, seq(n, _ => Miss));
            h.fails == n && h.succs == 0 && (h.healthy <==> n < u.unhealthyAfter)
  {
    if n > 0 {
      MissesTakeDown(u, n - 1);
      assert seq(n, _ => Miss)[..n - 1] == seq(n - 1, _ => Miss);
    }
  }

  /** Without a positive failure threshold the two paths disagree: any missed check takes the backend down,
      while no failed dial ever does; with one, a failed dial can. */
  lemma DialsIgnoreNonPositiveThreshold(unhealthyAfter: int)
    ensures unhealthyAfter <= 0 ==> forall b: State :: b.fails >= 0 ==> !CheckMissed(b, unhealthyAfter).healthy
    ensures (forall b: State, ns: nat :: b.healthy ==> DialFailed(b, unhealthyAfter, ns).healthy)
            <==> unhealthyAfter <= 0
  {
    if unhealthyAfter > 0 {
      var b := Fresh("", 0, 1).(fails := unhealthyAfter);
      assert b.healthy && !DialFailed(b, unhealthyAfter, 0).healthy;
    }
  }

  // ---------- The window of a run ----------

  /** The latencies a step records, in milliseconds. */
  function Recorded(s: System, e: Step): seq<int> {
    match e
    case CheckEnd(ping) => if s.probing && ping.Some? then [Milliseconds(ping.value)] else []
    case DialEnd(ns, _) => if s.inFlight > 0 then [Milliseconds(ns)] else []
    case _ => []
  }

  /** Every latency recorded in a run, oldest first. */
  function Samples(u: Setup, es: seq<Step>): seq<int> {
    if es == [] then []
    else Samples(u, es[..|es| - 1]) + Recorded(Run(u, es[..|es| - 1]), es[|es| - 1])
  }

  /** A check that passed and a dial that ended, connected or not, after at least `ms` and less than `ms + 1`
      milliseconds enter the window as its last sample; nothing else changes the window. */
  lemma LastSample(u: Setup, s: System, e: Step, ms: nat, ns: nat)
    requires ms * 1_000_000 <= ns < (ms + 1) * 1_000_000
    ensures var w := Next(u, s, e).b.window;
            && ((s.probing && e == CheckEnd(Some(ns))) || (s.inFlight > 0 && e.DialEnd? && e.ns == ns) ==>
                  w != [] && w[|w| - 1] == ms)
            && (!(e.CheckEnd? && e.ping.Some?) && !e.DialEnd? ==> w == s.b.window)
  {
  }

  /** The health checks leave a disabled backend alone: a run that goes on without enabling it, and with no check under
      way, starts and ends none, and without a dial in flight its health does not change. */
  lemma {:induction false} DisabledIsNotChecked(u: Setup, es: seq<Step>, more: seq<Step>)
    requires Run(u, es).b.disabled && !Run(u, es).probing
    requires forall i :: 0 <= i < |more| ==> more[i] != SetDisabled(false)
    ensures var s, s' := Run(u, es), Run(u, es + more);
            && s'.b.disabled && !s'.probing && s'.inFlight <= s.inFlight
            && (s.inFlight == 0 ==> HealthOf(s'.b) == HealthOf(s.b) && s'.b.window == s.b.window)
  {
    if more == [] {
      assert es + more == es;
    } else {
      var t, e := more[..|more| - 1], more[|more| - 1];
      assert forall i :: 0 <= i < |t| ==> t[i] == more[i];
      DisabledIsNotChecked(u, es, t);
      assert es + more == es + t + [e];
      RunOneMore(u, es + t, e);
      DisabledStep(u, Run(u, es + t), e);
    }
  }

  lemma DisabledStep(u: Setup, s: System, e: Step)
    requires s.b.disabled && !s.probing && e != SetDisabled(false)
    ensures var s' := Next(u, s, e);
            && s'.b.disabled && !s'.probing && s'.inFlight <= s.inFlight
            && (s.inFlight == 0 ==> HealthOf(s'.b) == HealthOf(s.b) && s'.b.window == s.b.window)
  {
  }

  /** The switch does what it says, and an enabled backend is checked. */
  lemma SwitchAndCheck(u: Setup, s: System, on: bool)
    ensures Next(u, s, SetDisabled(on)).b == s.b.(disabled := on)
    ensures !s.b.disabled ==> Next(u, s, CheckStart).probing
  {
  }

  /** After any run the window is exactly the last `windowSize` latencies of passed checks and of dials
      that ended, failed ones included; missed checks leave no sample. */
  lemma WindowRefinesSampleLog(u: Setup, es: seq<Step>)
    ensures Run(u, es).b.window == Recent(Samples(u, es), u.windowSize)
  {
    WindowIsWindowedLog(u, es);
    WindowIsRecentLog(Samples(u, es), u.windowSize);
  }

  lemma NextRecords(u: Setup, s: System, e: Step)
    ensures |Recorded(s, e)| <= 1
    ensures Next(u, s, e).b.windowSize == s.b.windowSize
    ensures var r := Recorded(s, e);
            Next(u, s, e).b.window == if r == [] then s.b.window else Push(s.b.window, s.b.windowSize, r[0])
  {
  }

  lemma WindowedGrows(log: seq<int>, windowSize: pos, r: seq<int>)
    requires |r| <= 1
    ensures Windowed(log + r, windowSize)
         == if r == [] then Windowed(log, windowSize) else Push(Windowed(log, windowSize), windowSize, r[0])
  {
    if r == [] {
      assert log + r == log;
    } else {
      assert (log + r)[..|log|] == log;
    }
  }

  lemma {:induction false} WindowIsWindowedLog(u: Setup, es: seq<Step>)
    ensures Run(u, es).b.window == Windowed(Samples(u, es), u.windowSize)
    ensures Run(u, es).b.windowSize == u.windowSize
  {
    if es != [] {
      var t := es[..|es| - 1];
      WindowIsWindowedLog(u, t);
      NextRecords(u, Run(u, t), es[|es| - 1]);
      WindowedGrows(Samples(u, t), u.windowSize, Recorded(Run(u, t), es[|es| - 1]));
    }
  }
}
