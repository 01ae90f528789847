/** Starting one server: the start command, then polling for the process and for connectivity
    (internal/dynamicserver/manager.go:128-253). What the outside answers at each attempt is an input. */
module Startup {
  import opened Wrappers

  datatype Config = Config(startupTimeout: int, pollInterval: int, connectivityTimeout: int)

  /** The answer to a status request: an error, or a status code. */
  datatype StatusAnswer = Failed | Status(code: int)

  /** The outside world during one start, by attempt: whether the manager's context is done, the status, and
      for each backend whether its address resolved and it answered a ping (Some(true)). */
  datatype World = World(
    uuidKnown: bool, startAccepted: bool, registered: bool,
    doneAtStatus: nat -> bool, status: nat -> StatusAnswer,
    doneAtPing: nat -> bool, pings: nat -> seq<Option<bool>>)

  /** Go's division, for a positive divisor: it truncates towards zero. */
  function Quotient(a: int, b: int): int
    requires b >= 1
  {
    if a >= 0 then a / b else -((-a) / b)
  }

  /** How many attempts fit into a timeout, and their sleeps into it. */
  lemma AttemptsFit(timeout: int, interval: int)
    requires interval >= 1
    ensures timeout >= 0 ==> Quotient(timeout, interval) * interval <= timeout
    ensures timeout < interval ==> Quotient(timeout, interval) <= 0
  {
  }

  /** Attempt `a` is made exactly when its sleep, and those before it, fit into the timeout. */
  lemma AttemptMadeIff(timeout: int, interval: int, a: nat)
    requires interval >= 1
    ensures a < Quotient(timeout, interval) <==> (a + 1) * interval <= timeout
  {
    var q := Quotient(timeout, interval);
    if timeout >= 0 {
      assert q * interval <= timeout < (q + 1) * interval;
      if a < q { assert (q - (a + 1)) * interval >= 0; } else { assert (a - q) * interval >= 0; }
    } else {
      assert (a + 1) * interval >= 0;
    }
  }

  function Budget(timeout: int): nat { if timeout >= 0 then timeout else 0 }

  lemma SleepsFit(timeout: int, interval: int, sleeps: nat)
    requires interval >= 1 && (sleeps == 0 || sleeps <= Quotient(timeout, interval))
    ensures sleeps * interval <= Budget(timeout)
  {
    if sleeps > 0 {
      AttemptsFit(timeout, interval);
      assert sleeps * interval <= Quotient(timeout, interval) * interval;
    }
  }

  // ---------- One connectivity check ----------

  predicate Reachable(pings: seq<Option<bool>>) {
    exists i :: 0 <= i < |pings| && pings[i] == Some(true)
  }

  /** Tries the backends in order, skipping addresses that do not resolve. */
  method CheckAnyBackendReachable(pings: seq<Option<bool>>) returns (reachable: bool)
    ensures reachable <==> Reachable(pings)
  {
    for i := 0 to |pings|
      invariant forall j :: 0 <= j < i ==> pings[j] != Some(true)
    {
      if pings[i].None? {
        continue;
      }
      if pings[i].value {
        return true;
      }
    }
    return false;
  }

  // ---------- The polling loops ----------

  /** The status means that the server is still coming up (or could not be read): poll again. */
  predicate KeepsPolling(a: StatusAnswer) { a.Failed? || a.code == 0 || a.code == 1 || a.code == 2 }

  /** Status 3 is read at attempt `a`, after attempts that all kept polling, and the context is not done. */
  predicate RunningAt(w: World, a: nat) {
    && w.status(a) == Status(3) && !w.doneAtStatus(a)
    && forall i :: 0 <= i < a ==> KeepsPolling(w.status(i)) && !w.doneAtStatus(i)
  }

  /** Some backend answers at attempt `a`, the first to do so, and the context is not done. */
  predicate AnswersAt(w: World, a: nat) {
    && Reachable(w.pings(a)) && !w.doneAtPing(a)
    && forall i :: 0 <= i < a ==> !Reachable(w.pings(i)) && !w.doneAtPing(i)
  }

  /** A server that is not registered in the proxy is never reached. */
  ghost predicate Connects(cfg: Config, w: World)
    requires cfg.pollInterval >= 1
  {
    w.registered && exists a :: 0 <= a < Quotient(cfg.connectivityTimeout, cfg.pollInterval) && AnswersAt(w, a)
  }

  ghost predicate BecomesReady(cfg: Config, w: World)
    requires cfg.pollInterval >= 1
  {
    (exists a :: 0 <= a < Quotient(cfg.startupTimeout, cfg.pollInterval) && RunningAt(w, a)) && Connects(cfg, w)
  }

  /** Status 3 at attempt `a`, which the startup timeout leaves room for, after nothing but failed requests and the
      statuses 0, 1 and 2. */
  ghost predicate StatusInTime(cfg: Config, w: World, a: nat) {
    && (a + 1) * cfg.pollInterval <= cfg.startupTimeout && w.status(a) == Status(3) && !w.doneAtStatus(a)
    && forall i: nat :: i < a ==> w.status(i) in {Failed, Status(0), Status(1), Status(2)} && !w.doneAtStatus(i)
  }

  /** A backend that answers at attempt `a`, which the connectivity timeout leaves room for, and none before. */
  ghost predicate AnswerInTime(cfg: Config, w: World, a: nat) {
    && (a + 1) * cfg.pollInterval <= cfg.connectivityTimeout && Some(true) in w.pings(a) && !w.doneAtPing(a)
    && forall i: nat :: i < a ==> Some(true) !in w.pings(i) && !w.doneAtPing(i)
  }

  lemma ReachableIffAnswered(pings: seq<Option<bool>>)
    ensures Reachable(pings) <==> Some(true) in pings
  {
  }

  lemma RunningIffStatusInTime(cfg: Config, w: World, a: nat)
    requires cfg.pollInterval >= 1
    ensures a < Quotient(cfg.startupTimeout, cfg.pollInterval) && RunningAt(w, a) <==> StatusInTime(cfg, w, a)
  {
    AttemptMadeIff(cfg.startupTimeout, cfg.pollInterval, a);
    forall i: nat ensures KeepsPolling(w.status(i)) <==> w.status(i) in {Failed, Status(0), Status(1), Status(2)} {
      PollingStatuses(w.status(i));
    }
  }

  lemma PollingStatuses(answer: StatusAnswer)
    ensures KeepsPolling(answer) <==> answer in {Failed, Status(0), Status(1), Status(2)}
  {
  }

  lemma AnswersIffAnswerInTime(cfg: Config, w: World, a: nat)
    requires cfg.pollInterval >= 1
    ensures a < Quotient(cfg.connectivityTimeout, cfg.pollInterval) && AnswersAt(w, a) <==> AnswerInTime(cfg, w, a)
  {
    AttemptMadeIff(cfg.connectivityTimeout, cfg.pollInterval, a);
    forall i: nat | i <= a ensures Reachable(w.pings(i)) <==> Some(true) in w.pings(i) { ReachableIffAnswered(w.pings(i)); }
  }

  /** A server becomes ready exactly when it is registered and, with every attempt followed by a sleep of one poll
      interval, status 3 is read within the startup timeout and an answer within the connectivity timeout. */
  lemma ReadyIffInTime(cfg: Config, w: World)
    requires cfg.pollInterval >= 1
    ensures BecomesReady(cfg, w) <==>
              && w.registered && (exists a: nat :: StatusInTime(cfg, w, a)) && (exists a: nat :: AnswerInTime(cfg, w, a))
  {
    if a: nat :| StatusInTime(cfg, w, a) { RunningIffStatusInTime(cfg, w, a); }
    if a: nat :| AnswerInTime(cfg, w, a) { AnswersIffAnswerInTime(cfg, w, a); }
    if BecomesReady(cfg, w) {
      var a :| 0 <= a < Quotient(cfg.startupTimeout, cfg.pollInterval) && RunningAt(w, a);
      RunningIffStatusInTime(cfg, w, a);
      var b :| 0 <= b < Quotient(cfg.connectivityTimeout, cfg.pollInterval) && AnswersAt(w, b);
      AnswersIffAnswerInTime(cfg, w, b);
    }
  }

  /** True exactly when a backend answers within the attempts; every attempt that fails sleeps once, except
      that it stops at once when the context is done. */
  method CheckServerConnectivity(cfg: Config, w: World) returns (ok: bool, polls: nat, slept: nat)
    requires cfg.pollInterval >= 1
    ensures ok <==> Connects(cfg, w)
    ensures polls == 0 || polls <= Quotient(cfg.connectivityTimeout, cfg.pollInterval)
    ensures slept <= Budget(cfg.connectivityTimeout)
  {
    ok, polls, slept := false, 0, 0;
    if !w.registered {
      return;
    }
    var maxAttempts := Quotient(cfg.connectivityTimeout, cfg.pollInterval);
    var attempt := 0;
    while attempt < maxAttempts
      invariant 0 <= attempt && (attempt == 0 || attempt <= maxAttempts)
      invariant polls == attempt && slept == attempt * cfg.pollInterval
      invariant forall i :: 0 <= i < attempt ==> !Reachable(w.pings(i)) && !w.doneAtPing(i)
    {
      SleepsFit(cfg.connectivityTimeout, cfg.pollInterval, attempt);
      if w.doneAtPing(attempt) {
        return;
      }
      polls := polls + 1;
      var reachable := CheckAnyBackendReachable(w.pings(attempt));
      if reachable {
        assert AnswersAt(w, attempt);
        ok := true;
        return;
      }
      slept := slept + cfg.pollInterval;
      attempt := attempt + 1;
    }
    SleepsFit(cfg.connectivityTimeout, cfg.pollInterval, attempt);
  }

  /** True exactly when status 3 is read in time, after nothing but transient answers, and a backend then
      answers in time. However it ends, polls and sleeps stay within the two timeouts. */
  method WaitForServerReady(cfg: Config, w: World)
    returns (ok: bool, statusPolls: nat, pingPolls: nat, slept: nat)
    requires cfg.pollInterval >= 1
    ensures ok <==> BecomesReady(cfg, w)
    ensures statusPolls == 0 || statusPolls <= Quotient(cfg.startupTimeout, cfg.pollInterval)
    ensures pingPolls == 0 || pingPolls <= Quotient(cfg.connectivityTimeout, cfg.pollInterval)
    ensures slept <= Budget(cfg.startupTimeout) + Budget(cfg.connectivityTimeout)
    ensures pingPolls > 0 ==> statusPolls > 0 && w.status(statusPolls - 1) == Status(3)
  {
    ok, statusPolls, pingPolls, slept := false, 0, 0, 0;
    var maxAttempts := Quotient(cfg.startupTimeout, cfg.pollInterval);
    var attempt := 0;
    while attempt < maxAttempts
      invariant 0 <= attempt && (attempt == 0 || attempt <= maxAttempts)
      invariant statusPolls == attempt && pingPolls == 0 && slept == attempt * cfg.pollInterval
      invariant forall i :: 0 <= i < attempt ==> KeepsPolling(w.status(i)) && !w.doneAtStatus(i)
    {
      SleepsFit(cfg.startupTimeout, cfg.pollInterval, attempt);
      if w.doneAtStatus(attempt) {
        return;
      }
      statusPolls := statusPolls + 1;
      var answer := w.status(attempt);
      if answer.Failed? {
        slept := slept + cfg.pollInterval;
        attempt := attempt + 1;
        continue;
      }
      if answer.code == 3 {
        assert RunningAt(w, attempt);
        var more;
        ok, pingPolls, more := CheckServerConnectivity(cfg, w);
        slept := slept + more;
        return;
      } else if answer.code == 0 || answer.code == 1 || answer.code == 2 {
        slept := slept + cfg.pollInterval;
      } else {
        return;
      }
      attempt := attempt + 1;
    }
    SleepsFit(cfg.startupTimeout, cfg.pollInterval, attempt);
  }

  /** The attempt of a leader: the outcome that single-flight hands to every joiner. */
  method StartAttempt(cfg: Config, w: World) returns (result: bool)
    requires cfg.pollInterval >= 1
    ensures result <==> w.uuidKnown && w.startAccepted && BecomesReady(cfg, w)
  {
    if !w.uuidKnown {
      return false;
    }
    if !w.startAccepted {
      return false;
    }
    var ready, statusPolls, pingPolls, slept := WaitForServerReady(cfg, w);
    if !ready {
      return false;
    }
    return true;
  }
}
