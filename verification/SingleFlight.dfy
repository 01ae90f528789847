/** The single-flight start of servers (internal/dynamicserver/manager.go:107-151), at the granularity of the
    lock, the channel and the map: any number of calls of EnsureServerRunning interleave. */
module SingleFlight {
  import opened Wrappers

  /** A startingServer: whose done channel may be closed and whose result may be written. `leader` is the call
      that created it. */
  datatype Entry = Entry(server: string, leader: nat, closed: bool, result: Option<bool>)

  /** Where a call is. The first three belong to the call that created the entry, the next two to the calls
      that found it in the map. */
  datatype Pc =
    | Leading(e: nat)                 // in the map, the attempt is under way
    | Wrote(e: nat, value: bool)      // result written, the deferred function is next
    | ClosedDone(e: nat, value: bool) // done is closed, the entry is still in the map
    | Waiting(e: nat)                 // about to receive from done
    | Woken(e: nat)                   // received, about to read the result
    | Returned(e: nat, value: bool)

  datatype Call = Call(server: string, pc: Pc)

  datatype State = State(entries: seq<Entry>, calls: seq<Call>, starting: map<string, nat>)

  datatype Step =
    | Enter(server: string)           // lock, look up, insert if absent, unlock
    | Write(c: nat, outcome: bool)    // the attempt ends
    | CloseDone(c: nat)
    | Delete(c: nat)                  // lock, delete by name, unlock; the call returns
    | Receive(c: nat)                 // possible once done is closed
    | ReadResult(c: nat)

  function CallOf(e: Step): nat { if e.Enter? then 0 else e.c }

  predicate Enabled(s: State, e: Step) {
    match e
    case Enter(_) => true
    case Write(c, _) => c < |s.calls| && s.calls[c].pc.Leading?
    case CloseDone(c) => c < |s.calls| && s.calls[c].pc.Wrote?
    case Delete(c) => c < |s.calls| && s.calls[c].pc.ClosedDone?
    case Receive(c) =>
      c < |s.calls| && s.calls[c].pc.Waiting? && s.calls[c].pc.e < |s.entries| && s.entries[s.calls[c].pc.e].closed
    case ReadResult(c) => c < |s.calls| && s.calls[c].pc.Woken?
  }

  function Moved(s: State, c: nat, pc: Pc): State
    requires c < |s.calls|
  {
    s.(calls := s.calls[c := s.calls[c].(pc := pc)])
  }

  /** A Go bool reads as false before it is written. */
  function ResultOf(s: State, e: nat): bool {
    e < |s.entries| && s.entries[e].result == Some(true)
  }

  /** A step that is not enabled leaves the state unchanged, so every sequence of steps is a run. */
  function Next(s: State, e: Step): State {
    if !Enabled(s, e) then s
    else match e
      case Enter(server) =>
        if server in s.starting then s.(calls := s.calls + [Call(server, Waiting(s.starting[server]))])
        else State(s.entries + [Entry(server, |s.calls|, false, None)],
                   s.calls + [Call(server, Leading(|s.entries|))],
                   s.starting[server := |s.entries|])
      case Write(c, outcome) =>
        var i := s.calls[c].pc.e;
        var s' := Moved(s, c, Wrote(i, outcome));
        if i < |s.entries| then s'.(entries := s.entries[i := s.entries[i].(result := Some(outcome))]) else s'
      case CloseDone(c) =>
        var i := s.calls[c].pc.e;
        var s' := Moved(s, c, ClosedDone(i, s.calls[c].pc.value));
        if i < |s.entries| then s'.(entries := s.entries[i := s.entries[i].(closed := true)]) else s'
      case Delete(c) =>
        Moved(s, c, Returned(s.calls[c].pc.e, s.calls[c].pc.value)).(starting := s.starting - {s.calls[c].server})
      case Receive(c) => Moved(s, c, Woken(s.calls[c].pc.e))
      case ReadResult(c) => Moved(s, c, Returned(s.calls[c].pc.e, ResultOf(s, s.calls[c].pc.e)))
  }

  function Run(es: seq<Step>): State {
    if es == [] then State([], [], map[]) else Next(Run(es[..|es| - 1]), es[|es| - 1])
  }

  // ---------- The invariant ----------

  /** The call created its entry and has not returned: an attempt is active. */
  predicate Active(c: Call) { c.pc.Leading? || c.pc.Wrote? || c.pc.ClosedDone? }

  /** An entry is as far as its leader. */
  predicate EntryOk(s: State, i: nat)
    requires i < |s.entries|
  {
    var en := s.entries[i];
    && en.leader < |s.calls|
    && s.calls[en.leader].server == en.server && s.calls[en.leader].pc.e == i
    && match s.calls[en.leader].pc
       case Leading(_) => en.result == None && !en.closed
       case Wrote(_, v) => en.result == Some(v) && !en.closed
       case ClosedDone(_, v) => en.result == Some(v) && en.closed
       case Returned(_, v) => en.result == Some(v) && en.closed
       case _ => false
  }

  /** A call is on an entry of its own server; an active one is in the map; the others have seen done closed
      before they read, and have read what was written. */
  predicate CallOk(s: State, c: nat)
    requires c < |s.calls|
  {
    var call := s.calls[c];
    var i := call.pc.e;
    && i < |s.entries| && s.entries[i].server == call.server
    && (Active(call) ==> s.entries[i].leader == c && call.server in s.starting && s.starting[call.server] == i)
    && (call.pc.Woken? ==> s.entries[i].closed)
    && (call.pc.Returned? ==> s.entries[i].closed && s.entries[i].result == Some(call.pc.value))
  }

  /** The map holds exactly the entries of active attempts. */
  predicate StartingOk(s: State, server: string)
    requires server in s.starting
  {
    var i := s.starting[server];
    i < |s.entries| && s.entries[i].server == server
    && s.entries[i].leader < |s.calls| && Active(s.calls[s.entries[i].leader])
  }

  ghost predicate Inv(s: State) {
    && (forall i :: 0 <= i < |s.entries| ==> EntryOk(s, i))
    && (forall c :: 0 <= c < |s.calls| ==> CallOk(s, c))
    && (forall server :: server in s.starting ==> StartingOk(s, server))
  }

  lemma EnterKeepsInv(s: State, server: string)
    requires Inv(s)
    ensures Inv(Next(s, Enter(server)))
  {
    var s' := Next(s, Enter(server));
    forall i | 0 <= i < |s'.entries| ensures EntryOk(s', i) { if i < |s.entries| { assert EntryOk(s, i); } }
    forall c | 0 <= c < |s'.calls| ensures CallOk(s', c) {
      if c < |s.calls| { assert CallOk(s, c); } else if server in s.starting { assert StartingOk(s, server); }
    }
    forall n | n in s'.starting ensures StartingOk(s', n) { if n in s.starting { assert StartingOk(s, n); } }
  }

  /** The steps of the leader of entry `s.calls[c].pc.e`. */
  lemma LeaderKeepsInv(s: State, e: Step)
    requires Inv(s) && Enabled(s, e) && (e.Write? || e.CloseDone? || e.Delete?)
    ensures Inv(Next(s, e))
  {
    var s', c := Next(s, e), CallOf(e);
    var k := s.calls[c].pc.e;
    assert CallOk(s, c) && EntryOk(s, k);
    forall i | 0 <= i < |s'.entries| ensures EntryOk(s', i) { assert EntryOk(s, i); }
    forall d | 0 <= d < |s'.calls| ensures CallOk(s', d) {
      assert CallOk(s, d) && EntryOk(s, s.calls[d].pc.e);
    }
    forall n | n in s'.starting ensures StartingOk(s', n) { assert StartingOk(s, n) && EntryOk(s, s.starting[n]); }
  }

  lemma JoinerKeepsInv(s: State, e: Step)
    requires Inv(s) && Enabled(s, e) && (e.Receive? || e.ReadResult?)
    ensures Inv(Next(s, e))
  {
    var s', c := Next(s, e), CallOf(e);
    assert CallOk(s, c) && EntryOk(s, s.calls[c].pc.e);
    forall i | 0 <= i < |s'.entries| ensures EntryOk(s', i) { assert EntryOk(s, i); }
    forall d | 0 <= d < |s'.calls| ensures CallOk(s', d) { assert CallOk(s, d); }
    forall n | n in s'.starting ensures StartingOk(s', n) { assert StartingOk(s, n); }
  }

  lemma {:induction false} RunsKeepInv(es: seq<Step>)
    ensures Inv(Run(es))
  {
    if es != [] {
      var s, e := Run(es[..|es| - 1]), es[|es| - 1];
      RunsKeepInv(es[..|es| - 1]);
      if Enabled(s, e) {
        if e.Enter? { EnterKeepsInv(s, e.server); }
        else if e.Receive? || e.ReadResult? { JoinerKeepsInv(s, e); }
        else { LeaderKeepsInv(s, e); }
      }
    }
  }

  // ---------- Safety ----------

  /** At most one start attempt per server is active. */
  lemma AtMostOneAttempt(es: seq<Step>, c: nat, d: nat)
    requires var s := Run(es);
             c < |s.calls| && d < |s.calls| && Active(s.calls[c]) && Active(s.calls[d])
    requires Run(es).calls[c].server == Run(es).calls[d].server
    ensures c == d
  {
    RunsKeepInv(es);
    assert CallOk(Run(es), c) && CallOk(Run(es), d);
  }

  /** The delete, although it goes by name, always removes the leader's own entry and no other. */
  lemma DeleteRemovesOwnEntry(es: seq<Step>, c: nat)
    requires Enabled(Run(es), Delete(c))
    ensures var s, call := Run(es), Run(es).calls[c];
            && call.server in s.starting && s.starting[call.server] == call.pc.e
            && Next(s, Delete(c)).starting == s.starting - {call.server}
  {
    RunsKeepInv(es);
    assert CallOk(Run(es), c);
  }

  /** A joiner that is about to read finds the result written, and by the leader of its entry. */
  lemma ReadsAfterWrite(es: seq<Step>, c: nat)
    requires Enabled(Run(es), ReadResult(c))
    ensures var s := Run(es);
            var i := s.calls[c].pc.e;
            && i < |s.entries| && s.entries[i].result.Some?
            && s.entries[i].leader < |s.calls|
            && (s.calls[s.entries[i].leader].pc.ClosedDone? || s.calls[s.entries[i].leader].pc.Returned?)
            && s.calls[s.entries[i].leader].pc.value == s.entries[i].result.value
  {
    RunsKeepInv(es);
    var s := Run(es);
    assert CallOk(s, c) && EntryOk(s, s.calls[c].pc.e);
  }

  /** Whoever returned through an entry returned the same: every joiner its leader's result, also one that
      entered between the close and the delete. */
  lemma JoinersReturnLeadersResult(es: seq<Step>, c: nat, d: nat)
    requires var s := Run(es);
             c < |s.calls| && d < |s.calls| && s.calls[c].pc.Returned? && s.calls[d].pc.Returned?
    requires Run(es).calls[c].pc.e == Run(es).calls[d].pc.e
    ensures Run(es).calls[c].pc.value == Run(es).calls[d].pc.value
    ensures Run(es).calls[c].server == Run(es).calls[d].server
  {
    RunsKeepInv(es);
    assert CallOk(Run(es), c) && CallOk(Run(es), d);
  }

  /** A joiner waits for the attempt that is in the map when it enters, whether or not that one is already
      closing. */
  lemma JoinsAttemptInMap(es: seq<Step>, server: string)
    requires server in Run(es).starting
    ensures var s, s' := Run(es), Next(Run(es), Enter(server));
            && |s'.calls| == |s.calls| + 1 && s'.calls[|s.calls|].pc == Waiting(s.starting[server])
            && s'.entries == s.entries && s'.starting == s.starting
            && s.starting[server] < |s.entries| && s.entries[s.starting[server]].leader < |s.calls|
            && Active(s.calls[s.entries[s.starting[server]].leader])
  {
    RunsKeepInv(es);
    assert StartingOk(Run(es), server);
  }

  /** A call that finds no entry leads an attempt of its own, under a new entry in the map. */
  lemma StartsAttempt(es: seq<Step>, server: string)
    requires server !in Run(es).starting
    ensures var s, s', i := Run(es), Next(Run(es), Enter(server)), |Run(es).entries|;
            && s'.calls == s.calls + [Call(server, Leading(i))] && Active(s'.calls[|s.calls|])
            && |s'.entries| == i + 1 && s'.entries[..i] == s.entries
            && s'.entries[i].server == server && s'.entries[i].leader == |s.calls|
            && server in s'.starting && s'.starting[server] == i && s'.starting - {server} == s.starting
            && forall d :: 0 <= d < |s.calls| && Active(s.calls[d]) ==> s.calls[d].server != server
  {
    RunsKeepInv(es);
    forall d | 0 <= d < |Run(es).calls| && Active(Run(es).calls[d]) ensures Run(es).calls[d].server != server {
      assert CallOk(Run(es), d);
    }
  }

  // ---------- The answer is the outcome of the attempt ----------

  /** The step at position `j` ended the attempt of entry `i`. */
  predicate EndsAttempt(es: seq<Step>, j: nat, i: nat)
    requires j < |es|
  {
    var s, e := Run(es[..j]), es[j];
    e.Write? && Enabled(s, e) && s.calls[e.c].pc.e == i
  }

  /** What is once in an entry stays there, with its leader. */
  lemma EntryStays(s: State, e: Step, i: nat)
    requires Inv(s) && i < |s.entries|
    ensures var s' := Next(s, e);
            && i < |s'.entries| && s'.entries[i].leader == s.entries[i].leader
            && (s.entries[i].result.Some? ==> s'.entries[i].result == s.entries[i].result)
  {
    if Enabled(s, e) && !e.Enter? { assert CallOk(s, e.c) && EntryOk(s, s.calls[e.c].pc.e); }
  }

  /** The step that ended the attempt was the leader's, and its outcome is the result. */
  lemma {:induction false} ResultWrittenBy(es: seq<Step>, i: nat) returns (j: nat)
    requires i < |Run(es).entries| && Run(es).entries[i].result.Some?
    ensures j < |es| && EndsAttempt(es, j, i)
    ensures es[j] == Write(Run(es).entries[i].leader, Run(es).entries[i].result.value)
  {
    var t, n := es[..|es| - 1], |es| - 1;
    var s := Run(t);
    RunsKeepInv(t);
    if i < |s.entries| { EntryStays(s, es[n], i); }
    if i < |s.entries| && s.entries[i].result.Some? {
      j := ResultWrittenBy(t, i);
      assert t[..j] == es[..j];
    } else {
      j := n;
      WroteNow(s, es[n], i);
    }
  }

  lemma WroteNow(s: State, e: Step, i: nat)
    requires Inv(s) && i < |Next(s, e).entries| && Next(s, e).entries[i].result.Some?
    requires i < |s.entries| ==> s.entries[i].result.None?
    ensures e.Write? && Enabled(s, e) && s.calls[e.c].pc.e == i
    ensures e == Write(Next(s, e).entries[i].leader, Next(s, e).entries[i].result.value)
  {
    if e.Write? && Enabled(s, e) { assert CallOk(s, e.c); }
  }

  lemma RunGoesOn(es: seq<Step>, n: nat)
    requires 1 <= n <= |es|
    ensures Run(es[..n]) == Next(Run(es[..n - 1]), es[n - 1])
  {
    assert es[..n][..n - 1] == es[..n - 1];
  }

  /** After the attempt has ended, the result is there. */
  lemma {:induction false} EndedHasResult(es: seq<Step>, j: nat, i: nat, n: nat)
    requires j < n <= |es| && EndsAttempt(es, j, i)
    ensures i < |Run(es[..n]).entries| && Run(es[..n]).entries[i].result.Some?
  {
    RunsKeepInv(es[..n - 1]);
    if n == j + 1 {
      RunGoesOn(es, n);
      assert CallOk(Run(es[..j]), es[j].c);
    } else {
      EndedHasResult(es, j, i, n - 1);
      RunGoesOn(es, n);
      EntryStays(Run(es[..n - 1]), es[n - 1], i);
    }
  }

  lemma NoResultBeforeEnd(es: seq<Step>, j: nat, i: nat)
    requires j < |es| && EndsAttempt(es, j, i)
    ensures i < |Run(es[..j]).entries| && Run(es[..j]).entries[i].result.None?
  {
    RunsKeepInv(es[..j]);
    assert CallOk(Run(es[..j]), es[j].c);
    assert EntryOk(Run(es[..j]), i);
  }

  /** An attempt ends once. */
  lemma AttemptEndsOnce(es: seq<Step>, j: nat, k: nat, i: nat)
    requires j < |es| && k < |es| && EndsAttempt(es, j, i) && EndsAttempt(es, k, i)
    ensures j == k
  {
    NoResultBeforeEnd(es, j, i);
    NoResultBeforeEnd(es, k, i);
    if j < k {
      EndedHasResult(es, j, i, k);
    } else if k < j {
      EndedHasResult(es, k, i, j);
    }
  }

  /** Every call that has returned, leader or joiner, returned the outcome with which the attempt of its entry ended:
      exactly one step of the run ended it, and that step carries the value. */
  lemma CallsReturnOutcome(es: seq<Step>, c: nat) returns (j: nat)
    requires c < |Run(es).calls| && Run(es).calls[c].pc.Returned?
    ensures var s, i, v := Run(es), Run(es).calls[c].pc.e, Run(es).calls[c].pc.value;
            && i < |s.entries| && j < |es| && es[j] == Write(s.entries[i].leader, v)
            && EndsAttempt(es, j, i)
            && forall k :: 0 <= k < |es| && EndsAttempt(es, k, i) ==> k == j
  {
    RunsKeepInv(es);
    assert CallOk(Run(es), c);
    var i := Run(es).calls[c].pc.e;
    j := ResultWrittenBy(es, i);
    forall k | 0 <= k < |es| && EndsAttempt(es, k, i) ensures k == j { AttemptEndsOnce(es, j, k, i); }
  }

  // ---------- Progress ----------

  /** No joiner stays blocked once its leader has returned, or has closed done. */
  lemma NoJoinerStaysBlocked(es: seq<Step>, c: nat)
    requires c < |Run(es).calls| && Run(es).calls[c].pc.Waiting?
    ensures var s := Run(es);
            var i := s.calls[c].pc.e;
            && i < |s.entries| && s.entries[i].leader < |s.calls|
            && (Enabled(s, Receive(c)) <==>
                s.calls[s.entries[i].leader].pc.ClosedDone? || s.calls[s.entries[i].leader].pc.Returned?)
  {
    RunsKeepInv(es);
    var s := Run(es);
    assert CallOk(s, c) && EntryOk(s, s.calls[c].pc.e);
  }

  /** As long as some call has not returned, some call can take a step: there is no deadlock. */
  lemma SomeCallCanMove(es: seq<Step>, c: nat) returns (e: Step)
    requires c < |Run(es).calls| && !Run(es).calls[c].pc.Returned?
    ensures !e.Enter? && Enabled(Run(es), e)
  {
    RunsKeepInv(es);
    var s := Run(es);
    assert CallOk(s, c) && EntryOk(s, s.calls[c].pc.e);
    if s.calls[c].pc.Waiting? && !s.entries[s.calls[c].pc.e].closed {
      e := LeaderStep(s.entries[s.calls[c].pc.e].leader, s.calls[s.entries[s.calls[c].pc.e].leader].pc);
    } else if s.calls[c].pc.Waiting? {
      e := Receive(c);
    } else if s.calls[c].pc.Woken? {
      e := ReadResult(c);
    } else {
      e := LeaderStep(c, s.calls[c].pc);
    }
  }

  function LeaderStep(c: nat, pc: Pc): Step {
    if pc.Leading? then Write(c, true) else if pc.Wrote? then CloseDone(c) else Delete(c)
  }

  /** How many steps a call still has to take. */
  function Left(pc: Pc): nat {
    match pc
    case Leading(_) => 3
    case Wrote(_, _) => 2
    case ClosedDone(_, _) => 1
    case Waiting(_) => 2
    case Woken(_) => 1
    case Returned(_, _) => 0
  }

  function TotalLeft(calls: seq<Call>): nat {
    if calls == [] then 0 else TotalLeft(calls[..|calls| - 1]) + Left(calls[|calls| - 1].pc)
  }

  lemma {:induction false} TotalLeftUpdate(calls: seq<Call>, c: nat, call: Call)
    requires c < |calls|
    ensures TotalLeft(calls[c := call]) == TotalLeft(calls) - Left(calls[c].pc) + Left(call.pc)
  {
    var t, after := calls[..|calls| - 1], calls[c := call];
    if c < |t| {
      TotalLeftUpdate(t, c, call);
      assert after[..|after| - 1] == t[c := call];
    } else {
      assert after[..|after| - 1] == t;
    }
  }

  /** How many steps other than Enter a run really took. */
  function Taken(es: seq<Step>): nat {
    if es == [] then 0
    else
      var e := es[|es| - 1];
      Taken(es[..|es| - 1]) + if !e.Enter? && Enabled(Run(es[..|es| - 1]), e) then 1 else 0
  }

  lemma StepTakesOne(s: State, e: Step)
    requires !e.Enter? && Enabled(s, e)
    ensures TotalLeft(Next(s, e).calls) == TotalLeft(s.calls) - 1
    ensures |Next(s, e).calls| == |s.calls|
  {
    TotalLeftUpdate(s.calls, CallOf(e), Next(s, e).calls[CallOf(e)]);
    assert Next(s, e).calls == s.calls[CallOf(e) := Next(s, e).calls[CallOf(e)]];
  }

  /** A run with n calls never takes more than 3n steps, and what it has not taken yet is what its calls still have
      to take. */
  lemma {:induction false} RunsAreShort(es: seq<Step>)
    ensures Taken(es) + TotalLeft(Run(es).calls) <= 3 * |Run(es).calls|
  {
    if es != [] {
      var s, e := Run(es[..|es| - 1]), es[|es| - 1];
      RunsAreShort(es[..|es| - 1]);
      if e.Enter? {
        assert Next(s, e).calls[..|s.calls|] == s.calls;
      } else if Enabled(s, e) {
        StepTakesOne(s, e);
      }
    }
  }

  /** How many steps of a run were steps of call `c`. */
  function TakenBy(es: seq<Step>, c: nat): nat {
    if es == [] then 0
    else
      var e := es[|es| - 1];
      TakenBy(es[..|es| - 1], c) + if !e.Enter? && Enabled(Run(es[..|es| - 1]), e) && e.c == c then 1 else 0
  }

  lemma {:induction false} NothingBeforeEntering(es: seq<Step>, c: nat)
    requires c >= |Run(es).calls|
    ensures TakenBy(es, c) == 0
  {
    if es != [] { NothingBeforeEntering(es[..|es| - 1], c); }
  }

  /** The leader of an entry takes three steps, a joiner two: what a call has taken and what it has left add up to
      that at every moment of every run. */
  lemma {:induction false} CallTakesItsSteps(es: seq<Step>, c: nat)
    requires c < |Run(es).calls|
    ensures var s := Run(es);
            && s.calls[c].pc.e < |s.entries|
            && TakenBy(es, c) + Left(s.calls[c].pc) == if s.entries[s.calls[c].pc.e].leader == c then 3 else 2
  {
    var t, e := es[..|es| - 1], es[|es| - 1];
    RunsKeepInv(es);
    assert CallOk(Run(es), c);
    if c < |Run(t).calls| {
      CallTakesItsSteps(t, c);
      CallStep(t, e, c);
    } else {
      NothingBeforeEntering(t, c);
      EnteredCall(t, e);
    }
  }

  lemma CallStep(t: seq<Step>, e: Step, c: nat)
    requires c < |Run(t).calls| && Run(t).calls[c].pc.e < |Run(t).entries|
    ensures var s, s' := Run(t), Next(Run(t), e);
            && c < |s'.calls| && s'.calls[c].pc.e == s.calls[c].pc.e && s.calls[c].pc.e < |s'.entries|
            && s'.entries[s.calls[c].pc.e].leader == s.entries[s.calls[c].pc.e].leader
            && Left(s'.calls[c].pc) == Left(s.calls[c].pc) - if !e.Enter? && Enabled(s, e) && e.c == c then 1 else 0
  {
  }

  lemma EnteredCall(t: seq<Step>, e: Step)
    requires |Run(t).calls| < |Next(Run(t), e).calls|
    ensures var s, s', c := Run(t), Next(Run(t), e), |Run(t).calls|;
            && e.Enter? && |s'.calls| == c + 1 && s'.calls[c].pc.e < |s'.entries|
            && Left(s'.calls[c].pc) == if s'.entries[s'.calls[c].pc.e].leader == c then 3 else 2
  {
    RunsKeepInv(t);
    var s := Run(t);
    if e.Enter? && e.server in s.starting {
      assert StartingOk(s, e.server);
    }
  }

  // ---------- Completion ----------

  /** The steps of `more` after `es` are all taken: none is a new call, and each is possible when it comes. */
  predicate Schedule(es: seq<Step>, more: seq<Step>) {
    more == [] ||
    var t, e := more[..|more| - 1], more[|more| - 1];
    Schedule(es, t) && !e.Enter? && Enabled(Run(es + t), e)
  }

  predicate AllReturned(s: State) {
    forall c :: 0 <= c < |s.calls| ==> s.calls[c].pc.Returned?
  }

  lemma {:induction false} ScheduleUsesUp(es: seq<Step>, more: seq<Step>)
    requires Schedule(es, more)
    ensures TotalLeft(Run(es + more).calls) + |more| == TotalLeft(Run(es).calls)
  {
    if more == [] {
      assert es + more == es;
    } else {
      var t, e := more[..|more| - 1], more[|more| - 1];
      ScheduleUsesUp(es, t);
      RunOneMore(es, t, e, more);
      StepTakesOne(Run(es + t), e);
    }
  }

  lemma RunOneMore(es: seq<Step>, t: seq<Step>, e: Step, more: seq<Step>)
    requires more == t + [e]
    ensures Run(es + more) == Next(Run(es + t), e)
  {
    assert (es + more)[..|es + t|] == es + t && (es + more)[|es + t|] == e;
  }

  lemma {:induction false} NothingLeftIff(calls: seq<Call>)
    ensures TotalLeft(calls) == 0 <==> forall c :: 0 <= c < |calls| ==> calls[c].pc.Returned?
  {
    if calls != [] {
      NothingLeftIff(calls[..|calls| - 1]);
      assert calls == calls[..|calls| - 1] + [calls[|calls| - 1]];
    }
  }

  /** No call can take a step. */
  ghost predicate Stuck(s: State) {
    forall e: Step :: !e.Enter? ==> !Enabled(s, e)
  }

  lemma StuckIffReturned(es: seq<Step>)
    ensures Stuck(Run(es)) <==> AllReturned(Run(es))
  {
    if !AllReturned(Run(es)) {
      var c :| 0 <= c < |Run(es).calls| && !Run(es).calls[c].pc.Returned?;
      var e := SomeCallCanMove(es, c);
    }
  }

  /** However the calls are scheduled, once no new ones come in: the schedule can go on exactly as long as some call
      has not returned, and it has gone on for exactly as many steps as its calls had left when all of them have.
      So every call returns once the attempts end, and no schedule can run longer or get stuck. */
  lemma EveryScheduleCompletes(es: seq<Step>, more: seq<Step>)
    requires Schedule(es, more)
    ensures |more| <= TotalLeft(Run(es).calls)
    ensures AllReturned(Run(es + more)) <==> |more| == TotalLeft(Run(es).calls)
    ensures AllReturned(Run(es + more)) <==> Stuck(Run(es + more))
  {
    ScheduleUsesUp(es, more);
    NothingLeftIff(Run(es + more).calls);
    StuckIffReturned(es + more);
  }
}
