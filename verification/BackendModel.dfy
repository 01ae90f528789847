/** The value of one backend's fields and what each operation of the load balancer does to it
    (internal/loadbalancer/backend.go, loadbalancer.go, server_info.go). Counters are unbounded. */
module BackendModel {
  import opened Wrappers
  import opened Stats

  type pos = n: nat | n >= 1 witness 1

  datatype State = State(
    addr: string, maxConns: int, windowSize: pos,
    conns: int, fails: int, succs: int, healthy: bool, disabled: bool,
    window: seq<int>, players: set<string>, trust: int)

  function Fresh(addr: string, maxConns: int, windowSize: pos): State {
    State(addr, maxConns, windowSize, 0, 0, 0, true, false, [], {}, 100)
  }

  /** Below its cap (a cap of zero or less means none), healthy and not disabled. */
  predicate IsAvailable(b: State) {
    !b.disabled && b.healthy && !(b.maxConns > 0 && b.conns >= b.maxConns)
  }

  /** What holds of every backend in every run: see `RunsStayValid`. */
  predicate Valid(b: State) {
    && 50 <= b.trust <= 100
    && 0 <= |b.players| <= b.conns
    && 0 <= b.fails && 0 <= b.succs
    && |b.window| <= b.windowSize
    && forall i :: 0 <= i < |b.window| ==> 0 <= b.window[i]
  }

  // ---------- The operations of Backend ----------

  /** time.Duration.Milliseconds of a non-negative duration in nanoseconds. */
  function Milliseconds(ns: nat): nat { ns / 1_000_000 }

  function RecordLatency(b: State, ns: nat): State {
    b.(window := Push(b.window, b.windowSize, Milliseconds(ns)))
  }

  function IncreaseTrust(b: State): State {
    if b.trust < 100 then b.(trust := if b.trust + 10 > 100 then 100 else b.trust + 10) else b
  }

  function AddPlayer(b: State, name: string): State {
    b.(players := b.players + {name}, conns := b.conns + 1)
  }

  function RemovePlayer(b: State, name: string): State {
    if name in b.players then b.(players := b.players - {name}, conns := b.conns - 1) else b
  }

  // ---------- The operations of the health check and of Dial ----------

  /** A health check whose ping answered after `ns`. */
  function CheckPassed(b: State, healthyAfter: int, ns: nat): State {
    var b1 := RecordLatency(b, ns).(fails := 0, succs := b.succs + 1);
    if b.healthy then IncreaseTrust(b1)
    else if b1.succs >= healthyAfter then b1.(healthy := true, trust := 50, succs := 0)
    else b1
  }

  /** A health check whose ping failed. */
  function CheckMissed(b: State, unhealthyAfter: int): State {
    var b1 := b.(fails := b.fails + 1, succs := 0);
    if b1.fails >= unhealthyAfter then b1.(healthy := false) else b1
  }

  /** The end of a dial that connected after `ns`. */
  function DialSucceeded(b: State, ns: nat, player: string): State {
    AddPlayer(RecordLatency(b, ns).(fails := 0), player)
  }

  /** The end of a dial that failed after `ns`. */
  function DialFailed(b: State, unhealthyAfter: int, ns: nat): State {
    var b1 := RecordLatency(b, ns).(fails := b.fails + 1);
    if unhealthyAfter > 0 && b1.fails >= unhealthyAfter && b.healthy
    then b1.(healthy := false, succs := 0)
    else b1
  }

  // ---------- Runs of one backend ----------

  datatype Setup = Setup(unhealthyAfter: int, healthyAfter: int, addr: string, maxConns: int, windowSize: pos)

  /** A connection handed out by Dial, and whether its first Close is still to come. */
  datatype Conn = Conn(player: string, open: bool)

  /** One backend with the work in progress on it: at most one health check (there is one loop), any
      number of dials that selected it and have not completed, and every connection ever handed out. */
  datatype System = System(b: State, probing: bool, inFlight: nat, handed: seq<Conn>)

  datatype Step =
    | CheckStart
    | CheckEnd(ping: Option<nat>)
    | DialSelect
    | DialEnd(ns: nat, player: Option<string>)
    | Close(id: nat)
    | SetDisabled(on: bool)

  /** A step that is not possible in `s` leaves it unchanged, so every sequence of steps is a run. */
  function Next(u: Setup, s: System, e: Step): System {
    match e
    case CheckStart => if s.b.disabled then s else s.(probing := true)
    case CheckEnd(ping) =>
      if !s.probing then s
      else s.(probing := false,
              b := match ping
                   case Some(ns) => CheckPassed(s.b, u.healthyAfter, ns)
                   case None => CheckMissed(s.b, u.unhealthyAfter))
    case DialSelect => if IsAvailable(s.b) then s.(inFlight := s.inFlight + 1) else s
    case DialEnd(ns, player) =>
      if s.inFlight == 0 then s
      else (match player
            case Some(name) =>
              s.(inFlight := s.inFlight - 1, b := DialSucceeded(s.b, ns, name), handed := s.handed + [Conn(name, true)])
            case None =>
              s.(inFlight := s.inFlight - 1, b := DialFailed(s.b, u.unhealthyAfter, ns)))
    case Close(id) =>
      if id < |s.handed| && s.handed[id].open
      then s.(handed := s.handed[id := s.handed[id].(open := false)], b := RemovePlayer(s.b, s.handed[id].player))
      else s
    case SetDisabled(on) => s.(b := s.b.(disabled := on))
  }

  function Run(u: Setup, es: seq<Step>): System {
    if es == [] then System(Fresh(u.addr, u.maxConns, u.windowSize), false, 0, [])
    else Next(u, Run(u, es[..|es| - 1]), es[|es| - 1])
  }

  // ---------- What every run keeps ----------

  lemma ChecksKeepValid(b: State, t: int, ns: nat)
    requires Valid(b)
    ensures Valid(CheckPassed(b, t, ns)) && Valid(CheckMissed(b, t))
  {
  }

  lemma DialsKeepValid(b: State, t: int, ns: nat, name: string)
    requires Valid(b)
    ensures Valid(DialSucceeded(b, ns, name)) && Valid(DialFailed(b, t, ns)) && Valid(RemovePlayer(b, name))
  {
  }

  lemma NextKeepsValid(u: Setup, s: System, e: Step)
    requires Valid(s.b)
    ensures Valid(Next(u, s, e).b)
  {
    match e
    case CheckEnd(Some(ns)) => ChecksKeepValid(s.b, u.healthyAfter, ns);
    case CheckEnd(None) => ChecksKeepValid(s.b, u.unhealthyAfter, 0);
    case DialEnd(ns, Some(name)) => DialsKeepValid(s.b, u.unhealthyAfter, ns, name);
    case DialEnd(ns, None) => DialsKeepValid(s.b, u.unhealthyAfter, ns, "");
    case Close(id) => if id < |s.handed| { DialsKeepValid(s.b, 0, 0, s.handed[id].player); }
    case _ =>
  }

  lemma NextKeepsIdentity(u: Setup, s: System, e: Step)
    ensures Next(u, s, e).b.addr == s.b.addr && Next(u, s, e).b.maxConns == s.b.maxConns
  {
  }

  /** In every reachable state trust is between half and full, the tracked names never outnumber the
      counted connections, and the window holds at most `windowSize` non-negative samples. */
  lemma {:induction false} RunsStayValid(u: Setup, es: seq<Step>)
    ensures Valid(Run(u, es).b)
    ensures Run(u, es).b.addr == u.addr && Run(u, es).b.maxConns == u.maxConns
  {
    if es != [] {
      RunsStayValid(u, es[..|es| - 1]);
      NextKeepsValid(u, Run(u, es[..|es| - 1]), es[|es| - 1]);
      NextKeepsIdentity(u, Run(u, es[..|es| - 1]), es[|es| - 1]);
    }
  }
}
