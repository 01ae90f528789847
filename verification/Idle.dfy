/** The part of the dynamic server manager that shuts idle servers down, as the object its tick, its commands
    and its timer callbacks share (internal/dynamicserver/manager.go:29-58, 278-440). */
module Idle {
  import opened Wrappers
  import opened IdleModel

  class ShutdownConfig {
    var protectionEndTime: int
    var enabled: bool

    constructor (enabled: bool)
      ensures View() == Config(0, enabled)
    {
      protectionEndTime, this.enabled := 0, enabled;
    }

    ghost function View(): Config
      reads this
    {
      Config(protectionEndTime, enabled)
    }

    method IsInProtectionPeriod(now: nat) returns (inPeriod: bool)
      ensures inPeriod <==> now < protectionEndTime
    {
      inPeriod := now < protectionEndTime;
    }
  }

  class Manager {
    const setup: Setup
    const autoStartServers: seq<string>
    var shutdownTimers: map<string, nat>
    var serverConfigs: map<string, ShutdownConfig>
    /** The runtime's timers that have neither fired nor been stopped, and the last identity given out. */
    var pending: map<nat, Timer>
    var nextTimer: nat
    ghost var clock: nat

    /** Each server has a configuration of its own. */
    ghost predicate Valid()
      reads this
    {
      forall a, b :: a in serverConfigs && b in serverConfigs && a != b ==> serverConfigs[a] != serverConfigs[b]
    }

    ghost function View(): State
      reads this, serverConfigs.Values
    {
      State(clock, shutdownTimers, pending, map n | n in serverConfigs :: serverConfigs[n].View(), nextTimer)
    }

    constructor (setup: Setup, autoStartServers: seq<string>)
      ensures Valid() && View() == Run(setup, [])
      ensures this.setup == setup && this.autoStartServers == autoStartServers
    {
      this.setup, this.autoStartServers := setup, autoStartServers;
      shutdownTimers, serverConfigs, pending, nextTimer, clock := map[], map[], map[], 0, 0;
    }

    // ---------- The tick ----------

    /** One server's turn in a tick: `players` is absent when the proxy does not know the server, `status` when
        its status could not be read. */
    method CheckServerIdle(now: nat, serverName: string, players: Option<nat>, status: Option<int>)
      requires Valid() && clock <= now
      modifies this
      ensures Valid() && serverConfigs == old(serverConfigs) && clock == now
      ensures View() == Next(setup, old(View()), Tick(now, serverName, players, status))
    {
      clock := now;
      assert View() == old(View()).(now := now);
      CheckIdle(now, serverName, players, status);
    }

    method CheckIdle(now: nat, serverName: string, players: Option<nat>, status: Option<int>)
      requires Valid()
      modifies this`shutdownTimers, this`pending, this`nextTimer
      ensures View() == Effect(setup, old(View()), Tick(now, serverName, players, status))
    {
      var inPeriod := InProtectionPeriod(now, serverName);
      if inPeriod {
        return;
      }
      if players.None? {
        return;
      }
      if players.value == 0 {
        ScheduleShutdown(now, serverName, status);
      } else {
        CancelShutdown(serverName);
      }
    }

    method InProtectionPeriod(now: nat, serverName: string) returns (inPeriod: bool)
      ensures inPeriod <==> Protected(View(), serverName, now)
    {
      if serverName !in serverConfigs {
        return false;
      }
      inPeriod := serverConfigs[serverName].IsInProtectionPeriod(now);
    }

    method ScheduleShutdown(now: nat, serverName: string, status: Option<int>)
      requires Valid()
      modifies this`shutdownTimers, this`pending, this`nextTimer
      ensures View() == if Schedules(setup, old(View()), serverName, status)
                        then Installed(setup, old(View()), serverName, now) else old(View())
    {
      var goAhead := CheckSchedule(serverName, status);
      if goAhead {
        InstallTimer(now, serverName);
      }
    }

    /** The first half: everything that scheduleShutdown looks at before it installs a timer. */
    method CheckSchedule(serverName: string, status: Option<int>) returns (goAhead: bool)
      requires Valid()
      ensures goAhead <==> Schedules(setup, View(), serverName, status)
    {
      if serverName in serverConfigs && !serverConfigs[serverName].enabled {
        return false;
      }
      if serverName !in setup.uuids {
        return false;
      }
      if serverName in shutdownTimers {
        return false;
      }
      if status != Some(3) {
        return false;
      }
      return true;
    }

    /** The second half: whatever has happened since, the timer is installed. */
    method InstallTimer(now: nat, serverName: string)
      modifies this`shutdownTimers, this`pending, this`nextTimer
      ensures View() == Installed(setup, old(View()), serverName, now)
    {
      var timer := nextTimer;
      nextTimer := nextTimer + 1;
      pending := pending[timer := Timer(serverName, now + setup.idleSeconds * 1000)];
      shutdownTimers := shutdownTimers[serverName := timer];
    }

    method CancelShutdown(serverName: string)
      modifies this`shutdownTimers, this`pending
      ensures View() == Cancelled(old(View()), serverName)
    {
      if serverName in shutdownTimers {
        pending := pending - {shutdownTimers[serverName]};
        shutdownTimers := shutdownTimers - {serverName};
      }
    }

    /** A whole tick: every auto-start server in turn, each at its own time. */
    method CheckAllAutoStartServersIdle(turns: seq<Turn>)
      requires Valid() && |turns| == |autoStartServers|
      requires forall i :: 0 <= i < |turns| ==> clock <= turns[i].at
      requires forall i, j :: 0 <= i < j < |turns| ==> turns[i].at <= turns[j].at
      modifies this
      ensures Valid() && View() == Ticked(setup, old(View()), autoStartServers, turns)
    {
      for i := 0 to |autoStartServers|
        invariant Valid() && serverConfigs == old(serverConfigs)
        invariant forall j :: i <= j < |turns| ==> clock <= turns[j].at
        invariant View() == Ticked(setup, old(View()), autoStartServers[..i], turns[..i])
      {
        assert autoStartServers[..i + 1][..i] == autoStartServers[..i] && turns[..i + 1][..i] == turns[..i];
        CheckServerIdle(turns[i].at, autoStartServers[i], turns[i].players, turns[i].status);
      }
      assert autoStartServers[..|autoStartServers|] == autoStartServers && turns[..|autoStartServers|] == turns;
    }

    // ---------- Commands ----------

    method ConfigFor(serverName: string) returns (cfg: ShutdownConfig)
      requires Valid()
      modifies this`serverConfigs
      ensures Valid() && serverName in serverConfigs && serverConfigs[serverName] == cfg
      ensures fresh(serverConfigs.Values - old(serverConfigs.Values))
      ensures View() == WithConfig(old(View()), serverName, ConfigOf(old(View()), serverName))
      ensures cfg.View() == ConfigOf(old(View()), serverName)
    {
      if serverName in serverConfigs {
        cfg := serverConfigs[serverName];
      } else {
        cfg := new ShutdownConfig(true);
        serverConfigs := serverConfigs[serverName := cfg];
      }
    }

    method Store(serverName: string, cfg: ShutdownConfig, c: Config)
      requires Valid() && serverName in serverConfigs && serverConfigs[serverName] == cfg
      modifies cfg
      ensures View() == WithConfig(old(View()), serverName, c)
    {
      cfg.protectionEndTime, cfg.enabled := c.protectionEnd, c.enabled;
    }

    method SetProtectionEnd(serverName: string, end: int)
      requires Valid()
      modifies this`serverConfigs, serverConfigs.Values
      ensures Valid() && fresh(serverConfigs.Values - old(serverConfigs.Values))
      ensures View() == WithConfig(old(View()), serverName, ConfigOf(old(View()), serverName).(protectionEnd := end))
    {
      ghost var s := View();
      var cfg := ConfigFor(serverName);
      StoredAfter(s, serverName, ConfigOf(s, serverName), Config(end, cfg.enabled));
      Store(serverName, cfg, Config(end, cfg.enabled));
    }

    method SetConfigEnabled(serverName: string, enabled: bool)
      requires Valid()
      modifies this`serverConfigs, serverConfigs.Values
      ensures Valid() && fresh(serverConfigs.Values - old(serverConfigs.Values))
      ensures View() == WithConfig(old(View()), serverName, ConfigOf(old(View()), serverName).(enabled := enabled))
    {
      ghost var s := View();
      var cfg := ConfigFor(serverName);
      StoredAfter(s, serverName, ConfigOf(s, serverName), Config(cfg.protectionEndTime, enabled));
      Store(serverName, cfg, Config(cfg.protectionEndTime, enabled));
    }

    method SetShutdownDelay(now: nat, serverName: string, delaySeconds: int)
      requires Valid() && clock <= now
      modifies this, serverConfigs.Values
      ensures Valid() && fresh(serverConfigs.Values - old(serverConfigs.Values))
      ensures View() == Next(setup, old(View()), SetDelay(now, serverName, delaySeconds))
    {
      SetProtectionEnd(serverName, now + delaySeconds * 1000);
      CancelShutdown(serverName);
      PassTime(now);
    }

    method ClearProtectionPeriod(now: nat, serverName: string)
      requires Valid() && clock <= now
      modifies this`clock, serverConfigs.Values
      ensures View() == Next(setup, old(View()), ClearProtection(now, serverName))
    {
      clock := now;
      if serverName in serverConfigs {
        serverConfigs[serverName].protectionEndTime := 0;
      }
    }

    method DisableAutoShutdown(serverName: string)
      requires Valid()
      modifies this, serverConfigs.Values
      ensures Valid() && fresh(serverConfigs.Values - old(serverConfigs.Values)) && clock == old(clock)
      ensures View() == Cancelled(WithConfig(old(View()), serverName, Config(0, false)), serverName)
    {
      SetConfigEnabled(serverName, false);
      CancelShutdown(serverName);
      SetProtectionEnd(serverName, 0);
      DisabledInOrder(old(View()), serverName);
    }

    method SetAutoShutdownEnabled(now: nat, serverName: string, enabled: bool)
      requires Valid() && clock <= now
      modifies this, serverConfigs.Values
      ensures Valid() && fresh(serverConfigs.Values - old(serverConfigs.Values))
      ensures View() == Next(setup, old(View()), SetEnabled(now, serverName, enabled))
    {
      if enabled {
        SetConfigEnabled(serverName, true);
      } else {
        DisableAutoShutdown(serverName);
      }
      PassTime(now);
    }

    ghost method PassTime(now: nat)
      requires Valid()
      modifies this`clock
      ensures View() == old(View()).(now := now)
    {
      clock := now;
    }

    // ---------- Timers ----------

    /** The callback of a timer that was not stopped in time; `players` is what it reads after taking its entry
        out of the map. */
    method TimerFired(now: nat, id: nat, players: Option<nat>) returns (stop: Option<string>)
      requires Valid() && clock <= now && id in pending && pending[id].deadline <= now
      requires pending[id].server in setup.uuids
      modifies this`clock, this`shutdownTimers, this`pending
      ensures View() == Next(setup, old(View()), Fire(now, id, players))
      ensures stop.Some? <==> Stops(old(View()), Fire(now, id, players), old(pending[id].server))
      ensures stop.Some? ==> stop.value == setup.uuids[old(pending[id].server)]
    {
      clock := now;
      var serverName := pending[id].server;
      pending := pending - {id};
      shutdownTimers := shutdownTimers - {serverName};
      if players.None? {
        return None;
      }
      if players.value > 0 {
        return None;
      }
      return Some(setup.uuids[serverName]);
    }

    method Shutdown(now: nat)
      requires Valid() && clock <= now
      modifies this`clock, this`shutdownTimers, this`pending
      ensures View() == Next(setup, old(View()), IdleModel.Shutdown(now))
    {
      clock := now;
      pending := pending - shutdownTimers.Values;
      shutdownTimers := map[];
    }
  }

  /** The second of two configurations is the one that stays. */
  lemma StoredAfter(s: State, server: string, c: Config, d: Config)
    ensures WithConfig(WithConfig(s, server, c), server, d) == WithConfig(s, server, d)
  {
    assert s.configs[server := c][server := d] == s.configs[server := d];
  }

  /** Switching off, cancelling and clearing the protection, one after the other. */
  lemma DisabledInOrder(s: State, server: string)
    ensures var off := Cancelled(WithConfig(s, server, ConfigOf(s, server).(enabled := false)), server);
            WithConfig(off, server, ConfigOf(off, server).(protectionEnd := 0))
            == Cancelled(WithConfig(s, server, Config(0, false)), server)
  {
    var c := ConfigOf(s, server).(enabled := false);
    assert s.configs[server := c][server := Config(0, false)] == s.configs[server := Config(0, false)];
  }

  /** One server's turn in a tick: when it comes, and what is read for the server. */
  datatype Turn = Turn(at: nat, players: Option<nat>, status: Option<int>)

  /** The effect of the turns of one tick, in order. */
  function Ticked(u: Setup, s: State, servers: seq<string>, turns: seq<Turn>): State
    requires |servers| == |turns|
  {
    if servers == [] then s
    else
      var n := |servers| - 1;
      Next(u, Ticked(u, s, servers[..n], turns[..n]), Tick(turns[n].at, servers[n], turns[n].players, turns[n].status))
  }

  // ---------- Whole ticks in runs ----------

  /** A tick over the listed servers is the run that goes on with one tick step for every position, in order; so all
      that is proved of runs holds with whole ticks in them. */
  lemma {:induction false} TickedIsRun(u: Setup, es: seq<Step>, servers: seq<string>, turns: seq<Turn>, steps: seq<Step>)
    requires |servers| == |turns| == |steps|
    requires forall k :: 0 <= k < |steps| ==> steps[k] == Tick(turns[k].at, servers[k], turns[k].players, turns[k].status)
    ensures Ticked(u, Run(u, es), servers, turns) == Run(u, es + steps)
  {
    if steps == [] {
      assert es + steps == es;
    } else {
      var n := |steps| - 1;
      TickedIsRun(u, es, servers[..n], turns[..n], steps[..n]);
      assert es + steps == es + steps[..n] + [steps[n]];
      assert (es + steps)[..|es + steps| - 1] == es + steps[..n];
    }
  }

  /** The turns come one after the other, from `now` on. */
  predicate InOrder(now: nat, turns: seq<Turn>) {
    && (forall k :: 0 <= k < |turns| ==> now <= turns[k].at)
    && (forall k, l :: 0 <= k < l < |turns| ==> turns[k].at <= turns[l].at)
  }

  /** What turns of other servers do to a server: nothing. */
  lemma {:induction false} OtherTurns(u: Setup, s: State, servers: seq<string>, turns: seq<Turn>, server: string)
    requires |servers| == |turns| && TimersMatch(s) && server !in servers && InOrder(s.now, turns)
    ensures var s' := Ticked(u, s, servers, turns);
            && TimersMatch(s') && s'.configs == s.configs && s'.now <= (if turns == [] then s.now else turns[|turns| - 1].at)
            && (server in s'.timers <==> server in s.timers)
  {
    if servers != [] {
      var n := |servers| - 1;
      OtherTurns(u, s, servers[..n], turns[..n], server);
      OneTurn(u, Ticked(u, s, servers[..n], turns[..n]), servers[n], turns[n], server);
    }
  }

  lemma OneTurn(u: Setup, s: State, name: string, turn: Turn, server: string)
    requires TimersMatch(s) && s.now <= turn.at
    ensures var e := Tick(turn.at, name, turn.players, turn.status);
            var s' := Next(u, s, e);
            && TimersMatch(s') && s'.configs == s.configs && s'.now == turn.at
            && (name != server ==> (server in s'.timers <==> server in s.timers))
  {
    NextKeepsMatch(u, s, Tick(turn.at, name, turn.players, turn.status));
    TimerComesAndGoes(u, s, Tick(turn.at, name, turn.players, turn.status), server);
  }

  /** Running, empty, known, and neither switched off nor protected nor with a timer, at its turn. */
  predicate ReadyToStop(u: Setup, s: State, server: string, turn: Turn) {
    && turn.players == Some(0) && turn.status == Some(3) && server in u.uuids && server !in s.timers
    && (server in s.configs ==> s.configs[server].enabled && s.configs[server].protectionEnd <= turn.at)
  }

  /** No other position has the same server. */
  predicate Once(servers: seq<string>, k: nat)
    requires k < |servers|
  {
    forall i :: 0 <= i < |servers| && i != k ==> servers[i] != servers[k]
  }

  /** After a tick, every server of the list that was ready to be stopped has a timer, due the idle time after its own
      turn. */
  lemma {:induction false} TickArmsIdleServers(u: Setup, s: State, servers: seq<string>, turns: seq<Turn>, k: nat)
    requires |servers| == |turns| && k < |servers| && TimersMatch(s) && InOrder(s.now, turns)
    requires Once(servers, k) && ReadyToStop(u, s, servers[k], turns[k])
    ensures TimersMatch(Ticked(u, s, servers, turns)) && Ticked(u, s, servers, turns).now <= turns[|turns| - 1].at
    ensures HasTimer(Ticked(u, s, servers, turns), servers[k], Timer(servers[k], turns[k].at + u.idleSeconds * 1000))
  {
    var n, server := |servers| - 1, servers[k];
    var before := Ticked(u, s, servers[..n], turns[..n]);
    assert turns == turns[..n] + [turns[n]];
    if k == n {
      LastTurnArms(u, s, servers[..n], turns[..n], server, turns[n]);
    } else {
      TickArmsIdleServers(u, s, servers[..n], turns[..n], k);
      OtherTurnKeepsTimer(u, before, servers[n], turns[n], server, Timer(server, turns[k].at + u.idleSeconds * 1000));
    }
  }

  lemma LastTurnArms(u: Setup, s: State, servers: seq<string>, turns: seq<Turn>, server: string, turn: Turn)
    requires |servers| == |turns| && TimersMatch(s) && InOrder(s.now, turns + [turn]) && server !in servers
    requires ReadyToStop(u, s, server, turn)
    ensures var s' := Next(u, Ticked(u, s, servers, turns), Tick(turn.at, server, turn.players, turn.status));
            TimersMatch(s') && s'.now == turn.at && HasTimer(s', server, Timer(server, turn.at + u.idleSeconds * 1000))
  {
    InOrderPrefix(s.now, turns, turn);
    OtherTurns(u, s, servers, turns, server);
    ReadyTurnArms(u, Ticked(u, s, servers, turns), server, turn);
  }

  lemma InOrderPrefix(now: nat, turns: seq<Turn>, turn: Turn)
    requires InOrder(now, turns + [turn])
    ensures InOrder(now, turns) && now <= turn.at && (turns != [] ==> turns[|turns| - 1].at <= turn.at)
  {
    var all := turns + [turn];
    assert forall k :: 0 <= k < |turns| ==> all[k] == turns[k];
    assert all[|turns|] == turn;
  }

  lemma OtherTurnKeepsTimer(u: Setup, s: State, name: string, turn: Turn, server: string, timer: Timer)
    requires TimersMatch(s) && s.now <= turn.at && name != server && HasTimer(s, server, timer)
    ensures var s' := Next(u, s, Tick(turn.at, name, turn.players, turn.status));
            TimersMatch(s') && s'.now == turn.at && HasTimer(s', server, timer)
  {
    OneTurn(u, s, name, turn, server);
    DeadlineKept(u, s, Tick(turn.at, name, turn.players, turn.status), server, timer);
  }

  lemma ReadyTurnArms(u: Setup, s: State, server: string, turn: Turn)
    requires TimersMatch(s) && s.now <= turn.at && ReadyToStop(u, s, server, turn)
    ensures var s' := Next(u, s, Tick(turn.at, server, turn.players, turn.status));
            TimersMatch(s') && s'.now == turn.at && HasTimer(s', server, Timer(server, turn.at + u.idleSeconds * 1000))
  {
    OneTurn(u, s, server, turn, server);
    DeadlineSet(u, s, Tick(turn.at, server, turn.players, turn.status), server);
  }

  /** ... and every server of the list with players, and not protected, has none. */
  lemma {:induction false} TickCancelsBusyServers(u: Setup, s: State, servers: seq<string>, turns: seq<Turn>, k: nat)
    requires |servers| == |turns| && k < |servers| && TimersMatch(s) && InOrder(s.now, turns)
    requires Once(servers, k) && turns[k].players.Some? && turns[k].players.value > 0
    requires servers[k] in s.configs ==> s.configs[servers[k]].protectionEnd <= turns[k].at
    ensures TimersMatch(Ticked(u, s, servers, turns)) && Ticked(u, s, servers, turns).now <= turns[|turns| - 1].at
    ensures servers[k] !in Ticked(u, s, servers, turns).timers
  {
    var n, server := |servers| - 1, servers[k];
    var before := Ticked(u, s, servers[..n], turns[..n]);
    if k == n {
      OtherTurns(u, s, servers[..n], turns[..n], server);
      OneTurn(u, before, server, turns[n], server);
      TimerComesAndGoes(u, before, Tick(turns[n].at, server, turns[n].players, turns[n].status), server);
    } else {
      TickCancelsBusyServers(u, s, servers[..n], turns[..n], k);
      OneTurn(u, before, servers[n], turns[n], server);
    }
  }
}
