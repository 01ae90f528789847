/** One backend as the object the balancer shares between its loops (internal/loadbalancer/backend.go). */
module BackendClass {
  import opened RealMath
  import opened Stats
  import opened BackendModel
  import opened Score

  class Backend {
    const addr: string
    const maxConns: int
    const windowSize: pos

    var currentConns: int
    var failCount: int
    var successCount: int
    var healthy: bool
    var disabled: bool
    var latencyWindow: seq<int>
    var players: set<string>
    var trustCoeff: int

    /** The value of all fields. */
    ghost function View(): State
      reads this
    {
      State(addr, maxConns, windowSize, currentConns, failCount, successCount, healthy, disabled,
            latencyWindow, players, trustCoeff)
    }

    constructor (addr: string, maxConns: int, windowSize: pos)
      ensures View() == Fresh(addr, maxConns, windowSize) && Valid(View())
    {
      this.addr, this.maxConns, this.windowSize := addr, maxConns, windowSize;
      currentConns, failCount, successCount := 0, 0, 0;
      healthy, disabled := true, false;
      latencyWindow, players, trustCoeff := [], {}, 100;
    }

    // ---------- Measurements ----------

    method RecordLatency(latency: nat)
      modifies this`latencyWindow
      ensures View() == BackendModel.RecordLatency(old(View()), latency)
    {
      var ms := Milliseconds(latency);
      if |latencyWindow| >= windowSize {
        latencyWindow := latencyWindow[1..];
      }
      latencyWindow := latencyWindow + [ms];
    }

    method AvgLatency() returns (avg: real)
      ensures avg == Mean(latencyWindow)
    {
      if |latencyWindow| == 0 {
        return 0.0;
      }
      var sum := 0;
      for i := 0 to |latencyWindow|
        invariant sum == Sum(latencyWindow[..i])
      {
        assert latencyWindow[..i + 1][..i] == latencyWindow[..i];
        sum := sum + latencyWindow[i];
      }
      assert latencyWindow[..|latencyWindow|] == latencyWindow;
      avg := sum as real / |latencyWindow| as real;
    }

    method Jitter(sqrt: real -> real) returns (jitter: real)
      ensures jitter == JitterOf(latencyWindow, sqrt)
    {
      if |latencyWindow| < 2 {
        return 0.0;
      }
      var sum := 0;
      for i := 0 to |latencyWindow|
        invariant sum == Sum(latencyWindow[..i])
      {
        assert latencyWindow[..i + 1][..i] == latencyWindow[..i];
        sum := sum + latencyWindow[i];
      }
      assert latencyWindow[..|latencyWindow|] == latencyWindow;
      var avg := sum as real / |latencyWindow| as real;
      var variance := 0.0;
      for i := 0 to |latencyWindow|
        invariant variance == SquaredDeviations(latencyWindow[..i], avg)
      {
        assert latencyWindow[..i + 1][..i] == latencyWindow[..i];
        var diff := latencyWindow[i] as real - avg;
        variance := variance + Square(diff);
      }
      jitter := sqrt(variance / |latencyWindow| as real);
    }

    method Trend() returns (trend: real)
      ensures trend == TrendOf(latencyWindow)
    {
      var n := |latencyWindow|;
      if n < 8 {
        return 0.0;
      }
      var recentStart := n - n / 4;
      if recentStart < 1 {
        recentStart := 1;
      }
      var recentSum, olderSum := 0, 0;
      for i := 0 to recentStart
        invariant olderSum == Sum(latencyWindow[..i])
      {
        assert latencyWindow[..i + 1][..i] == latencyWindow[..i];
        olderSum := olderSum + latencyWindow[i];
      }
      for i := recentStart to n
        invariant recentSum == Sum(latencyWindow[recentStart..i])
      {
        assert latencyWindow[recentStart..i + 1][..i - recentStart] == latencyWindow[recentStart..i];
        recentSum := recentSum + latencyWindow[i];
      }
      assert latencyWindow[recentStart..n] == latencyWindow[recentStart..];
      var recentAvg := recentSum as real / (n - recentStart) as real;
      var olderAvg := olderSum as real / recentStart as real;
      if olderAvg == 0.0 {
        return 0.0;
      }
      trend := (recentAvg - olderAvg) / olderAvg * 100.0;
    }

    /** The score against the given minima: never outside 0..100, and 0 for a backend that is down or
        disabled. */
    method RelativeHealthScore(minLatency: real, minJitter: real, sqrt: real -> real) returns (score: int)
      ensures score == RelativeScore(View(), sqrt, minLatency, minJitter)
      ensures 0 <= score <= 100
    {
      if disabled {
        return 0;
      }
      if !healthy {
        return 0;
      }
      ghost var m := MetricsOf(View(), sqrt);
      var s := 0.0;
      var avg := AvgLatency();
      if avg > 0.0 && minLatency > 0.0 {
        s := s + 40.0 * (minLatency / avg);
      } else if avg == 0.0 {
        s := s + 40.0;
      }
      ghost var afterLatency := RelativePoints(40.0, m.avg, minLatency);
      assert s == afterLatency;
      var jitter := Jitter(sqrt);
      if jitter > 0.0 && minJitter > 0.0 {
        s := s + 30.0 * (minJitter / jitter);
      } else if jitter == 0.0 {
        s := s + 30.0;
      }
      ghost var afterJitter := afterLatency + RelativePoints(30.0, m.jitter, minJitter);
      assert s == afterJitter;
      if maxConns > 0 {
        var ratio := currentConns as real / maxConns as real;
        s := s + 20.0 * (1.0 - ratio);
      } else {
        s := s + 20.0;
      }
      assert s == afterJitter + LoadPoints(m);
      if failCount == 0 {
        s := s + 10.0;
      }
      var trend := Trend();
      if trend > 20.0 {
        s := s - 10.0;
      } else if trend > 10.0 {
        s := s - 5.0;
      } else if trend < -20.0 {
        s := s + 10.0;
      } else if trend < -10.0 {
        s := s + 5.0;
      }
      assert s == RawScore(m, minLatency, minJitter);
      var trust := trustCoeff as real / 100.0;
      s := Times(s, trust);
      if s < 0.0 {
        s := 0.0;
      }
      if s > 100.0 {
        s := 100.0;
      }
      score := s.Floor;
    }

    // ---------- Trust and health ----------

    method IncreaseTrust()
      modifies this`trustCoeff
      ensures View() == BackendModel.IncreaseTrust(old(View()))
    {
      var current := trustCoeff;
      if current < 100 {
        var newVal := current + 10;
        if newVal > 100 {
          newVal := 100;
        }
        trustCoeff := newVal;
      }
    }

    method ResetTrust()
      modifies this`trustCoeff
      ensures View() == old(View()).(trust := 50)
    {
      trustCoeff := 50;
    }

    method IsAvailable() returns (available: bool)
      ensures available <==> BackendModel.IsAvailable(View())
    {
      if disabled {
        return false;
      }
      if !healthy {
        return false;
      }
      if maxConns > 0 && currentConns >= maxConns {
        return false;
      }
      return true;
    }

    method RecordSuccess()
      modifies this`failCount
      ensures View() == old(View()).(fails := 0)
    {
      failCount := 0;
    }

    method RecordHealthCheckSuccess()
      modifies this`failCount, this`successCount
      ensures View() == old(View()).(fails := 0, succs := old(successCount) + 1)
    {
      failCount := 0;
      successCount := successCount + 1;
    }

    method ResetSuccessCount()
      modifies this`successCount
      ensures View() == old(View()).(succs := 0)
    {
      successCount := 0;
    }

    method RecordFailure()
      modifies this`failCount
      ensures View() == old(View()).(fails := old(failCount) + 1)
    {
      failCount := failCount + 1;
    }

    method RecordHealthCheckFailure()
      modifies this`failCount, this`successCount
      ensures View() == old(View()).(fails := old(failCount) + 1, succs := 0)
    {
      failCount := failCount + 1;
      successCount := 0;
    }

    method SetHealthy(on: bool)
      modifies this`healthy
      ensures View() == old(View()).(healthy := on)
    {
      healthy := on;
    }

    method SetDisabled(on: bool)
      modifies this`disabled
      ensures View() == old(View()).(disabled := on)
    {
      disabled := on;
    }

    // ---------- Players ----------

    method AddPlayer(name: string)
      modifies this`players, this`currentConns
      ensures View() == BackendModel.AddPlayer(old(View()), name)
    {
      players := players + {name};
      currentConns := currentConns + 1;
    }

    /** Lowers the counter only when the name was tracked. */
    method RemovePlayer(name: string)
      modifies this`players, this`currentConns
      ensures View() == BackendModel.RemovePlayer(old(View()), name)
    {
      var tracked := name in players;
      if tracked {
        players := players - {name};
        currentConns := currentConns - 1;
      }
    }
  }

  /** The values of a list of backends. */
  ghost function Views(backends: seq<Backend>): (vs: seq<State>)
    reads backends
    ensures |vs| == |backends|
    ensures forall i :: 0 <= i < |backends| ==> vs[i] == backends[i].View()
  {
    if backends == [] then [] else Views(backends[..|backends| - 1]) + [backends[|backends| - 1].View()]
  }
}
