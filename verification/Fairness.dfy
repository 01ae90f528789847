/** Round-robin fairness over runs of selections with a fixed list of available backends
    (internal/loadbalancer/strategy.go:14-30). */
module Fairness {
  import opened BackendClass
  import opened Strategy

  // ---------- The tickets ----------

  /** The counter after `t` selections, each of which is one atomic step, whoever makes it. */
  function CounterAfter(range: nat, c: nat, t: nat): nat
    requires range >= 1
  {
    if t == 0 then c else (CounterAfter(range, c, t - 1) + 1) % range
  }

  /** How many of the `m` selections after counter value `c` chose backend `j` of `n`. */
  function Picks(range: nat, c: nat, n: nat, m: nat, j: nat): nat
    requires range >= 1 && n >= 1
  {
    if m == 0 then 0
    else Picks(range, c, n, m - 1, j) + if CounterAfter(range, c, m) % n == j then 1 else 0
  }

  /** Every backend got its share of the `m` selections, rounded down or up. */
  ghost predicate Fair(range: nat, c: nat, n: nat, m: nat)
    requires range >= 1 && n >= 1
  {
    forall j :: 0 <= j < n ==> m / n <= Picks(range, c, n, m, j) <= (m + n - 1) / n
  }

  // ---------- Division ----------

  lemma MultiplesAreFarApart(d: int, n: int)
    requires n >= 1
    ensures d == 0 || d * n >= n || d * n <= -n
  {
    if d >= 1 {
      assert (d - 1) * n >= 0;
    } else if d <= -1 {
      assert (-d - 1) * n >= 0;
    }
  }

  lemma QuotientUnique(n: int, p: int, s: int, q: int, r: int)
    requires n >= 1 && p * n + s == q * n + r && 0 <= s < n && 0 <= r < n
    ensures p == q && s == r
  {
    assert (p - q) * n == p * n - q * n;
    MultiplesAreFarApart(p - q, n);
  }

  lemma DivisionIs(a: int, n: int, q: int, r: int)
    requires n >= 1 && a == q * n + r && 0 <= r < n
    ensures a / n == q && a % n == r
  {
    QuotientUnique(n, a / n, a % n, q, r);
  }

  lemma DivisionStep(a: nat, n: nat)
    requires n >= 1
    ensures a % n == n - 1 ==> (a + 1) / n == a / n + 1 && (a + 1) % n == 0
    ensures a % n < n - 1 ==> (a + 1) / n == a / n && (a + 1) % n == a % n + 1
  {
    if a % n == n - 1 {
      DivisionIs(a + 1, n, a / n + 1, 0);
    } else {
      DivisionIs(a + 1, n, a / n, a % n + 1);
    }
  }

  lemma ShiftedRemainder(x: nat, n: nat, j: nat)
    requires n >= 1 && j < n
    ensures (x + n - j) % n == 0 <==> x % n == j
  {
    var q, r := x / n, x % n;
    if r >= j {
      DivisionIs(x + n - j, n, q + 1, r - j);
    } else {
      DivisionIs(x + n - j, n, q, r + n - j);
    }
  }

  lemma FloorDifference(a: nat, m: nat, n: nat)
    requires n >= 1
    ensures m / n <= (a + m) / n - a / n <= (m + n - 1) / n
  {
    var s := a % n + m % n;
    if s < n {
      DivisionIs(a + m, n, a / n + m / n, s);
    } else {
      DivisionIs(a + m, n, a / n + m / n + 1, s - n);
    }
    if m % n == 0 {
      DivisionIs(m + n - 1, n, m / n, n - 1);
    } else {
      DivisionIs(m + n - 1, n, m / n + 1, m % n - 1);
    }
  }

  // ---------- Before the counter wraps ----------

  lemma {:induction false} CounterIsSum(range: nat, c: nat, t: nat)
    requires c < range
    ensures CounterAfter(range, c, t) == (c + t) % range
  {
    if t == 0 {
      DivisionIs(c, range, 0, c);
    } else {
      CounterIsSum(range, c, t - 1);
      DivisionStep(c + t - 1, range);
      var x := (c + t - 1) % range;
      if x < range - 1 { DivisionIs(x + 1, range, 0, x + 1); } else { DivisionIs(range, range, 1, 0); }
    }
  }

  /** The tickets of the next `m` selections come round as if the counter were unbounded. */
  ghost predicate Unbroken(range: nat, c: nat, n: nat, m: nat)
    requires range >= 1 && n >= 1
  {
    forall t :: 1 <= t <= m ==> CounterAfter(range, c, t) % n == (c + t) % n
  }

  lemma {:induction false} PicksAsQuotients(range: nat, c: nat, n: nat, m: nat, j: nat)
    requires range >= 1 && n >= 1 && j < n && Unbroken(range, c, n, m)
    ensures Picks(range, c, n, m, j) == (c + n - j + m) / n - (c + n - j) / n
  {
    if m > 0 {
      PicksAsQuotients(range, c, n, m - 1, j);
      DivisionStep(c + n - j + m - 1, n);
      ShiftedRemainder(c + m, n, j);
      assert CounterAfter(range, c, m) % n == (c + m) % n;
    }
  }

  lemma UnbrokenIsFair(range: nat, c: nat, n: nat, m: nat)
    requires range >= 1 && n >= 1 && Unbroken(range, c, n, m)
    ensures Fair(range, c, n, m)
  {
    forall j | 0 <= j < n ensures m / n <= Picks(range, c, n, m, j) <= (m + n - 1) / n {
      PicksAsQuotients(range, c, n, m, j);
      FloorDifference(c + n - j, m, n);
    }
  }

  lemma NoWrapIsUnbroken(range: nat, c: nat, n: nat, m: nat)
    requires n >= 1 && c + m < range
    ensures Unbroken(range, c, n, m)
  {
    forall t | 1 <= t <= m ensures CounterAfter(range, c, t) % n == (c + t) % n {
      CounterIsSum(range, c, t);
      DivisionIs(c + t, range, 0, c + t);
    }
  }

  /** Any `m` consecutive selections before the counter wraps choose each of the `n` backends either
      floor(m/n) or ceil(m/n) times, so each exactly once in any `n` consecutive ones. */
  lemma RoundRobinIsFair(c: nat, n: nat, m: nat)
    requires n >= 1 && c + m < COUNTER_RANGE
    ensures Fair(COUNTER_RANGE, c, n, m)
    ensures m == n ==> forall j :: 0 <= j < n ==> Picks(COUNTER_RANGE, c, n, m, j) == 1
  {
    NoWrapIsUnbroken(COUNTER_RANGE, c, n, m);
    UnbrokenIsFair(COUNTER_RANGE, c, n, m);
    DivisionIs(n, n, 1, 0);
    DivisionIs(n + n - 1, n, 1, n - 1);
  }

  // ---------- Across the wrap ----------

  lemma RemainderOfRemainder(x: nat, range: nat, n: nat)
    requires range >= 1 && n >= 1 && range % n == 0
    ensures (x % range) % n == x % n
  {
    var k, q, y := range / n, x / range, x % range;
    assert range == k * n;
    calc {
      x;
      q * range + y;
      { assert q * (k * n) == (q * k) * n; }
      (q * k) * n + y;
      { assert y == (y / n) * n + y % n; }
      (q * k) * n + (y / n) * n + y % n;
      (q * k + y / n) * n + y % n;
    }
    DivisionIs(x, n, q * k + y / n, y % n);
  }

  lemma {:induction false} PicksGrow(range: nat, c: nat, n: nat, m: nat, k: nat, j: nat)
    requires range >= 1 && n >= 1 && k <= m
    ensures Picks(range, c, n, k, j) <= Picks(range, c, n, m, j)
  {
    if k < m { PicksGrow(range, c, n, m - 1, k, j); }
  }

  /** When `n` does not divide the range, the last ticket before the wrap and one soon after it go to the
      same backend, too close together. */
  lemma WrapIsUnfair(range: nat, n: nat)
    requires range >= 2 && n >= 1 && range % n != 0
    ensures !Fair(range, range - 2, n, range % n + 1)
  {
    var r, c := range % n, range - 2;
    var m := r + 1;
    CounterIsSum(range, c, 1);
    CounterIsSum(range, c, m);
    DivisionIs(range - 1, range, 0, range - 1);
    DivisionIs(range - 1, n, range / n, r - 1);
    RemainderAtMost(range, n);
    DivisionIs(c + m, range, 1, r - 1);
    DivisionIs(r - 1, n, 0, r - 1);
    assert Picks(range, c, n, 1, r - 1) == 1;
    PicksGrow(range, c, n, m - 1, 1, r - 1);
    assert Picks(range, c, n, m, r - 1) >= 2;
    DivisionIs(m + n - 1, n, 1, m - 1);
  }

  lemma RemainderAtMost(a: nat, n: nat)
    requires n >= 1
    ensures a % n <= a
  {
    assert a / n >= 0;
    assert (a / n) * n >= 0;
  }

  /** Rotation stays fair for every window, wraps included, exactly when the number of backends divides the
      range of the counter. */
  lemma FairAcrossWrapIff(range: nat, n: nat)
    requires range >= 2 && n >= 1
    ensures (forall c, m: nat :: 0 <= c < range ==> Fair(range, c, n, m)) <==> range % n == 0
  {
    if range % n == 0 {
      forall c, m: nat | 0 <= c < range ensures Fair(range, c, n, m) {
        forall t | 1 <= t <= m ensures CounterAfter(range, c, t) % n == (c + t) % n {
          CounterIsSum(range, c, t);
          RemainderOfRemainder(c + t, range, n);
        }
        UnbrokenIsFair(range, c, n, m);
      }
    } else {
      WrapIsUnfair(range, n);
    }
  }

  // ---------- The selections themselves ----------

  function Occurrences(chosen: seq<Backend>, b: Backend): nat {
    if chosen == [] then 0
    else Occurrences(chosen[..|chosen| - 1], b) + if chosen[|chosen| - 1] == b then 1 else 0
  }

  /** The t-th of these selections went to the backend of the t-th ticket. */
  ghost predicate ByTickets(available: seq<Backend>, c: nat, chosen: seq<Backend>)
    requires available != []
  {
    forall t :: 0 <= t < |chosen| ==> chosen[t] == available[CounterAfter(COUNTER_RANGE, c, t + 1) % |available|]
  }

  lemma OneMoreByTickets(available: seq<Backend>, c: nat, chosen: seq<Backend>, b: Backend)
    requires available != [] && ByTickets(available, c, chosen)
    requires b == available[CounterAfter(COUNTER_RANGE, c, |chosen| + 1) % |available|]
    ensures ByTickets(available, c, chosen + [b])
  {
  }

  /** Counting a backend is counting its tickets, when no backend occurs twice. */
  lemma {:induction false} OccurrencesArePicks(available: seq<Backend>, c: nat, chosen: seq<Backend>, j: nat)
    requires available != [] && ByTickets(available, c, chosen) && j < |available|
    requires forall i, k :: 0 <= i < k < |available| ==> available[i] != available[k]
    ensures Occurrences(chosen, available[j]) == Picks(COUNTER_RANGE, c, |available|, |chosen|, j)
  {
    if chosen != [] {
      var m := |chosen|;
      assert chosen[..m - 1][..m - 1] == chosen[..m - 1];
      OccurrencesArePicks(available, c, chosen[..m - 1], j);
      assert chosen[m - 1] == available[CounterAfter(COUNTER_RANGE, c, m) % |available|];
    }
  }

  /** `m` selections in a row over a list of which nothing changes in between: each available backend was selected
      floor(m/n) or ceil(m/n) times, unless the counter wrapped. */
  method SelectRepeatedly(tickets: RoundRobin, backends: seq<Backend>, m: nat) returns (chosen: seq<Backend>)
    requires Filtered(backends) != [] && tickets.counter < COUNTER_RANGE
    requires forall i, k :: 0 <= i < k < |Filtered(backends)| ==> Filtered(backends)[i] != Filtered(backends)[k]
    modifies tickets
    ensures |chosen| == m && ByTickets(Filtered(backends), old(tickets.counter), chosen)
    ensures old(tickets.counter) + m < COUNTER_RANGE ==>
              var n := |Filtered(backends)|;
              forall j :: 0 <= j < n ==> m / n <= Occurrences(chosen, Filtered(backends)[j]) <= (m + n - 1) / n
  {
    ghost var available, c := Filtered(backends), tickets.counter;
    chosen := [];
    for t := 0 to m
      invariant available == Filtered(backends) && |chosen| == t
      invariant tickets.counter == CounterAfter(COUNTER_RANGE, c, t)
      invariant ByTickets(available, c, chosen)
    {
      var b := tickets.Select(backends);
      SomethingChosen(backends, b);
      OneMoreByTickets(available, c, chosen, b);
      chosen := chosen + [b];
    }
    FairSelections(available, c, chosen);
  }

  lemma SomethingChosen(backends: seq<Backend>, chosen: Backend?)
    requires Filtered(backends) != [] && ChoosesAvailable(backends, chosen)
    ensures chosen != null
  {
    FilteredMembers(backends);
    assert Filtered(backends)[0] in Filtered(backends);
  }

  lemma FairSelections(available: seq<Backend>, c: nat, chosen: seq<Backend>)
    requires available != [] && ByTickets(available, c, chosen)
    requires forall i, k :: 0 <= i < k < |available| ==> available[i] != available[k]
    ensures c + |chosen| < COUNTER_RANGE ==>
              var n, m := |available|, |chosen|;
              forall j :: 0 <= j < n ==> m / n <= Occurrences(chosen, available[j]) <= (m + n - 1) / n
  {
    if c + |chosen| < COUNTER_RANGE {
      RoundRobinIsFair(c, |available|, |chosen|);
      forall j | 0 <= j < |available|
        ensures |chosen| / |available| <= Occurrences(chosen, available[j]) <= (|chosen| + |available| - 1) / |available|
      {
        OccurrencesArePicks(available, c, chosen, j);
      }
    }
  }
}
