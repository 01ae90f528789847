/** The history over whole runs: what a slot holds, and that the table catches up with the cache
    (internal/loadbalancer/history.go:78-192). */
module HistoryRuns {
  import opened Ema
  import opened HistoryModel

  /** The cache, the table, and the saves that Record has started and that have not run yet. */
  datatype Hist = Hist(cache: Cache, table: Table, pending: multiset<(string, int)>)

  datatype Step =
    | Record(addr: string, period: Period, latency: real, jitter: real)
    | Save(addr: string, period: Period)

  /** A save is one step that writes the slot as it is by then. Nothing happens without a pending save. */
  function Next(h: Hist, e: Step): Hist {
    match e
    case Record(addr, period, latency, jitter) =>
      Hist(Recorded(h.cache, addr, period, latency, jitter), h.table, h.pending + multiset{(addr, period as int)})
    case Save(addr, period) =>
      if (addr, period as int) !in h.pending then h
      else Hist(h.cache,
                h.table[(addr, period as int) := RowOf(SlotsOf(h.cache, addr)[period])],
                h.pending - multiset{(addr, period as int)})
  }

  /** A process that starts on `table`. */
  function Run(table: Table, es: seq<Step>): Hist {
    if es == [] then Hist(Loaded(table, map[]), table, multiset{})
    else Next(Run(table, es[..|es| - 1]), es[|es| - 1])
  }

  // ---------- A slot is the average of its samples ----------

  /** The samples recorded for one slot of one backend, in order. */
  function SlotSamples(es: seq<Step>, addr: string, period: Period): seq<(real, real)> {
    if es == [] then []
    else
      var e := es[|es| - 1];
      SlotSamples(es[..|es| - 1], addr, period) +
      if e.Record? && e.addr == addr && e.period == period then [(e.latency, e.jitter)] else []
  }

  function Latencies(xs: seq<(real, real)>): seq<real> { seq(|xs|, i requires 0 <= i < |xs| => xs[i].0) }

  function Jitters(xs: seq<(real, real)>): seq<real> { seq(|xs|, i requires 0 <= i < |xs| => xs[i].1) }

  /** The statistics of a slot that has seen exactly the samples `xs`. */
  ghost predicate Summarizes(stats: PeriodStats, period: Period, xs: seq<(real, real)>) {
    && stats.index == period && stats.slotLabel == PeriodLabel(period)
    && stats.samples == |xs|
    && (xs == [] ==> stats == EmptyStats(period))
    && (xs != [] ==> stats.avgLatency == Average(Latencies(xs)) && stats.avgJitter == Average(Jitters(xs)))
  }

  lemma SummarizesOneMore(stats: PeriodStats, period: Period, xs: seq<(real, real)>, x: (real, real))
    requires Summarizes(stats, period, xs)
    ensures Summarizes(Updated(stats, x.0, x.1), period, xs + [x])
  {
    assert Latencies(xs + [x])[..|xs|] == Latencies(xs);
    assert Jitters(xs + [x])[..|xs|] == Jitters(xs);
  }

  /** A step changes a slot only by recording a sample for it. */
  lemma SlotStep(h: Hist, e: Step, addr: string, period: Period)
    ensures var slot, slot' := SlotsOf(h.cache, addr)[period], SlotsOf(Next(h, e).cache, addr)[period];
            slot' == if e.Record? && e.addr == addr && e.period == period
                     then Updated(slot, e.latency, e.jitter) else slot
    ensures addr in Next(h, e).cache <==> addr in h.cache || (e.Record? && e.addr == addr)
  {
  }

  /** In every run of a first process, with records of any backends and slots and saves in between, each
      slot is the moving average of its own samples and of nothing else. */
  lemma {:induction false} SlotsAverageTheirSamples(es: seq<Step>, addr: string, period: Period)
    ensures Summarizes(SlotsOf(Run(map[], es).cache, addr)[period], period, SlotSamples(es, addr, period))
  {
    if es != [] {
      var t, e := es[..|es| - 1], es[|es| - 1];
      var xs, slot := SlotSamples(t, addr, period), SlotsOf(Run(map[], t).cache, addr)[period];
      SlotsAverageTheirSamples(t, addr, period);
      SlotStep(Run(map[], t), e, addr, period);
      if e.Record? && e.addr == addr && e.period == period {
        SummarizesOneMore(slot, period, xs, (e.latency, e.jitter));
      } else {
        assert xs + [] == xs;
      }
    }
  }

  /** A save writes the averages, the count and the label of its slot as they are by then, each into its column. */
  lemma SaveWritesSlot(h: Hist, addr: string, period: Period)
    requires (addr, period as int) in h.pending
    ensures var slot, key, h' := SlotsOf(h.cache, addr)[period], (addr, period as int), Next(h, Save(addr, period));
            && h'.table.Keys == h.table.Keys + {key} && h'.table - {key} == h.table - {key}
            && h'.table[key] == Row(slot.slotLabel, slot.avgLatency, slot.avgJitter, slot.samples)
  {
  }

  // ---------- The table catches up ----------

  /** What the program ever writes to the table. */
  ghost predicate WellFormedTable(table: Table) {
    forall addr, i :: (addr, i) in table ==> WellFormedRow(table, addr, i)
  }

  predicate WellFormedRow(table: Table, addr: string, i: int) {
    (addr, i) in table ==>
      0 <= i < PERIODS && table[(addr, i)].samples > 0 && table[(addr, i)].slotLabel == PeriodLabel(i)
  }

  /** A recorded slot matches its row or has a save pending; an unrecorded one is empty and has no row. */
  predicate SlotConsistent(h: Hist, addr: string, i: Period) {
    var stats, key := SlotsOf(h.cache, addr)[i], (addr, i as int);
    && stats.index == i && stats.slotLabel == PeriodLabel(i)
    && (stats.samples == 0 ==> stats == EmptyStats(i) && key !in h.table && key !in h.pending)
    && (stats.samples > 0 ==>
          addr in h.cache && (key in h.pending || (key in h.table && h.table[key] == RowOf(stats))))
  }

  ghost predicate HasSamples(slots: Slots) {
    exists i: Period :: slots[i].samples > 0
  }

  /** A backend has an entry exactly because some slot of it was recorded. */
  ghost predicate EntryConsistent(h: Hist, addr: string) {
    addr in h.cache ==> HasSamples(h.cache[addr])
  }

  lemma StartConsistent(table: Table, addr: string, i: int)
    requires WellFormedTable(table)
    ensures var h := Run(table, []);
            WellFormedRow(h.table, addr, i) && EntryConsistent(h, addr)
            && (0 <= i < PERIODS ==> SlotConsistent(h, addr, i))
  {
    var h := Run(table, []);
    assert WellFormedRow(table, addr, i);
    if addr in h.cache {
      var key :| key in table && key.0 == addr;
      assert WellFormedRow(table, addr, key.1) && (addr, key.1) == key;
      assert h.cache[addr][key.1].samples > 0;
    } else {
      assert (addr, i) !in table;
    }
  }

  lemma NextKeepsConsistent(h: Hist, e: Step, addr: string, i: int)
    requires WellFormedRow(h.table, addr, i)
    requires 0 <= i < PERIODS ==> SlotConsistent(h, addr, i)
    ensures WellFormedRow(Next(h, e).table, addr, i)
    ensures 0 <= i < PERIODS ==> SlotConsistent(Next(h, e), addr, i)
  {
    if 0 <= i < PERIODS { SlotStep(h, e, addr, i); }
  }

  lemma NextKeepsEntry(h: Hist, e: Step, addr: string)
    requires EntryConsistent(h, addr)
    ensures EntryConsistent(Next(h, e), addr)
  {
    var h' := Next(h, e);
    if addr in h'.cache {
      if e.Record? && e.addr == addr {
        assert h'.cache[addr][e.period].samples > 0;
      } else {
        assert h'.cache[addr] == h.cache[addr];
      }
    }
  }

  /** In every run, with the saves executed in any order and at any time, each recorded slot matches its
      row or has a save pending. */
  lemma {:induction false} RunsStayConsistent(table: Table, es: seq<Step>, addr: string, i: int)
    requires WellFormedTable(table)
    ensures var h := Run(table, es);
            WellFormedRow(h.table, addr, i) && EntryConsistent(h, addr)
            && (0 <= i < PERIODS ==> SlotConsistent(h, addr, i))
  {
    if es == [] {
      StartConsistent(table, addr, i);
    } else {
      var t := es[..|es| - 1];
      RunsStayConsistent(table, t, addr, i);
      NextKeepsConsistent(Run(table, t), es[|es| - 1], addr, i);
      NextKeepsEntry(Run(table, t), es[|es| - 1], addr);
    }
  }

  /** Once every save has run, loading the table gives back the cache, and the table is again one that a
      process can start on. */
  lemma RestartRebuildsCache(table: Table, es: seq<Step>)
    requires WellFormedTable(table) && Run(table, es).pending == multiset{}
    ensures Loaded(Run(table, es).table, map[]) == Run(table, es).cache
    ensures WellFormedTable(Run(table, es).table)
  {
    var h := Run(table, es);
    forall addr, i | (addr, i) in h.table ensures WellFormedRow(h.table, addr, i) {
      RunsStayConsistent(table, es, addr, i);
    }
    forall addr ensures EntryConsistent(h, addr) { RunsStayConsistent(table, es, addr, 0); }
    forall addr, i: Period ensures SlotConsistent(h, addr, i) { RunsStayConsistent(table, es, addr, i); }
    LoadedIsCache(h);
  }

  lemma LoadedIsCache(h: Hist)
    requires WellFormedTable(h.table) && h.pending == multiset{}
    requires forall addr :: EntryConsistent(h, addr)
    requires forall addr, i: Period :: SlotConsistent(h, addr, i)
    ensures Loaded(h.table, map[]) == h.cache
  {
    var l := Loaded(h.table, map[]);
    assert l.Keys == h.cache.Keys by {
      forall addr ensures addr in l <==> addr in h.cache { SameEntries(h, addr); }
    }
    forall addr | addr in l ensures l[addr] == h.cache[addr] {
      forall i: Period ensures l[addr][i] == h.cache[addr][i] { assert SlotConsistent(h, addr, i); }
    }
  }

  lemma SameEntries(h: Hist, addr: string)
    requires WellFormedTable(h.table) && h.pending == multiset{}
    requires EntryConsistent(h, addr)
    requires forall i: Period :: SlotConsistent(h, addr, i)
    ensures addr in Addresses(h.table) <==> addr in h.cache
  {
    if addr in Addresses(h.table) {
      var key :| key in h.table && key.0 == addr;
      assert (addr, key.1) == key && WellFormedRow(h.table, addr, key.1);
      assert SlotConsistent(h, addr, key.1);
    }
    if addr in h.cache {
      var k: Period :| h.cache[addr][k].samples > 0;
      assert SlotConsistent(h, addr, k) && (addr, k as int) in h.table;
    }
  }

  lemma RestartUnchanged(table: Table, es: seq<Step>)
    requires WellFormedTable(table) && Run(table, es).pending == multiset{}
    ensures Run(Run(table, es).table, []) == Run(table, es)
  {
    RestartRebuildsCache(table, es);
  }

  /** Two processes in a row are one long process, when the first one saves everything before it stops. */
  lemma RestartContinues(table: Table, es: seq<Step>, more: seq<Step>)
    requires WellFormedTable(table) && Run(table, es).pending == multiset{}
    ensures Run(Run(table, es).table, more) == Run(table, es + more)
  {
    RestartUnchanged(table, es);
    SameStateSameFuture(Run(table, es).table, table, es, more);
  }

  lemma {:induction false} SameStateSameFuture(restarted: Table, table: Table, es: seq<Step>, more: seq<Step>)
    requires Run(restarted, []) == Run(table, es)
    ensures Run(restarted, more) == Run(table, es + more)
  {
    if more == [] {
      assert es + more == es;
    } else {
      var t, e := more[..|more| - 1], more[|more| - 1];
      SameStateSameFuture(restarted, table, es, t);
      LastSplitOff(es, more);
      SameNext(restarted, t, table, es + t, e);
    }
  }

  lemma LastSplitOff(es: seq<Step>, more: seq<Step>)
    requires more != []
    ensures more == more[..|more| - 1] + [more[|more| - 1]]
    ensures es + more == es + more[..|more| - 1] + [more[|more| - 1]]
  {
  }

  lemma SameNext(a: Table, s: seq<Step>, b: Table, t: seq<Step>, e: Step)
    requires Run(a, s) == Run(b, t)
    ensures Run(a, s + [e]) == Run(b, t + [e])
  {
    RunOneMore(a, s, e);
    RunOneMore(b, t, e);
  }

  lemma RunOneMore(table: Table, t: seq<Step>, e: Step)
    ensures Run(table, t + [e]) == Next(Run(table, t), e)
  {
    var es := t + [e];
    assert es[..|es| - 1] == t && es[|es| - 1] == e;
  }
}
