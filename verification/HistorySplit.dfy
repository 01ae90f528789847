/** Saves with their read and their write apart: the goroutine that Record starts reads the slot through a shared
    pointer after the lock is released, and its row reaches the table later
    (internal/loadbalancer/history.go:148-192). */
module HistorySplit {
  import opened Wrappers
  import opened HistoryModel
  import HistoryRuns

  /** A save started by Record, the row it has read, and whether it has written it. */
  datatype Save = Save(addr: string, period: Period, row: Option<Row>, written: bool)

  datatype SplitHist = SplitHist(cache: Cache, table: Table, saves: seq<Save>)

  datatype Step =
    | Record(addr: string, period: Period, latency: real, jitter: real)
    | Read(id: nat)
    | Write(id: nat)

  predicate CanRead(h: SplitHist, e: Step) { e.Read? && e.id < |h.saves| && h.saves[e.id].row.None? }

  predicate CanWrite(h: SplitHist, e: Step) {
    e.Write? && e.id < |h.saves| && h.saves[e.id].row.Some? && !h.saves[e.id].written
  }

  function SlotOf(h: SplitHist, addr: string, period: Period): PeriodStats { SlotsOf(h.cache, addr)[period] }

  /** Any number of saves can be under way, and each takes its two steps whenever it likes. */
  function Next(h: SplitHist, e: Step): SplitHist {
    if e.Record? then
      h.(cache := Recorded(h.cache, e.addr, e.period, e.latency, e.jitter),
         saves := h.saves + [Save(e.addr, e.period, None, false)])
    else if CanRead(h, e) then
      var s := h.saves[e.id];
      h.(saves := h.saves[e.id := s.(row := Some(RowOf(SlotOf(h, s.addr, s.period))))])
    else if CanWrite(h, e) then
      var s := h.saves[e.id];
      h.(table := h.table[(s.addr, s.period as int) := s.row.value], saves := h.saves[e.id := s.(written := true)])
    else h
  }

  function Run(table: Table, es: seq<Step>): SplitHist {
    if es == [] then SplitHist(Loaded(table, map[]), table, [])
    else Next(Run(table, es[..|es| - 1]), es[|es| - 1])
  }

  ghost predicate AllWritten(h: SplitHist) {
    forall id :: 0 <= id < |h.saves| ==> h.saves[id].written
  }

  /** A save whose read and write follow each other at once is the save in one step. */
  lemma UnsplitSaveIsSave(h: SplitHist, id: nat)
    requires CanRead(h, Read(id))
    ensures var s := h.saves[id];
            var whole := HistoryRuns.Hist(h.cache, h.table, multiset{(s.addr, s.period as int)});
            var h' := Next(Next(h, Read(id)), Write(id));
            !s.written ==>
              && h'.cache == h.cache && h'.saves[id].written
              && h'.table == HistoryRuns.Next(whole, HistoryRuns.Save(s.addr, s.period)).table
  {
  }

  // ---------- When things happened ----------

  /** The time of the last record for a slot: the number of steps up to and including it, 0 for none. */
  function LastRecord(es: seq<Step>, addr: string, period: Period): nat {
    if es == [] then 0
    else
      var e := es[|es| - 1];
      if e.Record? && e.addr == addr && e.period == period then |es| else LastRecord(es[..|es| - 1], addr, period)
  }

  /** The time at which a save read its slot. */
  function ReadTime(table: Table, es: seq<Step>, id: nat): nat {
    if es == [] then 0
    else
      var e := es[|es| - 1];
      if CanRead(Run(table, es[..|es| - 1]), e) && e.id == id then |es| else ReadTime(table, es[..|es| - 1], id)
  }

  /** The save that wrote the row of a slot last. */
  function LastWriter(table: Table, es: seq<Step>, addr: string, period: Period): Option<nat> {
    if es == [] then None
    else
      var h, e := Run(table, es[..|es| - 1]), es[|es| - 1];
      if CanWrite(h, e) && h.saves[e.id].addr == addr && h.saves[e.id].period == period then Some(e.id)
      else LastWriter(table, es[..|es| - 1], addr, period)
  }

  /** The last write of the row of a slot carries what was read after the last record for it. */
  predicate WrittenFresh(table: Table, es: seq<Step>, addr: string, period: Period) {
    var w := LastWriter(table, es, addr, period);
    w.Some? && ReadTime(table, es, w.value) > LastRecord(es, addr, period)
  }

  // ---------- What every run keeps ----------

  lemma SlotAfter(h: SplitHist, e: Step, addr: string, period: Period)
    ensures SlotOf(Next(h, e), addr, period)
         == if e.Record? && e.addr == addr && e.period == period
            then Updated(SlotOf(h, addr, period), e.latency, e.jitter) else SlotOf(h, addr, period)
  {
  }

  /** What a save has read is the slot exactly as long as no record for it came after the read. */
  ghost predicate ReadOk(table: Table, es: seq<Step>, id: nat) {
    var h := Run(table, es);
    id < |h.saves| && h.saves[id].row.Some? ==>
      var s := h.saves[id];
      && s.row.value.samples <= SlotOf(h, s.addr, s.period).samples
      && (ReadTime(table, es, id) > LastRecord(es, s.addr, s.period) <==> s.row.value == RowOf(SlotOf(h, s.addr, s.period)))
  }

  lemma {:induction false} TimesInRange(table: Table, es: seq<Step>, id: nat, addr: string, period: Period)
    ensures ReadTime(table, es, id) <= |es| && LastRecord(es, addr, period) <= |es|
  {
    if es != [] { TimesInRange(table, es[..|es| - 1], id, addr, period); }
  }

  lemma {:induction false} ReadIsSlotWhileUnrecorded(table: Table, es: seq<Step>, id: nat)
    ensures ReadOk(table, es, id)
  {
    if es != [] {
      var t, e := es[..|es| - 1], es[|es| - 1];
      var h := Run(table, t);
      ReadIsSlotWhileUnrecorded(table, t, id);
      if id < |h.saves| {
        TimesInRange(table, t, id, h.saves[id].addr, h.saves[id].period);
        SlotAfter(h, e, h.saves[id].addr, h.saves[id].period);
      }
    }
  }

  /** The row of a slot is what its last writer read, or the row the process started on. */
  lemma {:induction false} RowIsLastWritten(table: Table, es: seq<Step>, addr: string, period: Period)
    ensures var h, w, key := Run(table, es), LastWriter(table, es, addr, period), (addr, period as int);
            if w.Some? then
              && w.value < |h.saves| && h.saves[w.value].row.Some?
              && h.saves[w.value].addr == addr && h.saves[w.value].period == period
              && key in h.table && h.table[key] == h.saves[w.value].row.value
            else (key in h.table <==> key in table) && (key in table ==> h.table[key] == table[key])
  {
    if es != [] {
      RowIsLastWritten(table, es[..|es| - 1], addr, period);
    }
  }

  lemma {:induction false} WrittenHasWriter(table: Table, es: seq<Step>, id: nat)
    requires id < |Run(table, es).saves| && Run(table, es).saves[id].written
    ensures var s := Run(table, es).saves[id];
            LastWriter(table, es, s.addr, s.period).Some?
  {
    var t := es[..|es| - 1];
    var h := Run(table, t);
    if id < |h.saves| && h.saves[id].written { WrittenHasWriter(table, t, id); }
  }

  lemma {:induction false} RecordHasSave(table: Table, es: seq<Step>, addr: string, period: Period) returns (id: nat)
    requires LastRecord(es, addr, period) > 0
    ensures var saves := Run(table, es).saves;
            id < |saves| && saves[id].addr == addr && saves[id].period == period
  {
    var t, e := es[..|es| - 1], es[|es| - 1];
    if e.Record? && e.addr == addr && e.period == period {
      id := |Run(table, t).saves|;
    } else {
      id := RecordHasSave(table, t, addr, period);
    }
  }

  // ---------- When the table catches up ----------

  /** After any run in which every save has been written, the row of a recorded slot equals the slot exactly when
      its last write carries what was read after the last record for it. */
  lemma RowIsSlotIffWrittenFresh(table: Table, es: seq<Step>, addr: string, period: Period)
    requires AllWritten(Run(table, es)) && LastRecord(es, addr, period) > 0
    ensures var h, key := Run(table, es), (addr, period as int);
            && key in h.table
            && (h.table[key] == RowOf(SlotOf(h, addr, period)) <==> WrittenFresh(table, es, addr, period))
  {
    var id := RecordHasSave(table, es, addr, period);
    WrittenHasWriter(table, es, id);
    RowIsLastWritten(table, es, addr, period);
    ReadIsSlotWhileUnrecorded(table, es, LastWriter(table, es, addr, period).value);
  }

  // ---------- When a restart rebuilds the cache ----------

  /** What holds of the slot and the row with the given key, whatever the order of the saves. */
  ghost predicate KeyOk(table: Table, es: seq<Step>, addr: string, i: int) {
    var h := Run(table, es);
    && HistoryRuns.WellFormedRow(h.table, addr, i)
    && (0 <= i < PERIODS ==> SlotOk(table, es, addr, i))
  }

  predicate SlotOk(table: Table, es: seq<Step>, addr: string, i: Period) {
    SlotGood(Run(table, es), LastRecord(es, addr, i) > 0, addr, i)
  }

  predicate SlotGood(h: SplitHist, recorded: bool, addr: string, i: Period) {
    var stats, key := SlotOf(h, addr, i), (addr, i as int);
    && stats.index == i && stats.slotLabel == PeriodLabel(i)
    && (stats.samples == 0 ==> stats == EmptyStats(i) && key !in h.table)
    && (stats.samples > 0 ==> addr in h.cache)
    && (recorded ==> stats.samples > 0)
    && (!recorded && stats.samples > 0 ==> key in h.table && h.table[key] == RowOf(stats))
  }

  predicate SaveOk(table: Table, es: seq<Step>, id: nat) {
    var h := Run(table, es);
    id < |h.saves| ==>
      var s := h.saves[id];
      && LastRecord(es, s.addr, s.period) > 0
      && (s.row.Some? ==> s.row.value.samples > 0 && s.row.value.slotLabel == PeriodLabel(s.period))
  }

  lemma StartOk(table: Table, addr: string, i: int)
    requires HistoryRuns.WellFormedTable(table)
    ensures KeyOk(table, [], addr, i) && HistoryRuns.EntryConsistent(AsHist(Run(table, [])), addr)
  {
    HistoryRuns.StartConsistent(table, addr, i);
  }

  /** The state as one of the runs with saves in one step, with nothing pending. */
  function AsHist(h: SplitHist): HistoryRuns.Hist { HistoryRuns.Hist(h.cache, h.table, multiset{}) }

  lemma {:induction false} SavesOk(table: Table, es: seq<Step>, id: nat)
    requires HistoryRuns.WellFormedTable(table)
    ensures SaveOk(table, es, id)
  {
    if es != [] {
      var t := es[..|es| - 1];
      var h := Run(table, t);
      SavesOk(table, t, id);
      if id < |h.saves| { KeysOk(table, t, h.saves[id].addr, h.saves[id].period); }
    }
  }

  lemma {:induction false} KeysOk(table: Table, es: seq<Step>, addr: string, i: int)
    requires HistoryRuns.WellFormedTable(table)
    ensures KeyOk(table, es, addr, i) && HistoryRuns.EntryConsistent(AsHist(Run(table, es)), addr)
  {
    if es == [] {
      StartOk(table, addr, i);
    } else {
      var t, e := es[..|es| - 1], es[|es| - 1];
      KeysOk(table, t, addr, i);
      if e.Write? { SavesOk(table, t, e.id); }
      RowStep(Run(table, t), e, addr, i);
      if 0 <= i < PERIODS {
        SlotAfter(Run(table, t), e, addr, i);
        SlotStep(Run(table, t), LastRecord(t, addr, i) > 0, e, addr, i);
      }
      EntryStep(Run(table, t), e, addr);
    }
  }

  lemma RowStep(h: SplitHist, e: Step, addr: string, i: int)
    requires HistoryRuns.WellFormedRow(h.table, addr, i)
    requires CanWrite(h, e) ==>
               var s := h.saves[e.id];
               s.row.value.samples > 0 && s.row.value.slotLabel == PeriodLabel(s.period)
    ensures HistoryRuns.WellFormedRow(Next(h, e).table, addr, i)
  {
  }

  lemma SlotStep(h: SplitHist, recorded: bool, e: Step, addr: string, i: Period)
    requires SlotGood(h, recorded, addr, i)
    requires CanWrite(h, e) && h.saves[e.id].addr == addr && h.saves[e.id].period == i ==> recorded
    ensures SlotGood(Next(h, e), recorded || (e.Record? && e.addr == addr && e.period == i), addr, i)
  {
    SlotAfter(h, e, addr, i);
  }

  lemma EntryStep(h: SplitHist, e: Step, addr: string)
    requires HistoryRuns.EntryConsistent(AsHist(h), addr)
    ensures HistoryRuns.EntryConsistent(AsHist(Next(h, e)), addr)
  {
    if e.Record? {
      HistoryRuns.NextKeepsEntry(AsHist(h), HistoryRuns.Record(e.addr, e.period, e.latency, e.jitter), addr);
    }
  }

  /** Once every save has been written, loading the table gives back the cache exactly when each recorded slot was
      written fresh. */
  lemma RestartRebuildsIffWrittenFresh(table: Table, es: seq<Step>)
    requires HistoryRuns.WellFormedTable(table) && AllWritten(Run(table, es))
    ensures Loaded(Run(table, es).table, map[]) == Run(table, es).cache
            <==> forall addr, i: Period :: LastRecord(es, addr, i) > 0 ==> WrittenFresh(table, es, addr, i)
  {
    var h := Run(table, es);
    if forall addr, i: Period :: LastRecord(es, addr, i) > 0 ==> WrittenFresh(table, es, addr, i) {
      FreshRebuilds(table, es);
    }
    if Loaded(h.table, map[]) == h.cache {
      forall addr, i: Period | LastRecord(es, addr, i) > 0 ensures WrittenFresh(table, es, addr, i) {
        RowIsSlotIffWrittenFresh(table, es, addr, i);
        KeysOk(table, es, addr, i);
        LoadedRow(h.table, addr, i);
      }
    }
  }

  lemma LoadedRow(table: Table, addr: string, i: Period)
    requires (addr, i as int) in table
    ensures addr in Loaded(table, map[]) && RowOf(Loaded(table, map[])[addr][i]) == table[(addr, i as int)]
  {
    assert (addr, i as int).0 in Addresses(table);
  }

  lemma FreshRebuilds(table: Table, es: seq<Step>)
    requires HistoryRuns.WellFormedTable(table) && AllWritten(Run(table, es))
    requires forall addr, i: Period :: LastRecord(es, addr, i) > 0 ==> WrittenFresh(table, es, addr, i)
    ensures Loaded(Run(table, es).table, map[]) == Run(table, es).cache
  {
    var h := Run(table, es);
    forall addr, i | (addr, i) in h.table ensures HistoryRuns.WellFormedRow(h.table, addr, i) {
      KeysOk(table, es, addr, i);
    }
    forall addr ensures HistoryRuns.EntryConsistent(AsHist(h), addr) { KeysOk(table, es, addr, 0); }
    forall addr, i: Period ensures HistoryRuns.SlotConsistent(AsHist(h), addr, i) {
      KeysOk(table, es, addr, i);
      if LastRecord(es, addr, i) > 0 { RowIsSlotIffWrittenFresh(table, es, addr, i); }
    }
    HistoryRuns.LoadedIsCache(AsHist(h));
  }

  // ---------- It happens ----------

  /** Two saves, the second of which overtakes the first. */
  function Overtaking(addr: string, period: Period, first: real, second: real): seq<Step> {
    [Record(addr, period, first, 0.0), Read(0), Record(addr, period, second, 0.0), Read(1), Write(1), Write(0)]
  }

  lemma RunOne(table: Table, es: seq<Step>, e: Step)
    ensures Run(table, es + [e]) == Next(Run(table, es), e)
  {
    assert (es + [e])[..|es|] == es;
  }

  lemma RecordThenRead(h: SplitHist, addr: string, period: Period, latency: real)
    ensures var id, h' := |h.saves|, Next(Next(h, Record(addr, period, latency, 0.0)), Read(|h.saves|));
            && h'.table == h.table && |h'.saves| == id + 1 && h'.saves[..id] == h.saves
            && SlotOf(h', addr, period).samples == SlotOf(h, addr, period).samples + 1
            && h'.saves[id] == Save(addr, period, Some(RowOf(SlotOf(h', addr, period))), false)
  {
  }

  lemma OvertakingRead(addr: string, period: Period, first: real, second: real)
    ensures var h, es := Run(map[], Overtaking(addr, period, first, second)[..4]), Overtaking(addr, period, first, second);
            && |h.saves| == 2 && SlotOf(h, addr, period).samples == 2
            && h.saves[0].row.Some? && h.saves[0].row.value.samples == 1 && h.saves[1].row.Some?
            && forall id :: 0 <= id < 2 ==> h.saves[id].addr == addr && h.saves[id].period == period && !h.saves[id].written
  {
    var es := Overtaking(addr, period, first, second);
    var start := Run(map[], []);
    assert es[..1] + [es[1]] == es[..2] && es[..2] + [es[2]] == es[..3] && es[..3] + [es[3]] == es[..4] && [] + [es[0]] == es[..1];
    RunOne(map[], [], es[0]);
    RunOne(map[], es[..1], es[1]);
    RecordThenRead(start, addr, period, first);
    RunOne(map[], es[..2], es[2]);
    RunOne(map[], es[..3], es[3]);
    RecordThenRead(Run(map[], es[..2]), addr, period, second);
    assert SlotOf(start, addr, period).samples == 0;
  }

  /** ... leave an old row behind, with nothing left to be written. */
  lemma OvertakingLeavesOldRow(addr: string, period: Period, first: real, second: real)
    ensures var es := Overtaking(addr, period, first, second);
            && AllWritten(Run(map[], es)) && !WrittenFresh(map[], es, addr, period)
            && Loaded(Run(map[], es).table, map[]) != Run(map[], es).cache
  {
    var es := Overtaking(addr, period, first, second);
    assert es[..4] + [es[4]] == es[..5] && es[..5] + [es[5]] == es;
    OvertakingRead(addr, period, first, second);
    RunOne(map[], es[..4], es[4]);
    RunOne(map[], es[..5], es[5]);
    assert Run(map[], es).table[(addr, period as int)].samples == 1;
    LastRecordOfOvertaking(addr, period, first, second);
    RowIsSlotIffWrittenFresh(map[], es, addr, period);
    RestartRebuildsIffWrittenFresh(map[], es);
  }

  lemma LastRecordOfOvertaking(addr: string, period: Period, first: real, second: real)
    ensures LastRecord(Overtaking(addr, period, first, second), addr, period) > 0
  {
    var es := Overtaking(addr, period, first, second);
    assert es[..5][..4] == es[..4] && es[..4][..3] == es[..3];
    assert LastRecord(es[..3], addr, period) == 3;
    assert LastRecord(es[..4], addr, period) == 3 && LastRecord(es[..5], addr, period) == 3;
  }
}
