/** The history as the object shared by the health check and the strategies
    (internal/loadbalancer/history.go). */
module HistoryClass {
  import opened Wrappers
  import opened Ema
  import opened HistoryModel
  import HistoryRuns

  /** What reading one row adds to a cache. */
  function WithRow(cache: Cache, addr: string, i: int, row: Row): Cache {
    var slots := SlotsOf(cache, addr);
    cache[addr := if 0 <= i < PERIODS then slots[i := FromRow(row, i)] else slots]
  }

  lemma LoadOneMoreRow(table: Table, cache: Cache, key: (string, int), row: Row)
    requires key !in table
    ensures Loaded(table[key := row], cache) == WithRow(Loaded(table, cache), key.0, key.1, row)
  {
    var table' := table[key := row];
    var l, l' := Loaded(table', cache), WithRow(Loaded(table, cache), key.0, key.1, row);
    assert Addresses(table') == Addresses(table) + {key.0} by {
      assert forall k :: k in table' <==> k in table || k == key;
      assert key in table';
      forall a | a in Addresses(table) ensures a in Addresses(table') {
        var k :| k in table && k.0 == a;
        assert k in table';
      }
    }
    forall addr | addr in l ensures l[addr] == l'[addr] {
      SlotsAfterRow(table, cache, key, row, addr);
    }
  }

  lemma SlotsAfterRow(table: Table, cache: Cache, key: (string, int), row: Row, addr: string)
    requires key !in table && addr in cache.Keys + Addresses(table) + {key.0}
    requires Addresses(table[key := row]) == Addresses(table) + {key.0}
    ensures Loaded(table[key := row], cache)[addr]
         == WithRow(Loaded(table, cache), key.0, key.1, row)[addr]
  {
    forall i | (addr, i) in table ensures addr in Addresses(table) { assert (addr, i).0 == addr; }
  }

  lemma NothingLoaded(cache: Cache)
    ensures Loaded(map[], cache) == cache
  {
    assert Addresses(map[]) == {};
    forall addr | addr in cache ensures Loaded(map[], cache)[addr] == cache[addr] {
      assert SlotsOf(cache, addr) == cache[addr];
    }
  }

  /** A row of a query result, with its key. */
  datatype KeyedRow = KeyedRow(addr: string, periodIndex: int, row: Row)

  function TableOf(rows: seq<KeyedRow>): Table {
    if rows == [] then map[]
    else
      var r := rows[|rows| - 1];
      TableOf(rows[..|rows| - 1])[(r.addr, r.periodIndex) := r.row]
  }

  /** The primary key: no two rows share it. */
  predicate DistinctKeys(rows: seq<KeyedRow>) {
    forall i, j :: 0 <= i < j < |rows| ==> rows[i].addr != rows[j].addr || rows[i].periodIndex != rows[j].periodIndex
  }

  function WithRows(cache: Cache, rows: seq<KeyedRow>): Cache {
    if rows == [] then cache
    else
      var r := rows[|rows| - 1];
      WithRow(WithRows(cache, rows[..|rows| - 1]), r.addr, r.periodIndex, r.row)
  }

  lemma {:induction false} KeysOfTable(rows: seq<KeyedRow>, addr: string, periodIndex: int)
    requires (addr, periodIndex) in TableOf(rows)
    ensures exists i :: 0 <= i < |rows| && rows[i].addr == addr && rows[i].periodIndex == periodIndex
  {
    var r := rows[|rows| - 1];
    if (r.addr, r.periodIndex) != (addr, periodIndex) {
      KeysOfTable(rows[..|rows| - 1], addr, periodIndex);
    }
  }

  /** Reading the rows one by one loads the table, in whatever order they come. */
  lemma {:induction false} RowByRowIsLoaded(rows: seq<KeyedRow>, cache: Cache)
    requires DistinctKeys(rows)
    ensures WithRows(cache, rows) == Loaded(TableOf(rows), cache)
  {
    if rows == [] {
      NothingLoaded(cache);
    } else {
      var t, r := rows[..|rows| - 1], rows[|rows| - 1];
      RowByRowIsLoaded(t, cache);
      if (r.addr, r.periodIndex) in TableOf(t) { KeysOfTable(t, r.addr, r.periodIndex); }
      LoadOneMoreRow(TableOf(t), cache, (r.addr, r.periodIndex), r.row);
    }
  }

  class HistoryManager {
    var cache: Cache
    var table: Table
    /** Saves started by Record that have not run yet. */
    var pending: multiset<(string, int)>

    ghost function View(): HistoryRuns.Hist
      reads this
    {
      HistoryRuns.Hist(cache, table, pending)
    }

    /** A manager over an existing table starts in the state of an empty run on it. */
    constructor (rows: seq<KeyedRow>)
      requires DistinctKeys(rows)
      ensures View() == HistoryRuns.Run(TableOf(rows), [])
    {
      cache, table, pending := map[], TableOf(rows), multiset{};
      new;
      LoadFromDB(rows);
    }

    /** `rows` is the answer to the query for all rows, in the order the database returns them. */
    method LoadFromDB(rows: seq<KeyedRow>)
      requires DistinctKeys(rows) && TableOf(rows) == table
      modifies this`cache
      ensures cache == Loaded(table, old(cache))
    {
      for i := 0 to |rows|
        invariant cache == WithRows(old(cache), rows[..i])
      {
        assert rows[..i + 1][..i] == rows[..i];
        LoadRow(rows[i].addr, rows[i].periodIndex, rows[i].row);
      }
      assert rows[..|rows|] == rows;
      RowByRowIsLoaded(rows, old(cache));
    }

    /** Rows of periods out of range only create the entry of their backend. */
    method LoadRow(addr: string, periodIndex: int, row: Row)
      modifies this`cache
      ensures cache == WithRow(old(cache), addr, periodIndex, row)
    {
      var slots := NewSlots();
      if addr in cache {
        slots := cache[addr];
      }
      if periodIndex >= 0 && periodIndex < 96 {
        slots := slots[periodIndex :=
                       PeriodStats(row.avgLatency, row.avgJitter, row.samples, periodIndex, row.slotLabel)];
      }
      cache := cache[addr := slots];
    }

    /** The 96 empty periods of a backend seen for the first time. */
    method NewSlots() returns (slots: Slots)
      ensures slots == EmptySlots()
    {
      var built: seq<PeriodStats> := [];
      for i := 0 to 96
        invariant |built| == i && forall k :: 0 <= k < i ==> built[k] == EmptyStats(k)
      {
        built := built + [EmptyStats(i)];
      }
      slots := built;
    }

    /** Records a sample at the given local time and starts a save of its slot. */
    method Record(addr: string, latency: real, jitter: real, hour: nat, minute: nat)
      requires hour < 24 && minute < 60
      modifies this`cache, this`pending
      ensures View() == HistoryRuns.Next(old(View()), HistoryRuns.Record(addr, PeriodIndex(hour, minute), latency, jitter))
    {
      var period := PeriodIndex(hour, minute);
      var slots := NewSlots();
      if addr in cache {
        slots := cache[addr];
      }
      var stats := slots[period];
      if stats.samples == 0 {
        stats := stats.(avgLatency := latency, avgJitter := jitter);
      } else {
        stats := stats.(avgLatency := ALPHA * latency + (1.0 - ALPHA) * stats.avgLatency,
                        avgJitter := ALPHA * jitter + (1.0 - ALPHA) * stats.avgJitter);
      }
      stats := stats.(samples := stats.samples + 1);
      cache := cache[addr := slots[period := stats]];
      pending := pending + multiset{(addr, period as int)};
    }

    /** One pending save runs: it writes the slot as it is by then. */
    method SavePeriodStats(addr: string, period: Period)
      requires (addr, period as int) in pending && addr in cache
      modifies this`table, this`pending
      ensures View() == HistoryRuns.Next(old(View()), HistoryRuns.Save(addr, period))
    {
      var stats := cache[addr][period];
      table := table[(addr, period as int) := Row(stats.slotLabel, stats.avgLatency, stats.avgJitter, stats.samples)];
      pending := pending - multiset{(addr, period as int)};
    }

    method GetPeriodStats(addr: string, period: int) returns (stats: Option<PeriodStats>)
      ensures stats.Some? <==> 0 <= period < PERIODS && addr in cache
      ensures stats.Some? ==> stats.value == cache[addr][period]
    {
      if period < 0 || period > 95 {
        return None;
      }
      if addr !in cache {
        return None;
      }
      return Some(cache[addr][period]);
    }

    /** The adjustment for the current values: at most 12 points either way. */
    method HistoricalScore(addr: string, currentLatency: real, currentJitter: real, period: Period) returns (score: int)
      ensures score == HistoryModel.HistoricalScore(cache, addr, period, currentLatency, currentJitter)
      ensures -12 <= score <= 12
    {
      var stats := GetPeriodStats(addr, period);
      if stats.None? || stats.value.samples < MIN_SAMPLES {
        return 0;
      }
      score := 0;
      if stats.value.avgLatency > 0.0 && currentLatency > 0.0 {
        var latencyRatio := currentLatency / stats.value.avgLatency;
        if latencyRatio < 0.7 {
          score := score + 8;
        } else if latencyRatio < 0.85 {
          score := score + 4;
        } else if latencyRatio > 1.5 {
          score := score - 8;
        } else if latencyRatio > 1.2 {
          score := score - 4;
        }
      }
      if stats.value.avgJitter > 0.0 && currentJitter > 0.0 {
        var jitterRatio := currentJitter / stats.value.avgJitter;
        if jitterRatio < 0.7 {
          score := score + 4;
        } else if jitterRatio > 1.5 {
          score := score - 4;
        }
      }
    }
  }
}
