/** The slots, the table and the score adjustment of the history (internal/loadbalancer/history.go). */
module HistoryModel {
  import opened Ema
  import opened RealMath

  // ---------- Periods ----------

  const PERIODS: nat := 96

  /** getPeriodIndex, with the local time of day as its argument. */
  function PeriodIndex(hour: nat, minute: nat): (p: nat)
    requires hour < 24 && minute < 60
    ensures p < PERIODS
    ensures p * 15 <= hour * 60 + minute < (p + 1) * 15
  {
    hour * 4 + minute / 15
  }

  function Digit(n: nat): char
    requires n < 10
  {
    ['0', '1', '2', '3', '4', '5', '6', '7', '8', '9'][n]
  }

  function TwoDigits(n: nat): string
    requires n < 100
  {
    [Digit(n / 10), Digit(n % 10)]
  }

  function ClockTime(minutes: nat): string
    requires minutes < 24 * 60
  {
    TwoDigits(minutes / 60) + [':'] + TwoDigits(minutes % 60)
  }

  function PeriodLabel(period: int): string {
    if period < 0 || period > 95 then ""
    else ClockTime(period * 15) + ['-'] + ClockTime((period * 15 + 15) % (24 * 60))
  }

  lemma TwoDigitsInjective(a: nat, b: nat)
    requires a < 100 && b < 100 && TwoDigits(a) == TwoDigits(b)
    ensures a == b
  {
    assert TwoDigits(a)[0] == TwoDigits(b)[0] && TwoDigits(a)[1] == TwoDigits(b)[1];
    assert a / 10 == b / 10 && a % 10 == b % 10;
  }

  /** Distinct slots have distinct labels. */
  lemma PeriodLabelsDistinct(p: nat, q: nat)
    requires p < PERIODS && q < PERIODS && PeriodLabel(p) == PeriodLabel(q)
    ensures p == q
  {
    var a, b := p * 15, q * 15;
    assert PeriodLabel(p)[..2] == TwoDigits(a / 60) && PeriodLabel(q)[..2] == TwoDigits(b / 60);
    assert PeriodLabel(p)[3..5] == TwoDigits(a % 60) && PeriodLabel(q)[3..5] == TwoDigits(b % 60);
    TwoDigitsInjective(a / 60, b / 60);
    TwoDigitsInjective(a % 60, b % 60);
  }

  /** Each label ends where the next one starts, all around the day. */
  lemma PeriodLabelsChain(p: nat)
    requires p < PERIODS
    ensures |PeriodLabel(p)| == 11
    ensures PeriodLabel(p)[6..] == PeriodLabel((p + 1) % PERIODS)[..5]
  {
    NextStart(p);
    LabelHalves(p);
    LabelHalves((p + 1) % PERIODS);
  }

  lemma NextStart(p: nat)
    requires p < PERIODS
    ensures (p * 15 + 15) % (24 * 60) == ((p + 1) % PERIODS) * 15
  {
    var q := if p == 95 then 0 else p + 1;
    assert (p + 1) % PERIODS == q;
  }

  lemma LabelHalves(p: nat)
    requires p < PERIODS
    ensures PeriodLabel(p)[..5] == ClockTime(p * 15)
    ensures PeriodLabel(p)[6..] == ClockTime((p * 15 + 15) % (24 * 60))
    ensures |PeriodLabel(p)| == 11
  {
    var start, end := ClockTime(p * 15), ClockTime((p * 15 + 15) % (24 * 60));
    assert |start| == 5 && |end| == 5;
    assert PeriodLabel(p) == start + ['-'] + end;
  }

  /** The number that two digit characters stand for. */
  function Reads(s: string): int
    requires |s| == 2
  {
    10 * (s[0] as int - '0' as int) + (s[1] as int - '0' as int)
  }

  lemma TwoDigitsRead(n: nat)
    requires n < 100
    ensures |TwoDigits(n)| == 2 && Reads(TwoDigits(n)) == n
    ensures '0' <= TwoDigits(n)[0] <= '9' && '0' <= TwoDigits(n)[1] <= '9'
  {
    DigitReads(n / 10);
    DigitReads(n % 10);
  }

  lemma DigitReads(n: nat)
    requires n < 10
    ensures Digit(n) as int - '0' as int == n && '0' <= Digit(n) <= '9'
  {
  }

  /** Read as hours and minutes, the two halves of a label are the start of the period and its end, a quarter of an
      hour later. */
  lemma PeriodLabelReads(p: nat)
    requires p < PERIODS
    ensures var shown := PeriodLabel(p);
            && |shown| == 11 && shown[2] == ':' && shown[5] == '-' && shown[8] == ':'
            && Reads(shown[..2]) * 60 + Reads(shown[3..5]) == p * 15 && 0 <= Reads(shown[3..5]) < 60
            && Reads(shown[6..8]) * 60 + Reads(shown[9..]) == (p * 15 + 15) % 1440 && 0 <= Reads(shown[9..]) < 60
  {
    LabelHalves(p);
    ClockTimeReads(p * 15);
    ClockTimeReads((p * 15 + 15) % 1440);
    var shown := PeriodLabel(p);
    assert shown[..2] == shown[..5][..2] && shown[3..5] == shown[..5][3..];
    assert shown[6..8] == shown[6..][..2] && shown[9..] == shown[6..][3..];
    assert shown == ClockTime(p * 15) + ['-'] + ClockTime((p * 15 + 15) % 1440);
  }

  lemma ClockTimeReads(minutes: nat)
    requires minutes < 24 * 60
    ensures var s := ClockTime(minutes);
            && |s| == 5 && s[2] == ':' && Reads(s[..2]) * 60 + Reads(s[3..]) == minutes && 0 <= Reads(s[3..]) < 60
  {
    TwoDigitsRead(minutes / 60);
    TwoDigitsRead(minutes % 60);
    assert ClockTime(minutes)[..2] == TwoDigits(minutes / 60) && ClockTime(minutes)[3..] == TwoDigits(minutes % 60);
  }

  // ---------- Slots ----------

  datatype PeriodStats = PeriodStats(avgLatency: real, avgJitter: real, samples: nat, index: int, slotLabel: string)

  function EmptyStats(i: int): PeriodStats { PeriodStats(0.0, 0.0, 0, i, PeriodLabel(i)) }

  /** BackendHistory: one entry for every period of the day. */
  type Slots = s: seq<PeriodStats> | |s| == PERIODS witness seq(PERIODS, i => EmptyStats(i))

  type Cache = map<string, Slots>

  type Period = n: nat | n < PERIODS

  function EmptySlots(): Slots { seq(PERIODS, i => EmptyStats(i)) }

  function Updated(stats: PeriodStats, latency: real, jitter: real): PeriodStats {
    if stats.samples == 0
    then stats.(avgLatency := latency, avgJitter := jitter, samples := 1)
    else stats.(avgLatency := Blend(latency, stats.avgLatency),
                avgJitter := Blend(jitter, stats.avgJitter),
                samples := stats.samples + 1)
  }

  function SlotsOf(cache: Cache, addr: string): Slots {
    if addr in cache then cache[addr] else EmptySlots()
  }

  function Recorded(cache: Cache, addr: string, period: Period, latency: real, jitter: real): Cache
  {
    var slots := SlotsOf(cache, addr);
    cache[addr := slots[period := Updated(slots[period], latency, jitter)]]
  }

  // ---------- The score adjustment ----------

  const MIN_SAMPLES: nat := 20

  function LatencyAdjustment(current: real, average: real): int {
    if average > 0.0 && current > 0.0 then
      var ratio := current / average;
      if ratio < 0.7 then 8 else if ratio < 0.85 then 4 else if ratio > 1.5 then -8 else if ratio > 1.2 then -4 else 0
    else 0
  }

  function JitterAdjustment(current: real, average: real): int {
    if average > 0.0 && current > 0.0 then
      var ratio := current / average;
      if ratio < 0.7 then 4 else if ratio > 1.5 then -4 else 0
    else 0
  }

  function HistoricalScore(cache: Cache, addr: string, period: Period, latency: real, jitter: real): int
  {
    if addr !in cache || cache[addr][period].samples < MIN_SAMPLES then 0
    else
      var stats := cache[addr][period];
      LatencyAdjustment(latency, stats.avgLatency) + JitterAdjustment(jitter, stats.avgJitter)
  }

  /** The adjustment is at most 12 either way, and nothing at all before 20 samples. */
  lemma HistoricalScoreBounded(cache: Cache, addr: string, period: Period, latency: real, jitter: real)
    ensures -12 <= HistoricalScore(cache, addr, period, latency, jitter) <= 12
    ensures addr in cache && cache[addr][period].samples < 20
            ==> HistoricalScore(cache, addr, period, latency, jitter) == 0
  {
  }

  lemma RatioOrder(x: real, y: real, n: real)
    requires x <= y && n > 0.0
    ensures x / n <= y / n
  {
    Quotient(y, n);
    QuotientBounds(x, n, y / n);
  }

  /** A current latency of 0, as windows of samples below a millisecond give it, hides that it is better than a
      larger one that would earn points. */
  predicate LatencyHidden(latency: real, latency': real, average: real) {
    latency == 0.0 && 0.0 < latency' < 0.85 * average
  }

  /** The same for a jitter of 0, as windows of equal samples give it. */
  predicate JitterHidden(jitter: real, jitter': real, average: real) {
    jitter == 0.0 && 0.0 < jitter' < 0.7 * average
  }

  lemma BandOfRatio(value: real, average: real, f: real)
    requires average > 0.0
    ensures value / average < f <==> value < f * average
  {
    QuotientBounds(value, average, f);
  }

  /** A lower latency earns at least the adjustment of a higher one, except where it is hidden. */
  lemma LatencyAdjustmentMonotoneIff(latency: real, latency': real, average: real)
    requires 0.0 <= latency <= latency'
    ensures LatencyAdjustment(latency, average) >= LatencyAdjustment(latency', average)
            <==> !LatencyHidden(latency, latency', average)
  {
    if average > 0.0 {
      RatioOrder(latency, latency', average);
      BandOfRatio(latency', average, 0.85);
    }
  }

  lemma JitterAdjustmentMonotoneIff(jitter: real, jitter': real, average: real)
    requires 0.0 <= jitter <= jitter'
    ensures JitterAdjustment(jitter, average) >= JitterAdjustment(jitter', average)
            <==> !JitterHidden(jitter, jitter', average)
  {
    if average > 0.0 {
      RatioOrder(jitter, jitter', average);
      BandOfRatio(jitter', average, 0.7);
    }
  }

  /** Measured at more than `f` times the average. */
  predicate Above(value: real, f: real, average: real) { average > 0.0 && value > f * average }

  /** Measured at less than `f` times the average. */
  predicate Below(value: real, f: real, average: real) { average > 0.0 && 0.0 < value < f * average }

  lemma LatencyBands(latency: real, average: real)
    requires latency >= 0.0
    ensures LatencyAdjustment(latency, average) == -8 <==> Above(latency, 1.5, average)
    ensures LatencyAdjustment(latency, average) < 0 <==> Above(latency, 1.2, average)
    ensures LatencyAdjustment(latency, average) > 0 <==> Below(latency, 0.85, average)
    ensures LatencyAdjustment(latency, average) == 8 <==> Below(latency, 0.7, average)
  {
    if average > 0.0 {
      QuotientBounds(latency, average, 1.5);
      QuotientBounds(latency, average, 1.2);
      QuotientBounds(latency, average, 0.85);
      QuotientBounds(latency, average, 0.7);
    }
  }

  lemma JitterBands(jitter: real, average: real)
    requires jitter >= 0.0
    ensures JitterAdjustment(jitter, average) < 0 <==> Above(jitter, 1.5, average)
    ensures JitterAdjustment(jitter, average) > 0 <==> Below(jitter, 0.7, average)
  {
    if average > 0.0 {
      QuotientBounds(jitter, average, 1.5);
      QuotientBounds(jitter, average, 0.7);
    }
  }

  /** The lower jitter is in a better band. */
  predicate JitterBandBetter(jitter: real, jitter': real, average: real) {
    || (Below(jitter, 0.7, average) && !Below(jitter', 0.7, average))
    || (!Above(jitter, 1.5, average) && Above(jitter', 1.5, average))
  }

  /** The lower latency is in a better band. */
  predicate LatencyBandBetter(latency: real, latency': real, average: real) {
    || (Below(latency, 0.7, average) && !Below(latency', 0.7, average))
    || (Below(latency, 0.85, average) && !Below(latency', 0.85, average))
    || (!Above(latency, 1.2, average) && Above(latency', 1.2, average))
    || (!Above(latency, 1.5, average) && Above(latency', 1.5, average))
  }

  /** A hidden latency costs eight points when the larger one is below 0.7 of the average, and the jitter makes up for
      that only from its best band to its worst; otherwise it costs four, and any better band of the jitter will do.
      A hidden jitter costs four. */
  predicate Regained(stats: PeriodStats, latency: real, jitter: real, latency': real, jitter': real) {
    && (LatencyHidden(latency, latency', stats.avgLatency) ==>
          if Below(latency', 0.7, stats.avgLatency)
          then Below(jitter, 0.7, stats.avgJitter) && Above(jitter', 1.5, stats.avgJitter)
          else JitterBandBetter(jitter, jitter', stats.avgJitter))
    && (JitterHidden(jitter, jitter', stats.avgJitter) ==> LatencyBandBetter(latency, latency', stats.avgLatency))
  }

  lemma LatencyBandStep(latency: real, latency': real, average: real)
    requires 0.0 <= latency <= latency'
    ensures LatencyAdjustment(latency, average) >= LatencyAdjustment(latency', average) + 4
            <==> LatencyBandBetter(latency, latency', average)
  {
    LatencyBands(latency, average);
    LatencyBands(latency', average);
  }

  lemma JitterBandStep(jitter: real, jitter': real, average: real)
    requires 0.0 <= jitter <= jitter'
    ensures JitterAdjustment(jitter, average) >= JitterAdjustment(jitter', average) + 4
            <==> JitterBandBetter(jitter, jitter', average)
    ensures JitterAdjustment(jitter, average) == JitterAdjustment(jitter', average) + 8
            <==> Below(jitter, 0.7, average) && Above(jitter', 1.5, average)
  {
    JitterBands(jitter, average);
    JitterBands(jitter', average);
  }

  /** When values that are no worse score no lower against the same history, zeros included: exactly when nothing is
      hidden by a zero, or what is hidden is regained by the bands of the other value. */
  lemma HistoricalScoreMonotoneIff(cache: Cache, addr: string, period: Period,
                                   latency: real, jitter: real, latency': real, jitter': real)
    requires 0.0 <= latency <= latency' && 0.0 <= jitter <= jitter'
    ensures HistoricalScore(cache, addr, period, latency, jitter)
            >= HistoricalScore(cache, addr, period, latency', jitter')
            <==>
            (addr in cache && cache[addr][period].samples >= MIN_SAMPLES ==>
               Regained(cache[addr][period], latency, jitter, latency', jitter'))
  {
    if addr in cache {
      PartsRegained(cache[addr][period], latency, jitter, latency', jitter');
    }
  }

  lemma PartsRegained(stats: PeriodStats, latency: real, jitter: real, latency': real, jitter': real)
    requires 0.0 <= latency <= latency' && 0.0 <= jitter <= jitter'
    ensures LatencyAdjustment(latency, stats.avgLatency) + JitterAdjustment(jitter, stats.avgJitter)
            >= LatencyAdjustment(latency', stats.avgLatency) + JitterAdjustment(jitter', stats.avgJitter)
            <==> Regained(stats, latency, jitter, latency', jitter')
  {
    LatencyAdjustmentMonotoneIff(latency, latency', stats.avgLatency);
    JitterAdjustmentMonotoneIff(jitter, jitter', stats.avgJitter);
    LatencyBands(latency', stats.avgLatency);
    LatencyBandStep(latency, latency', stats.avgLatency);
    JitterBandStep(jitter, jitter', stats.avgJitter);
  }

  /** The adjustment is negative exactly when the latency is far above the average, or somewhat above it with a jitter
      that does not make up for it, or the jitter is far above its average with a latency that does not. */
  lemma HistoricalScoreNegativeIff(cache: Cache, addr: string, period: Period, latency: real, jitter: real)
    requires latency >= 0.0 && jitter >= 0.0
    ensures HistoricalScore(cache, addr, period, latency, jitter) < 0 <==>
              && addr in cache && cache[addr][period].samples >= MIN_SAMPLES
              && var stats := cache[addr][period];
                 || Above(latency, 1.5, stats.avgLatency)
                 || (Above(latency, 1.2, stats.avgLatency) && !Below(jitter, 0.7, stats.avgJitter))
                 || (Above(jitter, 1.5, stats.avgJitter) && !Below(latency, 0.85, stats.avgLatency))
  {
    if addr in cache {
      LatencyBands(latency, cache[addr][period].avgLatency);
      JitterBands(jitter, cache[addr][period].avgJitter);
    }
  }

  // ---------- The table ----------

  datatype Row = Row(slotLabel: string, avgLatency: real, avgJitter: real, samples: nat)

  /** period_stats, with its primary key (backend_addr, period_index). */
  type Table = map<(string, int), Row>

  function RowOf(stats: PeriodStats): Row { Row(stats.slotLabel, stats.avgLatency, stats.avgJitter, stats.samples) }

  function FromRow(row: Row, index: int): PeriodStats {
    PeriodStats(row.avgLatency, row.avgJitter, row.samples, index, row.slotLabel)
  }

  function Addresses(table: Table): set<string> { set key | key in table :: key.0 }

  /** What loadFromDB leaves in a slot. */
  function LoadedSlot(table: Table, before: PeriodStats, addr: string, i: int): PeriodStats {
    if (addr, i) in table then FromRow(table[(addr, i)], i) else before
  }

  /** The cache that loadFromDB builds on top of `cache`; rows of slots out of range only create the entry
      of their backend. */
  function Loaded(table: Table, cache: Cache): Cache
  {
    map addr | addr in cache.Keys + Addresses(table) ::
      seq(PERIODS, i requires 0 <= i < PERIODS => LoadedSlot(table, SlotsOf(cache, addr)[i], addr, i))
  }
}
