/** The `metric_history` table and the statements of one rollup transaction.
    Instants are whole microseconds, the resolution of TIMESTAMPTZ, and float64 columns are reals. */
module MetricRollup {
  const HOUR := 3_600_000_000
  const RAW_RETENTION := 86_400_000_000
  const HOURLY_RETENTION := 15_552_000_000_000

  datatype Series = Platform | Server(id: string)

  datatype Metric =
    | Cpu | Memory | MemoryLimit | Connections | Disk
    | NetworkRx | NetworkTx | ReadOps | WriteOps | ReadTuples | WriteTuples

  /** The numeric columns of one row. A column that an INSERT does not name holds its default, zero. */
  datatype Row = Row(avg: map<Metric, real>, min: map<Metric, real>, max: map<Metric, real>)

  datatype RawRow = RawRow(series: Series, bucket: int, row: Row)

  /** The table, split by resolution: raw rows in insertion order, hourly rows by their unique key. */
  datatype Table = Table(raw: seq<RawRow>, hourly: map<(Series, int), Row>)

  function AvgColumns(s: Series): set<Metric> {
    if s == Platform then {Cpu, Memory, Disk, ReadOps, WriteOps}
    else {Cpu, Memory, Connections, Disk, ReadTuples, WriteTuples}
  }

  function MinColumns(): set<Metric> {
    {Cpu, Memory}
  }

  function MaxColumns(s: Series): set<Metric> {
    if s == Platform then {Cpu, Memory, MemoryLimit, Disk, NetworkRx, NetworkTx, ReadOps, WriteOps}
    else {Cpu, Memory, Connections, Disk, ReadTuples, WriteTuples}
  }

  function Column(columns: map<Metric, real>, m: Metric): real {
    if m in columns then columns[m] else 0.0
  }

  /** The raw row of one sample: the same reading in the avg, min and max column of a metric. */
  function RawOf(s: Series, at: int, reading: map<Metric, real>): RawRow {
    RawRow(s, at, Row(map m | m in AvgColumns(s) :: Column(reading, m),
                      map m | m in MinColumns() :: Column(reading, m),
                      map m | m in MaxColumns(s) :: Column(reading, m)))
  }

  predicate IsSample(r: RawRow) {
    && r.row.avg.Keys == AvgColumns(r.series)
    && r.row.min.Keys == MinColumns()
    && r.row.max.Keys == MaxColumns(r.series)
    && (forall m | m in AvgColumns(r.series) :: r.row.avg[m] == r.row.max[m])
    && (forall m | m in MinColumns() :: r.row.min[m] == r.row.max[m])
  }

  predicate AllSamples(raw: seq<RawRow>) {
    forall r | r in raw :: IsSample(r)
  }

  /** `date_trunc('hour', t)` in UTC. */
  function HourOf(t: int): (h: int)
    ensures h <= t < h + HOUR
  {
    t - t % 3_600_000_000
  }

  // ---------- aggregation ----------

  function Sum(g: seq<RawRow>, m: Metric): real {
    if g == [] then 0.0 else Sum(g[..|g| - 1], m) + Column(g[|g| - 1].row.avg, m)
  }

  function Mean(g: seq<RawRow>, m: Metric): real
    requires g != []
  {
    Sum(g, m) / |g| as real
  }

  function Least(g: seq<RawRow>, m: Metric): real
    requires g != []
  {
    var last := Column(g[|g| - 1].row.min, m);
    if |g| == 1 then last
    else var rest := Least(g[..|g| - 1], m); if last < rest then last else rest
  }

  function Greatest(g: seq<RawRow>, m: Metric): real
    requires g != []
  {
    var last := Column(g[|g| - 1].row.max, m);
    if |g| == 1 then last
    else var rest := Greatest(g[..|g| - 1], m); if last > rest then last else rest
  }

  /** avg/min/max of a non-empty group, in the columns that the scope of `s` aggregates. */
  function Aggregate(s: Series, g: seq<RawRow>): Row
    requires g != []
  {
    Row(map m | m in AvgColumns(s) :: Mean(g, m),
        map m | m in MinColumns() :: Least(g, m),
        map m | m in MaxColumns(s) :: Greatest(g, m))
  }

  predicate InGroup(r: RawRow, s: Series, hour: int, cutoff: int) {
    r.series == s && HourOf(r.bucket) == hour && r.bucket < cutoff
  }

  /** The rows that `WHERE bucket_start < cutoff GROUP BY series, hour` puts in one group. */
  function Group(raw: seq<RawRow>, s: Series, hour: int, cutoff: int): (g: seq<RawRow>)
    ensures forall r :: r in g <==> r in raw && InGroup(r, s, hour, cutoff)
  {
    if raw == [] then []
    else
      var last := raw[|raw| - 1];
      var rest := Group(raw[..|raw| - 1], s, hour, cutoff);
      assert raw == raw[..|raw| - 1] + [last];
      if InGroup(last, s, hour, cutoff) then rest + [last] else rest
  }

  /** The rows that `DELETE ... WHERE bucket_start < cutoff` leaves. */
  function Since(raw: seq<RawRow>, cutoff: int): (kept: seq<RawRow>)
    ensures forall r :: r in kept <==> r in raw && cutoff <= r.bucket
  {
    if raw == [] then []
    else
      var last := raw[|raw| - 1];
      var rest := Since(raw[..|raw| - 1], cutoff);
      assert raw == raw[..|raw| - 1] + [last];
      if cutoff <= last.bucket then rest + [last] else rest
  }

  // ---------- statements ----------

  predicate Taken(raw: seq<RawRow>, s: Series, at: int) {
    exists r :: r in raw && r.series == s && r.bucket == at
  }

  /** INSERT of a raw row, ON CONFLICT DO NOTHING. */
  function Insert(t: Table, r: RawRow): Table {
    if Taken(t.raw, r.series, r.bucket) then t else t.(raw := t.raw + [r])
  }

  function GroupKeys(raw: seq<RawRow>, platform: bool, cutoff: int): set<(Series, int)> {
    set r | r in raw && r.series.Platform? == platform && r.bucket < cutoff :: (r.series, HourOf(r.bucket))
  }

  /** INSERT ... SELECT ... GROUP BY ... ON CONFLICT DO UPDATE for one scope: a row that is already
      there is overwritten with the new aggregate, not merged with it. */
  function UpsertHourly(t: Table, platform: bool, cutoff: int): Table {
    t.(hourly := t.hourly + map k | k in GroupKeys(t.raw, platform, cutoff) ::
                   Aggregate(k.0, Group(t.raw, k.0, k.1, cutoff)))
  }

  function DeleteRaw(t: Table, cutoff: int): Table {
    t.(raw := Since(t.raw, cutoff))
  }

  function DeleteHourly(t: Table, cutoff: int): Table {
    t.(hourly := map k | k in t.hourly && cutoff <= k.1 :: t.hourly[k])
  }

  /** What a committed rollup leaves. */
  function RolledUp(t: Table, rawCutoff: int, hourlyCutoff: int): Table {
    DeleteHourly(DeleteRaw(UpsertHourly(UpsertHourly(t, true, rawCutoff), false, rawCutoff), rawCutoff), hourlyCutoff)
  }

  /** The step of the transaction that fails, if any. */
  datatype Outcome = BeginFails | PlatformFails | ServerFails | DeleteRawFails | DeleteHourlyFails | CommitFails | Commits

  /** The metadata database as the collector and the rollup job change it. */
  class MetricStore {
    var table: Table

    constructor ()
      ensures table == Table([], map[])
    {
      table := Table([], map[]);
    }

    /** `saved` says whether the statement reaches the database; its error is ignored. */
    method RecordRaw(s: Series, at: int, reading: map<Metric, real>, saved: bool)
      modifies this
      ensures table == if saved then Insert(old(table), RawOf(s, at, reading)) else old(table)
    {
      var r := RawOf(s, at, reading);
      if saved && !exists q | q in table.raw :: q.series == s && q.bucket == at {
        table := table.(raw := table.raw + [r]);
      }
    }

    /** `now` and `later` are the two clock readings at the top of the function. */
    method RollupMetricsOnce(now: int, later: int, outcome: Outcome)
      modifies this
      ensures table == if outcome == Commits
                       then RolledUp(old(table), now - RAW_RETENTION, later - HOURLY_RETENTION)
                       else old(table)
    {
      var rawCutoff := now - RAW_RETENTION;
      var hourlyCutoff := later - HOURLY_RETENTION;
      if outcome == BeginFails { return; }
      var tx := table;
      if outcome == PlatformFails { return; }
      tx := UpsertHourly(tx, true, rawCutoff);
      if outcome == ServerFails { return; }
      tx := UpsertHourly(tx, false, rawCutoff);
      if outcome == DeleteRawFails { return; }
      tx := DeleteRaw(tx, rawCutoff);
      if outcome == DeleteHourlyFails { return; }
      tx := DeleteHourly(tx, hourlyCutoff);
      if outcome == CommitFails { return; }
      table := tx;
    }
  }

  // ---------- facts about one statement ----------

  lemma RawOfIsSample(s: Series, at: int, reading: map<Metric, real>)
    ensures IsSample(RawOf(s, at, reading))
  {
  }

  /** The group minimum never exceeds the average, nor the average the maximum. */
  lemma AggregateOrder(s: Series, g: seq<RawRow>)
    requires g != [] && AllSamples(g) && forall r | r in g :: r.series == s
    ensures forall m | m in AvgColumns(s) :: Column(Aggregate(s, g).avg, m) <= Column(Aggregate(s, g).max, m)
    ensures forall m | m in MinColumns() :: Column(Aggregate(s, g).min, m) <= Column(Aggregate(s, g).avg, m)
  {
    ColumnsNest(s);
    forall m | m in AvgColumns(s) ensures Mean(g, m) <= Greatest(g, m) {
      forall r | r in g ensures Column(r.row.avg, m) <= Column(r.row.max, m) { SampleColumns(r, m); }
      MeanAtMost(g, m);
    }
    forall m | m in MinColumns() ensures Least(g, m) <= Mean(g, m) {
      forall r | r in g ensures Column(r.row.min, m) <= Column(r.row.avg, m) { SampleColumns(r, m); }
      MeanAtLeast(g, m);
    }
  }

  lemma ColumnsNest(s: Series)
    ensures MinColumns() <= AvgColumns(s) <= MaxColumns(s)
  {
  }

  lemma SampleColumns(r: RawRow, m: Metric)
    requires IsSample(r)
    ensures m in AvgColumns(r.series) ==> Column(r.row.avg, m) == Column(r.row.max, m)
    ensures m in MinColumns() ==> Column(r.row.min, m) == Column(r.row.avg, m)
  {
    ColumnsNest(r.series);
  }

  lemma DivideBound(sum: real, n: real, bound: real)
    requires 0.0 < n
    ensures sum <= n * bound ==> sum / n <= bound
    ensures n * bound <= sum ==> bound <= sum / n
  {
    var mean := sum / n;
    assert sum == n * mean;
    if bound < mean { StrictScale(n, bound, mean); }
    if mean < bound { StrictScale(n, mean, bound); }
  }

  lemma StrictScale(k: real, a: real, b: real)
    requires 0.0 < k && a < b
    ensures k * a < k * b
  {
    assert k * (b - a) > 0.0;
  }

  lemma {:induction false} MeanAtMost(g: seq<RawRow>, m: Metric)
    requires g != [] && forall r | r in g :: Column(r.row.avg, m) <= Column(r.row.max, m)
    ensures Mean(g, m) <= Greatest(g, m)
  {
    SumAtMost(g, m, Greatest(g, m));
    DivideBound(Sum(g, m), |g| as real, Greatest(g, m));
  }

  lemma {:induction false} SumAtMost(g: seq<RawRow>, m: Metric, top: real)
    requires g != [] && (forall r | r in g :: Column(r.row.avg, m) <= Column(r.row.max, m)) && Greatest(g, m) <= top
    ensures Sum(g, m) <= Times(|g|, top)
  {
    GrowSum(|g| - 1, Sum(g[..|g| - 1], m), Column(g[|g| - 1].row.avg, m), top);
    hide Times;
    var init, last := g[..|g| - 1], g[|g| - 1];
    assert g == init + [last];
    assert last in g && Column(last.row.avg, m) <= top;
    if init != [] { SumAtMost(init, m, top); }
  }

  lemma {:induction false} MeanAtLeast(g: seq<RawRow>, m: Metric)
    requires g != [] && forall r | r in g :: Column(r.row.min, m) <= Column(r.row.avg, m)
    ensures Least(g, m) <= Mean(g, m)
  {
    SumAtLeast(g, m, Least(g, m));
    DivideBound(Sum(g, m), |g| as real, Least(g, m));
  }

  lemma {:induction false} SumAtLeast(g: seq<RawRow>, m: Metric, low: real)
    requires g != [] && (forall r | r in g :: Column(r.row.min, m) <= Column(r.row.avg, m)) && low <= Least(g, m)
    ensures Times(|g|, low) <= Sum(g, m)
  {
    GrowSum(|g| - 1, Sum(g[..|g| - 1], m), Column(g[|g| - 1].row.avg, m), low);
    hide Times;
    var init, last := g[..|g| - 1], g[|g| - 1];
    assert g == init + [last];
    assert last in g && low <= Column(last.row.avg, m);
    if init != [] { SumAtLeast(init, m, low); }
  }

  function Times(n: nat, x: real): real {
    n as real * x
  }

  lemma GrowSum(k: nat, sum: real, last: real, bound: real)
    ensures Times(0, bound) == 0.0
    ensures sum <= Times(k, bound) && last <= bound ==> sum + last <= Times(k + 1, bound)
    ensures Times(k, bound) <= sum && bound <= last ==> Times(k + 1, bound) <= sum + last
  {
    assert (k + 1) as real * bound == k as real * bound + bound;
  }

  /** No member of a group exceeds its maximum or falls below its minimum. */
  lemma {:induction false} WithinExtremes(g: seq<RawRow>, m: Metric, r: RawRow)
    requires r in g
    ensures Column(r.row.max, m) <= Greatest(g, m) && Least(g, m) <= Column(r.row.min, m)
  {
    var init, last := g[..|g| - 1], g[|g| - 1];
    assert g == init + [last];
    if r in init { WithinExtremes(init, m, r); }
  }

  /** The extremes of a group are attained by members. */
  lemma {:induction false} GreatestAttained(g: seq<RawRow>, m: Metric) returns (i: nat)
    requires g != []
    ensures i < |g| && Column(g[i].row.max, m) == Greatest(g, m)
  {
    i := |g| - 1;
    if i > 0 {
      var j := GreatestAttained(g[..i], m);
      if Column(g[i].row.max, m) <= Greatest(g[..i], m) { i := j; }
    }
  }

  lemma {:induction false} LeastAttained(g: seq<RawRow>, m: Metric) returns (i: nat)
    requires g != []
    ensures i < |g| && Column(g[i].row.min, m) == Least(g, m)
  {
    i := |g| - 1;
    if i > 0 {
      var j := LeastAttained(g[..i], m);
      if Least(g[..i], m) <= Column(g[i].row.min, m) { i := j; }
    }
  }

  lemma {:induction false} SinceSince(raw: seq<RawRow>, c: int, d: int)
    requires c <= d
    ensures Since(Since(raw, c), d) == Since(raw, d)
  {
    if raw != [] {
      var init, last := raw[..|raw| - 1], raw[|raw| - 1];
      SinceSince(init, c, d);
      if c <= last.bucket { assert (Since(init, c) + [last])[..|Since(init, c)|] == Since(init, c); }
    }
  }

  /** Two filters that agree on every row keep the same rows. */
  lemma {:induction false} GroupOfSince(raw: seq<RawRow>, s: Series, hour: int, lo: int, cutoff: int, wide: int)
    requires forall r | r in raw && r.series == s && HourOf(r.bucket) == hour ::
               r.bucket < wide <==> lo <= r.bucket < cutoff
    ensures Group(Since(raw, lo), s, hour, cutoff) == Group(raw, s, hour, wide)
  {
    if raw != [] {
      var init, last := raw[..|raw| - 1], raw[|raw| - 1];
      assert last in raw;
      GroupOfSince(init, s, hour, lo, cutoff, wide);
      if lo <= last.bucket { assert (Since(init, lo) + [last])[..|Since(init, lo)|] == Since(init, lo); }
    }
  }

  lemma {:induction false} GroupSame(raw: seq<RawRow>, s: Series, hour: int, c: int, d: int)
    requires forall r | r in raw && r.series == s && HourOf(r.bucket) == hour :: r.bucket < c <==> r.bucket < d
    ensures Group(raw, s, hour, c) == Group(raw, s, hour, d)
  {
    if raw != [] {
      assert raw[|raw| - 1] in raw;
      GroupSame(raw[..|raw| - 1], s, hour, c, d);
    }
  }

  lemma SinceAppend(raw: seq<RawRow>, r: RawRow, cutoff: int)
    ensures Since(raw + [r], cutoff) == if cutoff <= r.bucket then Since(raw, cutoff) + [r] else Since(raw, cutoff)
  {
    assert (raw + [r])[..|raw|] == raw;
  }

  lemma GroupAppend(raw: seq<RawRow>, r: RawRow, s: Series, hour: int, cutoff: int)
    ensures Group(raw + [r], s, hour, cutoff) ==
            if InGroup(r, s, hour, cutoff) then Group(raw, s, hour, cutoff) + [r] else Group(raw, s, hour, cutoff)
  {
    assert (raw + [r])[..|raw|] == raw;
  }

  lemma GroupKeyIff(raw: seq<RawRow>, s: Series, hour: int, cutoff: int)
    ensures (s, hour) in GroupKeys(raw, s.Platform?, cutoff) <==> Group(raw, s, hour, cutoff) != []
    ensures (s, hour) !in GroupKeys(raw, !s.Platform?, cutoff)
  {
    var g := Group(raw, s, hour, cutoff);
    if g != [] {
      assert g[0] in g;
    }
    if (s, hour) in GroupKeys(raw, s.Platform?, cutoff) {
      var r :| r in raw && InGroup(r, s, hour, cutoff);
      assert r in g;
    }
  }

  /** One rollup, read row by row: the hourly row of an hour becomes the aggregate of that hour's
      expired raw rows if it has any, and otherwise stays as it was, unless it is past retention. */
  lemma RolledUpAt(t: Table, rawCutoff: int, hourlyCutoff: int, s: Series, hour: int)
    ensures var g := Group(t.raw, s, hour, rawCutoff);
            var after := RolledUp(t, rawCutoff, hourlyCutoff);
            && after.raw == Since(t.raw, rawCutoff)
            && ((s, hour) in after.hourly <==> hourlyCutoff <= hour && (g != [] || (s, hour) in t.hourly))
            && ((s, hour) in after.hourly ==>
                  after.hourly[(s, hour)] == if g != [] then Aggregate(s, g) else t.hourly[(s, hour)])
  {
    GroupKeyIff(t.raw, s, hour, rawCutoff);
  }

  lemma NothingToUpsert(t: Table, platform: bool, cutoff: int)
    requires forall r | r in t.raw :: cutoff <= r.bucket
    ensures UpsertHourly(t, platform, cutoff) == t
  {
    assert GroupKeys(t.raw, platform, cutoff) == {};
    assert UpsertHourly(t, platform, cutoff).hourly == t.hourly;
  }

  lemma DeleteHourlyAgain(t: Table, hourlyCutoff: int)
    ensures DeleteHourly(DeleteHourly(t, hourlyCutoff), hourlyCutoff) == DeleteHourly(t, hourlyCutoff)
  {
  }

  lemma NoneDeleted(t: Table, cutoff: int)
    requires Since(t.raw, cutoff) == t.raw
    ensures DeleteRaw(t, cutoff) == t
  {
  }

  /** Idempotence: running the same rollup again changes nothing. */
  lemma RollupAgain(t: Table, rawCutoff: int, hourlyCutoff: int)
    ensures RolledUp(RolledUp(t, rawCutoff, hourlyCutoff), rawCutoff, hourlyCutoff) ==
            RolledUp(t, rawCutoff, hourlyCutoff)
  {
    var folded := DeleteRaw(UpsertHourly(UpsertHourly(t, true, rawCutoff), false, rawCutoff), rawCutoff);
    var once := RolledUp(t, rawCutoff, hourlyCutoff);
    assert once.raw == Since(t.raw, rawCutoff);
    hide UpsertHourly, DeleteHourly, DeleteRaw;
    SinceSince(t.raw, rawCutoff, rawCutoff);
    NoneDeleted(once, rawCutoff);
    NothingToUpsert(once, true, rawCutoff);
    NothingToUpsert(once, false, rawCutoff);
    DeleteHourlyAgain(folded, hourlyCutoff);
  }

  /** The extremes of an hourly row reach at least as far as a raw row's. */
  ghost predicate Covers(hourly: Row, raw: Row, s: Series) {
    && (forall m | m in MaxColumns(s) :: Column(raw.max, m) <= Column(hourly.max, m))
    && (forall m | m in MinColumns() :: Column(hourly.min, m) <= Column(raw.min, m))
  }

  lemma AggregateCovers(s: Series, g: seq<RawRow>, r: RawRow)
    requires r in g
    ensures Covers(Aggregate(s, g), r.row, s)
  {
    forall m ensures Column(r.row.max, m) <= Greatest(g, m) && Least(g, m) <= Column(r.row.min, m) {
      WithinExtremes(g, m, r);
    }
  }

  /** Conservation: a raw row is deleted only by a rollup that puts it in the group whose aggregate
      the same transaction writes. */
  lemma DeletedOnlyIfAggregated(t: Table, rawCutoff: int, hourlyCutoff: int, r: RawRow)
    requires r in t.raw && r !in RolledUp(t, rawCutoff, hourlyCutoff).raw
    ensures var key := (r.series, HourOf(r.bucket));
            var after := RolledUp(t, rawCutoff, hourlyCutoff).hourly;
            && r in Group(t.raw, r.series, HourOf(r.bucket), rawCutoff)
            && (hourlyCutoff <= HourOf(r.bucket) ==> key in after && Covers(after[key], r.row, r.series))
  {
    var s, hour := r.series, HourOf(r.bucket);
    RolledUpAt(t, rawCutoff, hourlyCutoff, s, hour);
    AggregateCovers(s, Group(t.raw, s, hour, rawCutoff), r);
  }
}
