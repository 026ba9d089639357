/** What the columns of an hourly row are, in terms of the readings of its hour. */
module MetricAggregates {
  import opened MetricRollup

  /** The hour of an instant is the multiple of an hour that it lies at or less than an hour after. */
  lemma HourOfIff(t: int, h: int)
    ensures h == HourOf(t) <==> h % HOUR == 0 && h <= t < h + HOUR
  {
    assert HourOf(t) % HOUR == 0;
    if h % HOUR == 0 && h <= t < h + HOUR {
      assert h / HOUR == t / HOUR;
    }
  }

  // ---------- the average ----------

  lemma {:induction false} SumJoins(a: seq<RawRow>, b: seq<RawRow>, m: Metric)
    ensures Sum(a + b, m) == Sum(a, m) + Sum(b, m)
  {
    if b == [] {
      assert a + b == a;
    } else {
      var n := |b| - 1;
      assert (a + b)[..|a + b| - 1] == a + b[..n];
      SumJoins(a, b[..n], m);
    }
  }

  /** The average of one sample is its reading. */
  lemma MeanOfOne(r: RawRow, m: Metric)
    ensures Mean([r], m) == Column(r.row.avg, m)
  {
    assert [r][..0] == [];
    assert Sum([r], m) == Column(r.row.avg, m);
  }

  lemma CountTimesMean(g: seq<RawRow>, m: Metric)
    requires g != []
    ensures Times(|g|, Mean(g, m)) == Sum(g, m)
  {
    Quotient(Sum(g, m), |g| as real);
  }

  lemma Quotient(x: real, n: real)
    requires n != 0.0
    ensures n * (x / n) == x
  {
  }

  /** Groups average by their sizes. With the average of one sample this leaves only the arithmetic mean. */
  lemma MeanJoins(a: seq<RawRow>, b: seq<RawRow>, m: Metric)
    requires a != [] && b != []
    ensures Times(|a + b|, Mean(a + b, m)) == Times(|a|, Mean(a, m)) + Times(|b|, Mean(b, m))
  {
    hide Times, Mean;
    CountTimesMean(a, m);
    CountTimesMean(b, m);
    CountTimesMean(a + b, m);
    SumJoins(a, b, m);
  }

  /** Which measures a scope has, and which of them have an average: all but the memory limit and the network
      counters, which only have a maximum. */
  lemma ColumnKinds(s: Series, m: Metric)
    ensures m in MaxColumns(s) <==>
              if s.Platform? then m !in {Connections, ReadTuples, WriteTuples}
              else m !in {MemoryLimit, NetworkRx, NetworkTx, ReadOps, WriteOps}
    ensures m in AvgColumns(s) <==> m in MaxColumns(s) && m !in {MemoryLimit, NetworkRx, NetworkTx}
    ensures m in MinColumns() <==> m in {Cpu, Memory}
  {
  }

  // ---------- the columns a rollup writes ----------

  /** `x` is the greatest value of the maximum column in the group. */
  ghost predicate IsGreatest(g: seq<RawRow>, m: Metric, x: real) {
    (exists r :: r in g && Column(r.row.max, m) == x) && forall r | r in g :: Column(r.row.max, m) <= x
  }

  ghost predicate IsLeast(g: seq<RawRow>, m: Metric, x: real) {
    (exists r :: r in g && Column(r.row.min, m) == x) && forall r | r in g :: x <= Column(r.row.min, m)
  }

  lemma ExtremesAre(g: seq<RawRow>, m: Metric)
    requires g != []
    ensures IsGreatest(g, m, Greatest(g, m)) && IsLeast(g, m, Least(g, m))
  {
    var i := GreatestAttained(g, m);
    var j := LeastAttained(g, m);
    assert g[i] in g && g[j] in g;
    forall r | r in g ensures Column(r.row.max, m) <= Greatest(g, m) && Least(g, m) <= Column(r.row.min, m) {
      WithinExtremes(g, m, r);
    }
  }

  /** The row that a rollup writes over the expired samples of an hour, column by column. */
  lemma RollupColumns(t: Table, rawCutoff: int, hourlyCutoff: int, s: Series, hour: int)
    requires Group(t.raw, s, hour, rawCutoff) != [] && hourlyCutoff <= hour
    ensures var g, after := Group(t.raw, s, hour, rawCutoff), RolledUp(t, rawCutoff, hourlyCutoff).hourly;
            && (s, hour) in after
            && (forall m | m in AvgColumns(s) :: Column(after[(s, hour)].avg, m) == Mean(g, m))
            && (forall m | m in MinColumns() :: IsLeast(g, m, Column(after[(s, hour)].min, m)))
            && (forall m | m in MaxColumns(s) :: IsGreatest(g, m, Column(after[(s, hour)].max, m)))
  {
    var g := Group(t.raw, s, hour, rawCutoff);
    RolledUpAt(t, rawCutoff, hourlyCutoff, s, hour);
    forall m ensures IsGreatest(g, m, Greatest(g, m)) && IsLeast(g, m, Least(g, m)) { ExtremesAre(g, m); }
    hide RolledUp, Group, Mean, Least, Greatest, IsLeast, IsGreatest;
  }

  // ---------- from two readings to their hourly row ----------

  function Both(s: Series, t1: int, first: map<Metric, real>, t2: int, second: map<Metric, real>): Table {
    Insert(Insert(Table([], map[]), RawOf(s, t1, first)), RawOf(s, t2, second))
  }

  lemma BothRaw(s: Series, t1: int, first: map<Metric, real>, t2: int, second: map<Metric, real>)
    requires t1 != t2
    ensures Both(s, t1, first, t2, second).raw == [RawOf(s, t1, first), RawOf(s, t2, second)]
  {
    assert [] + [RawOf(s, t1, first)] == [RawOf(s, t1, first)];
  }

  lemma PairGroup(a: RawRow, b: RawRow, s: Series, hour: int, cutoff: int)
    requires InGroup(a, s, hour, cutoff) && InGroup(b, s, hour, cutoff)
    ensures Group([a, b], s, hour, cutoff) == [a, b]
  {
    hide HourOf;
    assert [] + [a] == [a] && [a] + [b] == [a, b];
    GroupAppend([], a, s, hour, cutoff);
    GroupAppend([a], b, s, hour, cutoff);
  }

  lemma PairMean(a: RawRow, b: RawRow, m: Metric)
    ensures Mean([a, b], m) == (Column(a.row.avg, m) + Column(b.row.avg, m)) / 2.0
  {
    assert [a] + [b] == [a, b];
    MeanJoins([a], [b], m);
    MeanOfOne(a, m);
    MeanOfOne(b, m);
  }

  lemma PairExtremes(a: RawRow, b: RawRow, m: Metric, x: real)
    ensures IsGreatest([a, b], m, x) ==> x == Larger(Column(a.row.max, m), Column(b.row.max, m))
    ensures IsLeast([a, b], m, x) ==> x == Smaller(Column(a.row.min, m), Column(b.row.min, m))
  {
    hide Column;
    assert [a, b][0] in [a, b] && [a, b][1] in [a, b];
  }

  function Larger(x: real, y: real): real {
    if x > y then x else y
  }

  function Smaller(x: real, y: real): real {
    if x < y then x else y
  }

  lemma RawOfColumns(s: Series, at: int, reading: map<Metric, real>)
    ensures var r := RawOf(s, at, reading);
            && r.series == s && r.bucket == at
            && (forall m | m in AvgColumns(s) :: Column(r.row.avg, m) == Column(reading, m))
            && (forall m | m in MinColumns() :: Column(r.row.min, m) == Column(reading, m))
            && (forall m | m in MaxColumns(s) :: Column(r.row.max, m) == Column(reading, m))
  {
  }

  /** Half way between the readings, the lesser one and the larger one, in the columns of each kind. */
  ghost predicate OfTwoReadings(row: Row, s: Series, x: map<Metric, real>, y: map<Metric, real>) {
    && (forall m | m in AvgColumns(s) :: Column(row.avg, m) == (Column(x, m) + Column(y, m)) / 2.0)
    && (forall m | m in MinColumns() :: Column(row.min, m) == Smaller(Column(x, m), Column(y, m)))
    && (forall m | m in MaxColumns(s) :: Column(row.max, m) == Larger(Column(x, m), Column(y, m)))
  }

  /** Two samples of one hour, rolled up: the average of the two readings, and the lesser and the larger. */
  lemma TwoReadingsHour(s: Series, t1: int, first: map<Metric, real>, t2: int, second: map<Metric, real>,
                        rawCutoff: int, hourlyCutoff: int)
    requires t1 != t2 && HourOf(t1) == HourOf(t2) && t1 < rawCutoff && t2 < rawCutoff && hourlyCutoff <= HourOf(t1)
    ensures var after := RolledUp(Both(s, t1, first, t2, second), rawCutoff, hourlyCutoff).hourly;
            (s, HourOf(t1)) in after && OfTwoReadings(after[(s, HourOf(t1))], s, first, second)
  {
    hide RolledUp, Group, Both, RawOf, HourOf, Mean, Column, Larger, Smaller, IsGreatest, IsLeast, AvgColumns, MinColumns, MaxColumns;
    var a, b, hour := RawOf(s, t1, first), RawOf(s, t2, second), HourOf(t1);
    BothRaw(s, t1, first, t2, second);
    RawOfColumns(s, t1, first);
    RawOfColumns(s, t2, second);
    PairGroup(a, b, s, hour, rawCutoff);
    RollupColumns(Both(s, t1, first, t2, second), rawCutoff, hourlyCutoff, s, hour);
    var row := RolledUp(Both(s, t1, first, t2, second), rawCutoff, hourlyCutoff).hourly[(s, hour)];
    forall m | m in AvgColumns(s) ensures Column(row.avg, m) == (Column(first, m) + Column(second, m)) / 2.0 {
      PairMean(a, b, m);
    }
    forall m | m in MinColumns() ensures Column(row.min, m) == Smaller(Column(first, m), Column(second, m)) {
      PairExtremes(a, b, m, Column(row.min, m));
    }
    forall m | m in MaxColumns(s) ensures Column(row.max, m) == Larger(Column(first, m), Column(second, m)) {
      PairExtremes(a, b, m, Column(row.max, m));
    }
  }
}
