/** What readers of `metric_history` may rely on in every reachable state, and what they may not. */
module MetricReaders {
  import opened MetricRollup
  import opened MetricRuns

  ghost predicate Reachable(w: World) {
    exists es :: ValidRun(es) && Run(es) == w
  }

  lemma ReachableMeaning(w: World) returns (clock: int)
    requires Reachable(w)
    ensures Meaning(w) && Orderly(w, clock)
  {
    var es :| ValidRun(es) && Run(es) == w;
    RunMeaning(es);
    if es == [] { StartMeaning(0); clock := 0; } else { clock := End(es[|es| - 1]); }
  }

  lemma {:induction false} LastTouchExists(log: seq<RawRow>, cs: seq<Commit>, i: nat, s: Series, hour: int) returns (last: nat)
    requires i < |cs| && Fragment(log, cs, i, s, hour) != []
    ensures i <= last && LastTouch(log, cs, last, s, hour)
    decreases |cs| - i
  {
    if j: nat :| i < j < |cs| && Fragment(log, cs, j, s, hour) != [] {
      last := LastTouchExists(log, cs, j, s, hour);
    } else {
      last := i;
    }
  }

  /** The rollup whose fragment an hourly row holds. */
  lemma RowSource(w: World, s: Series, hour: int) returns (last: nat)
    requires Meaning(w) && (s, hour) in w.table.hourly
    ensures LastTouch(w.log, w.commits, last, s, hour)
    ensures w.table.hourly[(s, hour)] == Aggregate(s, Fragment(w.log, w.commits, last, s, hour))
  {
    assert HourMeaning(w, s, hour);
    var i: nat :| i < |w.commits| && Fragment(w.log, w.commits, i, s, hour) != [];
    last := LastTouchExists(w.log, w.commits, i, s, hour);
  }

  lemma InFragment(log: seq<RawRow>, cs: seq<Commit>, i: nat, s: Series, hour: int, r: RawRow)
    requires i < |cs|
    ensures r in Fragment(log, cs, i, s, hour) <==>
            r in log && InGroup(r, s, hour, cs[i].rawCutoff) && (i > 0 ==> cs[i - 1].rawCutoff <= r.bucket)
  {
  }

  /** Every accepted sample, but for those of deleted servers, is either still raw or in exactly one fragment. */
  lemma SamplePartition(w: World, r: RawRow)
    requires Reachable(w) && r in w.log
    ensures r in w.table.raw <==> forall i: nat :: i < |w.commits| ==> r !in Fragment(w.log, w.commits, i, r.series, HourOf(r.bucket))
    ensures forall i: nat, j: nat :: i < j < |w.commits| ==>
              !(r in Fragment(w.log, w.commits, i, r.series, HourOf(r.bucket))
                && r in Fragment(w.log, w.commits, j, r.series, HourOf(r.bucket)))
  {
    var clock := ReachableMeaning(w);
    var cs, hour := w.commits, HourOf(r.bucket);
    RawWindow(w, clock, r);
    hide HourOf, Meaning, Orderly, Fragment, Reachable, InWindow, Increasing;
    forall i: nat | i < |cs| ensures r in Fragment(w.log, cs, i, r.series, hour) <==> InWindow(cs, i, r.bucket) {
      FragmentWindow(w.log, cs, i, r);
    }
    forall i: nat, j: nat | i < j < |cs| ensures !(InWindow(cs, i, r.bucket) && InWindow(cs, j, r.bucket)) {
      WindowsApart(cs, i, j, r.bucket);
    }
  }

  /** The instant lies between the cutoffs of commits `i - 1` and `i`. */
  predicate InWindow(cs: seq<Commit>, i: nat, t: int)
    requires i < |cs|
  {
    (i > 0 ==> cs[i - 1].rawCutoff <= t) && t < cs[i].rawCutoff
  }

  lemma FragmentWindow(log: seq<RawRow>, cs: seq<Commit>, i: nat, r: RawRow)
    requires i < |cs| && r in log
    ensures r in Fragment(log, cs, i, r.series, HourOf(r.bucket)) <==> InWindow(cs, i, r.bucket)
  {
    hide HourOf;
    InFragment(log, cs, i, r.series, HourOf(r.bucket), r);
  }

  lemma WindowsApart(cs: seq<Commit>, i: nat, j: nat, t: int)
    requires Increasing(cs) && i < j < |cs|
    ensures !(InWindow(cs, i, t) && InWindow(cs, j, t))
  {
    assert cs[i].rawCutoff <= cs[j - 1].rawCutoff;
  }

  lemma RawWindow(w: World, clock: int, r: RawRow)
    requires Meaning(w) && Orderly(w, clock) && r in w.log
    ensures Increasing(w.commits)
    ensures r in w.table.raw <==> forall i: nat | i < |w.commits| :: !InWindow(w.commits, i, r.bucket)
  {
    var cs := w.commits;
    assert r in w.table.raw <==> cs == [] || cs[|cs| - 1].rawCutoff <= r.bucket by { hide HourMeaning, Unique; }
    hide Meaning;
    assert Increasing(cs);
    hide Orderly;
    if cs != [] && r.bucket < cs[|cs| - 1].rawCutoff {
      var i := FirstBeyond(cs, r.bucket);
      assert InWindow(cs, i, r.bucket);
    } else {
      forall i: nat | i < |cs| ensures !InWindow(cs, i, r.bucket) {
        assert cs[i].rawCutoff <= cs[|cs| - 1].rawCutoff;
      }
    }
  }

  lemma {:induction false} FirstBeyond(cs: seq<Commit>, t: int) returns (i: nat)
    requires cs != [] && t < cs[|cs| - 1].rawCutoff
    ensures i < |cs| && t < cs[i].rawCutoff && (i > 0 ==> cs[i - 1].rawCutoff <= t)
  {
    var n := |cs| - 1;
    if n > 0 && t < cs[n - 1].rawCutoff {
      i := FirstBeyond(cs[..n], t);
    } else {
      i := n;
    }
  }

  // ---------- hourly and raw rows never mix ----------

  /** Every hourly bucket of a series starts strictly before every raw row of that series. */
  lemma HourlyBeforeRaw(w: World, s: Series, hour: int, r: RawRow)
    requires Reachable(w) && (s, hour) in w.table.hourly && r in w.table.raw && r.series == s
    ensures hour < r.bucket
  {
    var clock := ReachableMeaning(w);
    var last := RowSource(w, s, hour);
    var g := Fragment(w.log, w.commits, last, s, hour);
    assert g[0] in g;
  }

  /** A raw row within the hour that an hourly row of its series stands for. */
  ghost predicate RawWithin(t: Table, s: Series, hour: int) {
    exists r :: r in t.raw && r.series == s && HourOf(r.bucket) == hour
  }

  /** The comment on metricHistoryFromDBWindow promises that raw and hourly rows never overlap in time. An
      hourly row overlaps raw rows if and only if a logged sample of its hour is not older than the last
      cutoff, and then its hour is the one that cutoff lies strictly inside. */
  lemma OverlapIff(w: World, s: Series, hour: int)
    requires Reachable(w) && (s, hour) in w.table.hourly
    ensures w.commits != []
    ensures var last := w.commits[|w.commits| - 1].rawCutoff;
            && (RawWithin(w.table, s, hour) <==>
                  exists r :: r in w.log && r.series == s && HourOf(r.bucket) == hour && last <= r.bucket)
            && (RawWithin(w.table, s, hour) ==> hour < last < hour + HOUR)
  {
    var clock := ReachableMeaning(w);
    var cs := w.commits;
    var i := RowSource(w, s, hour);
    var g := Fragment(w.log, cs, i, s, hour);
    assert g[0] in g;
    InFragment(w.log, cs, i, s, hour, g[0]);
    assert hour < cs[i].rawCutoff <= cs[|cs| - 1].rawCutoff;
    assert w.table.raw == Since(w.log, cs[|cs| - 1].rawCutoff) by { hide HourMeaning; }
    hide Meaning, Orderly, LastTouch, Fragment;
  }

  datatype Entry = Entry(hourly: bool, bucket: int, row: Row)

  ghost predicate Stored(t: Table, s: Series, e: Entry) {
    if e.hourly then (s, e.bucket) in t.hourly && t.hourly[(s, e.bucket)] == e.row
    else RawRow(s, e.bucket, e.row) in t.raw
  }

  /** A result of `SELECT ... WHERE series = s AND bucket_start >= since ORDER BY bucket_start`. */
  ghost predicate IsScan(t: Table, s: Series, since: int, q: seq<Entry>) {
    && (forall e :: e in q <==> Stored(t, s, e) && since <= e.bucket)
    && (forall i, j | 0 <= i < j < |q| :: q[i] != q[j] && q[i].bucket <= q[j].bucket)
  }

  /** Buckets in a scan are pairwise distinct: the order of the result is not left to chance. */
  lemma ScanStrict(w: World, s: Series, since: int, q: seq<Entry>)
    requires Reachable(w) && IsScan(w.table, s, since, q)
    ensures forall i, j | 0 <= i < j < |q| :: q[i].bucket < q[j].bucket
  {
    forall i, j | 0 <= i < j < |q| ensures q[i].bucket < q[j].bucket {
      var a, b := q[i], q[j];
      assert a in q && b in q;
      if a.bucket == b.bucket {
        if a.hourly != b.hourly {
          HourlyBeforeRaw(w, s, a.bucket, RawRow(s, a.bucket, if a.hourly then b.row else a.row));
        } else if !a.hourly {
          SameRaw(w, RawRow(s, a.bucket, a.row), RawRow(s, b.bucket, b.row));
        }
      }
    }
  }

  lemma SameRaw(w: World, a: RawRow, b: RawRow)
    requires Reachable(w) && a in w.table.raw && b in w.table.raw && a.series == b.series && a.bucket == b.bucket
    ensures a == b
  {
    var clock := ReachableMeaning(w);
    UniqueSame(w.log, a, b);
  }

  lemma UniqueSame(log: seq<RawRow>, a: RawRow, b: RawRow)
    requires Unique(log) && a in log && b in log && a.series == b.series && a.bucket == b.bucket
    ensures a == b
  {
    var i :| 0 <= i < |log| && log[i] == a;
    var j :| 0 <= j < |log| && log[j] == b;
  }

  /** The scan is all hourly rows followed by all raw rows. */
  lemma ScanHourlyThenRaw(w: World, s: Series, since: int, q: seq<Entry>)
    requires Reachable(w) && IsScan(w.table, s, since, q)
    ensures forall i, j | 0 <= i < j < |q| && q[j].hourly :: q[i].hourly
  {
    forall i, j | 0 <= i < j < |q| && q[j].hourly ensures q[i].hourly {
      assert q[i] in q && q[j] in q;
      if !q[i].hourly { HourlyBeforeRaw(w, s, q[j].bucket, RawRow(s, q[i].bucket, q[i].row)); }
    }
  }

  /** There is only one scan. */
  lemma ScanUnique(w: World, s: Series, since: int, p: seq<Entry>, q: seq<Entry>)
    requires Reachable(w) && IsScan(w.table, s, since, p) && IsScan(w.table, s, since, q)
    ensures p == q
  {
    ScanStrict(w, s, since, p);
    ScanStrict(w, s, since, q);
    SortedSame(p, q);
  }

  lemma {:induction false} SortedSame(p: seq<Entry>, q: seq<Entry>)
    requires forall i, j | 0 <= i < j < |p| :: p[i].bucket < p[j].bucket
    requires forall i, j | 0 <= i < j < |q| :: q[i].bucket < q[j].bucket
    requires forall e :: e in p <==> e in q
    ensures p == q
  {
    if p != [] { assert p[0] in q; }
    if q != [] { assert q[0] in p; }
    if p != [] {
      assert p[0] == q[0];
      forall e | e in p[1..] ensures e in q[1..] { TailMember(p, q, e); }
      forall e | e in q[1..] ensures e in p[1..] { TailMember(q, p, e); }
      SortedSame(p[1..], q[1..]);
      assert p == [p[0]] + p[1..] && q == [q[0]] + q[1..];
    }
  }

  lemma TailMember(p: seq<Entry>, q: seq<Entry>, e: Entry)
    requires forall i, j | 0 <= i < j < |p| :: p[i].bucket < p[j].bucket
    requires p != [] && q != [] && p[0] == q[0] && e in p[1..] && e in q
    ensures e in q[1..]
  {
    var k :| 0 <= k < |p[1..]| && p[1..][k] == e;
    assert p[0].bucket < p[k + 1].bucket;
    var l :| 0 <= l < |q| && q[l] == e;
    assert q[1..][l - 1] == e;
  }

  // ---------- what an hourly row says about its hour ----------

  /** All samples of the hour that any rollup has consumed. */
  function Consumed(w: World, s: Series, hour: int): seq<RawRow>
    requires w.commits != []
  {
    Group(w.log, s, hour, w.commits[|w.commits| - 1].rawCutoff)
  }

  /** min <= avg <= max in every hourly row, and the row never reports beyond the true extremes. */
  lemma RowWithinExtremes(w: World, s: Series, hour: int)
    requires Reachable(w) && (s, hour) in w.table.hourly
    ensures w.commits != [] && Consumed(w, s, hour) != []
    ensures Sandwiched(w.table.hourly[(s, hour)], s)
    ensures Covers(Aggregate(s, Consumed(w, s, hour)), w.table.hourly[(s, hour)], s)
  {
    var clock := ReachableMeaning(w);
    var last := RowSource(w, s, hour);
    var g := Fragment(w.log, w.commits, last, s, hour);
    var all := Consumed(w, s, hour);
    forall r | r in g ensures r in all {
      InFragment(w.log, w.commits, last, s, hour, r);
    }
    assert g[0] in g;
    AggregateOrder(s, g);
    SubgroupCovered(s, g, all);
  }

  ghost predicate Sandwiched(row: Row, s: Series) {
    && (forall m | m in MinColumns() :: Column(row.min, m) <= Column(row.avg, m))
    && (forall m | m in AvgColumns(s) :: Column(row.avg, m) <= Column(row.max, m))
  }

  lemma SubgroupCovered(s: Series, g: seq<RawRow>, all: seq<RawRow>)
    requires g != [] && all != [] && forall r | r in g :: r in all
    ensures Covers(Aggregate(s, all), Aggregate(s, g), s)
  {
    forall m ensures Greatest(g, m) <= Greatest(all, m) && Least(all, m) <= Least(g, m) {
      var i := GreatestAttained(g, m);
      WithinExtremes(all, m, g[i]);
      var j := LeastAttained(g, m);
      WithinExtremes(all, m, g[j]);
    }
  }

  /** Some committed cutoff has consumed samples of the hour on both sides. */
  ghost predicate Split(w: World, s: Series, hour: int)
    requires w.commits != []
  {
    exists c, a, b :: c in w.commits && a in Consumed(w, s, hour) && b in Consumed(w, s, hour)
                      && a.bucket < c.rawCutoff <= b.bucket
  }

  /** The hourly row's fragment is all consumed samples of the hour if and only if no committed
      cutoff split them: the upsert overwrites, so a split hour keeps only its last fragment. */
  lemma WholeHourIff(w: World, s: Series, hour: int, last: nat)
    requires Reachable(w) && LastTouch(w.log, w.commits, last, s, hour)
    ensures Fragment(w.log, w.commits, last, s, hour) == Consumed(w, s, hour) <==> !Split(w, s, hour)
  {
    var clock := ReachableMeaning(w);
    if Split(w, s, hour) { SplitNotWhole(w, s, hour, last); } else { UnsplitWhole(w, s, hour, last); }
  }

  lemma SplitNotWhole(w: World, s: Series, hour: int, last: nat)
    requires Increasing(w.commits) && LastTouch(w.log, w.commits, last, s, hour) && Split(w, s, hour)
    ensures Fragment(w.log, w.commits, last, s, hour) != Consumed(w, s, hour)
  {
    var cs := w.commits;
    var c, a, b :| c in cs && a in Consumed(w, s, hour) && b in Consumed(w, s, hour) && a.bucket < c.rawCutoff <= b.bucket;
    var i :| 0 <= i < |cs| && cs[i] == c;
    hide Fragment, Consumed, Split, LastTouch, HourOf;
    InFragment(w.log, cs, last, s, hour, a);
    InFragment(w.log, cs, last, s, hour, b);
    assert if i < last then c.rawCutoff <= cs[last - 1].rawCutoff else cs[last].rawCutoff <= c.rawCutoff;
  }

  lemma UnsplitWhole(w: World, s: Series, hour: int, last: nat)
    requires Increasing(w.commits) && LastTouch(w.log, w.commits, last, s, hour) && !Split(w, s, hour)
    ensures Fragment(w.log, w.commits, last, s, hour) == Consumed(w, s, hour)
  {
    var cs := w.commits;
    var end := cs[|cs| - 1].rawCutoff;
    hide Fragment, Increasing, LastTouch, Split, HourOf;
    forall r | r in w.log && r.series == s && HourOf(r.bucket) == hour
      ensures r.bucket < end <==> (last > 0 ==> cs[last - 1].rawCutoff <= r.bucket) && r.bucket < cs[last].rawCutoff
    {
      UnsplitBetween(w, s, hour, last, r);
    }
    FragmentIsGroup(w.log, cs, last, s, hour, end);
  }

  lemma FragmentIsGroup(log: seq<RawRow>, cs: seq<Commit>, last: nat, s: Series, hour: int, end: int)
    requires last < |cs|
    requires forall r | r in log && r.series == s && HourOf(r.bucket) == hour ::
               r.bucket < end <==> (last > 0 ==> cs[last - 1].rawCutoff <= r.bucket) && r.bucket < cs[last].rawCutoff
    ensures Fragment(log, cs, last, s, hour) == Group(log, s, hour, end)
  {
    hide HourOf;
    if last == 0 {
      GroupSame(log, s, hour, cs[0].rawCutoff, end);
    } else {
      assert Pending(log, cs[..last]) == Since(log, cs[last - 1].rawCutoff);
      GroupOfSince(log, s, hour, cs[last - 1].rawCutoff, cs[last].rawCutoff, end);
    }
  }

  lemma UnsplitBetween(w: World, s: Series, hour: int, last: nat, r: RawRow)
    requires Increasing(w.commits) && LastTouch(w.log, w.commits, last, s, hour) && !Split(w, s, hour)
    requires r in w.log && r.series == s && HourOf(r.bucket) == hour
    ensures r.bucket < w.commits[|w.commits| - 1].rawCutoff <==>
            (last > 0 ==> w.commits[last - 1].rawCutoff <= r.bucket) && r.bucket < w.commits[last].rawCutoff
  {
    if r.bucket < w.commits[|w.commits| - 1].rawCutoff {
      UnsplitMember(w, s, hour, last, r);
      InFragment(w.log, w.commits, last, s, hour, r);
    }
  }

  lemma UnsplitMember(w: World, s: Series, hour: int, last: nat, r: RawRow)
    requires Increasing(w.commits) && LastTouch(w.log, w.commits, last, s, hour)
    requires r in Consumed(w, s, hour) && !Split(w, s, hour)
    ensures r in Fragment(w.log, w.commits, last, s, hour)
  {
    var cs := w.commits;
    var g := Fragment(w.log, cs, last, s, hour);
    assert g[0] in g;
    InFragment(w.log, cs, last, s, hour, g[0]);
    InFragment(w.log, cs, last, s, hour, r);
    assert cs[last] in cs && g[0] in Consumed(w, s, hour);
    if last > 0 { assert cs[last - 1] in cs; }
  }

  lemma AlignedNotSplit(w: World, s: Series, hour: int)
    requires w.commits != [] && forall c | c in w.commits :: !(hour < c.rawCutoff < hour + HOUR)
    ensures !Split(w, s, hour)
  {
    forall c, a, b | c in w.commits && a in Consumed(w, s, hour) && b in Consumed(w, s, hour)
      ensures !(a.bucket < c.rawCutoff <= b.bucket)
    {
      assert hour <= a.bucket && b.bucket < hour + HOUR;
    }
  }

  /** Corollary: a row of an hour that no committed cutoff falls strictly inside aggregates every
      logged sample of that hour. */
  lemma AlignedHourIsWhole(w: World, s: Series, hour: int)
    requires Reachable(w) && (s, hour) in w.table.hourly
    requires forall c | c in w.commits :: !(hour < c.rawCutoff < hour + HOUR)
    ensures var all := Group(w.log, s, hour, hour + HOUR);
            all != [] && w.table.hourly[(s, hour)] == Aggregate(s, all)
  {
    var clock := ReachableMeaning(w);
    var last := RowSource(w, s, hour);
    AlignedFragment(w, s, hour, last);
  }

  lemma AlignedFragment(w: World, s: Series, hour: int, last: nat)
    requires Increasing(w.commits) && LastTouch(w.log, w.commits, last, s, hour)
    requires forall c | c in w.commits :: !(hour < c.rawCutoff < hour + HOUR)
    ensures Group(w.log, s, hour, hour + HOUR) == Fragment(w.log, w.commits, last, s, hour) != []
  {
    var end := w.commits[|w.commits| - 1].rawCutoff;
    TouchedHourPast(w, s, hour, last);
    assert Fragment(w.log, w.commits, last, s, hour) != [];
    hide LastTouch, Fragment, Increasing, Group, Split;
    AlignedNotSplit(w, s, hour);
    UnsplitWhole(w, s, hour, last);
    GroupSame(w.log, s, hour, end, hour + HOUR);
  }

  /** The hour lies before the last cutoff. */
  lemma TouchedHourPast(w: World, s: Series, hour: int, last: nat)
    requires Increasing(w.commits) && LastTouch(w.log, w.commits, last, s, hour)
    requires forall c | c in w.commits :: !(hour < c.rawCutoff < hour + HOUR)
    ensures hour + HOUR <= w.commits[|w.commits| - 1].rawCutoff
  {
    var cs := w.commits;
    var first := Fragment(w.log, cs, last, s, hour)[0];
    InFragment(w.log, cs, last, s, hour, first);
    hide LastTouch, Fragment;
    assert hour < cs[last].rawCutoff && cs[last] in cs;
  }

  // ---------- the split hour, concretely ----------

  function Early(): RawRow {
    RawOf(Platform, 0, map[Cpu := 90.0])
  }

  function Late(): RawRow {
    RawOf(Platform, 1_800_000_000, map[Cpu := 10.0])
  }

  /** The cutoffs of a rollup that is under way at `at`. */
  function CommitAt(at: int): Commit {
    Commit(at - RAW_RETENTION, at - HOURLY_RETENTION)
  }

  /** Two samples of one hour, 90% and then 10% CPU, with a rollup between them and one after. */
  function SplitHour(): seq<Event> {
    var t1 := RAW_RETENTION + 900_000_000;
    var t2 := RAW_RETENTION + HOUR;
    [Sampled(0, Early()), Sampled(1_800_000_000, Late()), Rollup(t1, t1, Commits), Rollup(t2, t2, Commits)]
  }

  lemma RunAppend(es: seq<Event>, e: Event)
    ensures Run(es + [e]) == Step(Run(es), e)
  {
    assert (es + [e])[..|es|] == es;
  }

  lemma RunOfThree(a: Event, b: Event, c: Event)
    ensures Run([a, b, c]) == Step(Step(Step(Start(), a), b), c)
  {
    hide Step;
    RunAppend([], a);
    RunAppend([a], b);
    RunAppend([a, b], c);
    assert [] + [a] == [a] && [a] + [b] == [a, b] && [a, b] + [c] == [a, b, c];
  }

  lemma TwoSamples(early: RawRow, late: RawRow)
    requires early.bucket != late.bucket
    ensures Step(Step(Start(), Sampled(early.bucket, early)), Sampled(late.bucket, late))
         == World(Table([early, late], map[]), [early, late], [])
  {
    assert [] + [early] == [early] && [early] + [late] == [early, late];
    assert Accept(Start(), early) == World(Table([early], map[]), [early], []);
  }

  lemma RollupAt(w: World, at: int)
    ensures Step(w, Rollup(at, at, Commits)) == Consume(w, CommitAt(at))
  {
    hide Consume;
  }

  /** The state after the first three events, and after all four. */
  lemma SplitHourRun()
    ensures var both := World(Table([Early(), Late()], map[]), [Early(), Late()], []);
            && Run(SplitHour()[..3]) == Consume(both, CommitAt(RAW_RETENTION + 900_000_000))
            && Run(SplitHour()) == Consume(Run(SplitHour()[..3]), CommitAt(RAW_RETENTION + HOUR))
  {
    assert Early().bucket == 0 && Late().bucket == 1_800_000_000;
    hide Step, Run, Early, Late, Consume, CommitAt;
    var es := SplitHour();
    TwoSamples(Early(), Late());
    RunOfThree(es[0], es[1], es[2]);
    assert es[..3] == [es[0], es[1], es[2]] && es == es[..3] + [es[3]];
    RunAppend(es[..3], es[3]);
    RollupAt(Step(Step(Start(), es[0]), es[1]), RAW_RETENTION + 900_000_000);
    RollupAt(Run(es[..3]), RAW_RETENTION + HOUR);
  }

  lemma SampleReadings()
    ensures Early().series == Late().series == Platform && Early().bucket == 0 && Late().bucket == 1_800_000_000
    ensures Column(Early().row.max, Cpu) == 90.0 && Column(Late().row.max, Cpu) == 10.0
  {
  }

  /** The comment on RunMetricRollup promises that rerunning over an interval only rewrites the same
      bucket; when a cutoff falls inside the hour, the rewrite forgets the peak. */
  lemma SplitHourLosesPeak()
    ensures var w := Run(SplitHour());
            && (Platform, 0) in w.table.hourly
            && Column(w.table.hourly[(Platform, 0)].max, Cpu) == 10.0
            && w.commits != [] && Consumed(w, Platform, 0) != []
            && Greatest(Consumed(w, Platform, 0), Cpu) == 90.0
  {
    hide Run, SplitHour, Early, Late, Column, Greatest, Consume, Consumed;
    SplitHourRun();
    SampleReadings();
    SplitHourTable(Early(), Late(), CommitAt(RAW_RETENTION + 900_000_000), CommitAt(RAW_RETENTION + HOUR));
  }

  lemma SplitHourValid()
    ensures ValidRun(SplitHour()) && ValidRun(SplitHour()[..3])
  {
    RawOfIsSample(Platform, 0, map[Cpu := 90.0]);
    RawOfIsSample(Platform, 1_800_000_000, map[Cpu := 10.0]);
    SampleReadings();
    assert IsSample(Early()) && IsSample(Late());
    hide ValidRun, IsSample, Early, Late;
    TwoSamplesTwoRollups(Early(), Late(), RAW_RETENTION + 900_000_000, RAW_RETENTION + HOUR);
    var es := SplitHour();
    assert es[..3] == [es[0], es[1], es[2]];
  }

  lemma TwoSamplesTwoRollups(early: RawRow, late: RawRow, t1: int, t2: int)
    requires IsSample(early) && IsSample(late) && early.bucket <= late.bucket <= t1 <= t2
    ensures ValidRun([Sampled(early.bucket, early), Sampled(late.bucket, late), Rollup(t1, t1, Commits)])
    ensures ValidRun([Sampled(early.bucket, early), Sampled(late.bucket, late), Rollup(t1, t1, Commits), Rollup(t2, t2, Commits)])
  {
    hide IsSample;
  }

  /** Between the two rollups the table holds an hourly row and a raw row of the same hour. */
  lemma SplitHourOverlaps()
    ensures var w := Run(SplitHour()[..3]);
            && ValidRun(SplitHour()[..3])
            && (Platform, 0) in w.table.hourly
            && Late() in w.table.raw && HourOf(Late().bucket) == 0
  {
    SplitHourValid();
    SampleReadings();
    hide Run, SplitHour, Early, Late, Column, Greatest, RolledUp, Group, Since, Aggregate, IsSample;
    SplitHourRun();
    SplitHourGroups(Early(), Late(), 900_000_000);
    var t, c := Table([Early(), Late()], map[]), CommitAt(RAW_RETENTION + 900_000_000);
    RolledUpAt(t, c.rawCutoff, c.hourlyCutoff, Platform, 0);
  }

  lemma SplitHourTable(early: RawRow, late: RawRow, c1: Commit, c2: Commit)
    requires early.series == late.series == Platform && early.bucket == 0 && late.bucket == 1_800_000_000
    requires Column(early.row.max, Cpu) == 90.0 && Column(late.row.max, Cpu) == 10.0
    requires c1.rawCutoff == 900_000_000 && c2.rawCutoff == HOUR && c1.hourlyCutoff <= c2.hourlyCutoff <= 0
    ensures var log := [early, late];
            var w := Consume(Consume(World(Table(log, map[]), log, []), c1), c2);
            && (Platform, 0) in w.table.hourly
            && Column(w.table.hourly[(Platform, 0)].max, Cpu) == 10.0
            && w.commits == [c1, c2]
            && Consumed(w, Platform, 0) != [] && Greatest(Consumed(w, Platform, 0), Cpu) == 90.0
  {
    hide RolledUp, Group, Since, Aggregate, Greatest, HourOf, Column;
    var log := [early, late];
    SplitHourGroups(early, late, c1.rawCutoff);
    var t := RolledUp(Table(log, map[]), c1.rawCutoff, c1.hourlyCutoff);
    RolledUpAt(Table(log, map[]), c1.rawCutoff, c1.hourlyCutoff, Platform, 0);
    AggregateMax(Platform, [late], Cpu);
    RolledUpAt(t, HOUR, c2.hourlyCutoff, Platform, 0);
    assert [] + [c1] + [c2] == [c1, c2];
  }

  lemma AggregateMax(s: Series, g: seq<RawRow>, m: Metric)
    requires g != [] && m in MaxColumns(s)
    ensures Column(Aggregate(s, g).max, m) == Greatest(g, m)
  {
  }

  lemma SplitHourGroups(early: RawRow, late: RawRow, c1: int)
    requires early.series == late.series == Platform && early.bucket == 0 && late.bucket == 1_800_000_000
    requires Column(early.row.max, Cpu) == 90.0 && Column(late.row.max, Cpu) == 10.0 && c1 == 900_000_000
    ensures Since([early, late], c1) == [late]
    ensures Group([late], Platform, 0, HOUR) == [late] && Group([early, late], Platform, 0, HOUR) == [early, late]
    ensures Greatest([late], Cpu) == 10.0 && Greatest([early, late], Cpu) == 90.0
  {
    assert [early, late] == [early] + [late] && [late] == [] + [late] && [early] == [] + [early];
    SinceAppend([], early, c1);
    SinceAppend([early], late, c1);
    GroupAppend([], late, Platform, 0, HOUR);
    GroupAppend([], early, Platform, 0, HOUR);
    GroupAppend([early], late, Platform, 0, HOUR);
    assert [early, late][..1] == [early];
    assert Greatest([early], Cpu) == 90.0;
  }

  // ---------- the collector between two statements of the transaction ----------

  /** A sample inserted after both aggregations and before the DELETE of the same transaction
      survives as if it had come after the commit exactly when it is not older than the cutoff. */
  lemma InsertDuringRollup(t: Table, r: RawRow, rawCutoff: int, hourlyCutoff: int)
    requires !Taken(t.raw, r.series, r.bucket)
    ensures var folded := UpsertHourly(UpsertHourly(t, true, rawCutoff), false, rawCutoff);
            var during := DeleteHourly(DeleteRaw(Insert(folded, r), rawCutoff), hourlyCutoff);
            during == Insert(RolledUp(t, rawCutoff, hourlyCutoff), r) <==> rawCutoff <= r.bucket
  {
    SinceAppend(t.raw, r, rawCutoff);
    assert !Taken(Since(t.raw, rawCutoff), r.series, r.bucket);
  }
}
