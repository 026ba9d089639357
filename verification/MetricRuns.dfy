/** Every run of collector inserts, rollups and server deletions, against a log of every accepted sample. */
module MetricRuns {
  import opened MetricRollup

  datatype Commit = Commit(rawCutoff: int, hourlyCutoff: int)

  /** The table together with what really happened: all accepted samples, but for those of deleted servers, and
      all committed rollups. */
  datatype World = World(table: Table, log: seq<RawRow>, commits: seq<Commit>)

  /** An insert at clock `at`, a rollup that reads the clock at `at` and again at `later`, or the deletion of a
      server. */
  datatype Event =
    | Sampled(at: int, sample: RawRow)
    | Rollup(at: int, later: int, outcome: Outcome)
    | ServerDeleted(at: int, id: string)

  function Start(): World {
    World(Table([], map[]), [], [])
  }

  function Step(w: World, e: Event): World {
    match e
    case Sampled(_, r) => Accept(w, r)
    case Rollup(at, later, outcome) =>
      if outcome != Commits then w else Consume(w, Commit(at - RAW_RETENTION, later - HOURLY_RETENTION))
    case ServerDeleted(_, id) => Forget(w, Server(id))
  }

  function Accept(w: World, r: RawRow): World {
    if Taken(w.table.raw, r.series, r.bucket) then w
    else World(Insert(w.table, r), w.log + [r], w.commits)
  }

  function Consume(w: World, c: Commit): World {
    World(RolledUp(w.table, c.rawCutoff, c.hourlyCutoff), w.log, w.commits + [c])
  }

  function Without(rows: seq<RawRow>, s: Series): (kept: seq<RawRow>)
    ensures forall r :: r in kept <==> r in rows && r.series != s
  {
    if rows == [] then []
    else
      var last := rows[|rows| - 1];
      var rest := Without(rows[..|rows| - 1], s);
      assert rows == rows[..|rows| - 1] + [last];
      if last.series == s then rest else rest + [last]
  }

  /** The rows of the series go by cascade. */
  function Forget(w: World, s: Series): World {
    World(Table(Without(w.table.raw, s), map k | k in w.table.hourly && k.0 != s :: w.table.hourly[k]),
          Without(w.log, s), w.commits)
  }

  function Run(es: seq<Event>): World {
    if es == [] then Start() else Step(Run(es[..|es| - 1]), es[|es| - 1])
  }

  function End(e: Event): int {
    match e
    case Sampled(at, _) => at
    case Rollup(_, later, _) => later
    case ServerDeleted(at, _) => at
  }

  /** The clock never goes back, and a sample reaches the table within the raw retention window of
      the instant it is stamped with. */
  predicate ValidRun(es: seq<Event>) {
    && (forall i | 0 <= i < |es| :: es[i].Rollup? ==> es[i].at <= es[i].later)
    && (forall i | 0 <= i < |es| :: es[i].Sampled? ==>
          IsSample(es[i].sample) && es[i].at - RAW_RETENTION <= es[i].sample.bucket)
    && (forall i | 0 < i < |es| :: End(es[i - 1]) <= es[i].at)
  }

  // ---------- the meaning of a history ----------

  /** The samples that no committed rollup has consumed. */
  function Pending(log: seq<RawRow>, cs: seq<Commit>): seq<RawRow> {
    if cs == [] then log else Since(log, cs[|cs| - 1].rawCutoff)
  }

  /** The samples of one hour that rollup `i` consumed: those between the cutoffs `i - 1` and `i`. */
  function Fragment(log: seq<RawRow>, cs: seq<Commit>, i: nat, s: Series, hour: int): seq<RawRow>
    requires i < |cs|
  {
    Group(Pending(log, cs[..i]), s, hour, cs[i].rawCutoff)
  }

  ghost predicate Touched(log: seq<RawRow>, cs: seq<Commit>, s: Series, hour: int) {
    exists i: nat :: i < |cs| && Fragment(log, cs, i, s, hour) != []
  }

  /** Rollup `i` is the last one that consumed a sample of the hour. */
  ghost predicate LastTouch(log: seq<RawRow>, cs: seq<Commit>, i: nat, s: Series, hour: int) {
    && i < |cs|
    && Fragment(log, cs, i, s, hour) != []
    && forall j: nat :: i < j < |cs| ==> Fragment(log, cs, j, s, hour) == []
  }

  predicate Increasing(cs: seq<Commit>) {
    forall i, j | 0 <= i <= j < |cs| :: cs[i].rawCutoff <= cs[j].rawCutoff && cs[i].hourlyCutoff <= cs[j].hourlyCutoff
  }

  ghost predicate Unique(log: seq<RawRow>) {
    forall i, j | 0 <= i < j < |log| :: log[i].series != log[j].series || log[i].bucket != log[j].bucket
  }

  /** The table is determined by the history: raw rows are the pending samples; an hourly row is
      there exactly when its hour was touched and is within retention, and it aggregates the last
      fragment of its hour. */
  ghost predicate Meaning(w: World) {
    && w.table.raw == Pending(w.log, w.commits)
    && forall s, hour :: HourMeaning(w, s, hour)
  }

  ghost predicate HourMeaning(w: World, s: Series, hour: int) {
    && ((s, hour) in w.table.hourly <==>
          Touched(w.log, w.commits, s, hour) && w.commits[|w.commits| - 1].hourlyCutoff <= hour)
    && (forall i: nat :: (s, hour) in w.table.hourly && LastTouch(w.log, w.commits, i, s, hour) ==>
          w.table.hourly[(s, hour)] == Aggregate(s, Fragment(w.log, w.commits, i, s, hour)))
  }

  // ---------- refinement over every run ----------

  /** What else every reachable state keeps. */
  ghost predicate Orderly(w: World, clock: int) {
    && AllSamples(w.log)
    && Unique(w.log)
    && Increasing(w.commits)
    && forall c | c in w.commits :: c.rawCutoff <= clock - RAW_RETENTION && c.hourlyCutoff <= clock - HOURLY_RETENTION
  }

  lemma {:induction false} FragmentStable(log: seq<RawRow>, r: RawRow, cs: seq<Commit>, i: nat, s: Series, hour: int)
    requires i < |cs| && cs[i].rawCutoff <= r.bucket
    ensures Fragment(log + [r], cs, i, s, hour) == Fragment(log, cs, i, s, hour)
  {
    var before := Pending(log, cs[..i]);
    if i == 0 {
      GroupAppend(log, r, s, hour, cs[i].rawCutoff);
    } else {
      SinceAppend(log, r, cs[i - 1].rawCutoff);
      GroupAppend(before, r, s, hour, cs[i].rawCutoff);
    }
  }

  lemma AcceptKeepsMeaning(w: World, r: RawRow, clock: int)
    requires Meaning(w) && Orderly(w, clock) && clock - RAW_RETENTION <= r.bucket
    ensures Meaning(Accept(w, r))
  {
    assert forall c | c in w.commits :: c.rawCutoff <= r.bucket;
    hide HourMeaning, Orderly, Accept, Pending;
    AcceptKeepsPending(w, r);
    forall s, hour ensures HourMeaning(Accept(w, r), s, hour) {
      assert HourMeaning(w, s, hour);
      AcceptKeepsHour(w, r, s, hour);
    }
  }

  lemma AcceptKeepsPending(w: World, r: RawRow)
    requires w.table.raw == Pending(w.log, w.commits) && forall c | c in w.commits :: c.rawCutoff <= r.bucket
    ensures Accept(w, r).table.raw == Pending(Accept(w, r).log, Accept(w, r).commits)
  {
    hide Taken;
    if w.commits != [] { SinceAppend(w.log, r, w.commits[|w.commits| - 1].rawCutoff); }
  }

  lemma AcceptKeepsHour(w: World, r: RawRow, s: Series, hour: int)
    requires HourMeaning(w, s, hour) && forall c | c in w.commits :: c.rawCutoff <= r.bucket
    ensures HourMeaning(Accept(w, r), s, hour)
  {
    hide Fragment, Aggregate, Touched, Taken;
    FragmentsStable(w.log, r, w.commits, s, hour);
    TouchesStable(w.log, w.log + [r], w.commits, s, hour);
  }

  lemma TouchesStable(log: seq<RawRow>, other: seq<RawRow>, cs: seq<Commit>, s: Series, hour: int)
    requires forall i: nat | i < |cs| :: Fragment(other, cs, i, s, hour) == Fragment(log, cs, i, s, hour)
    ensures Touched(other, cs, s, hour) == Touched(log, cs, s, hour)
    ensures forall i: nat :: LastTouch(other, cs, i, s, hour) == LastTouch(log, cs, i, s, hour)
  {
    hide Fragment;
  }

  lemma FragmentsStable(log: seq<RawRow>, r: RawRow, cs: seq<Commit>, s: Series, hour: int)
    requires forall c | c in cs :: c.rawCutoff <= r.bucket
    ensures forall i: nat | i < |cs| :: Fragment(log + [r], cs, i, s, hour) == Fragment(log, cs, i, s, hour)
  {
    forall i: nat | i < |cs| ensures Fragment(log + [r], cs, i, s, hour) == Fragment(log, cs, i, s, hour) {
      assert cs[i] in cs;
      FragmentStable(log, r, cs, i, s, hour);
    }
  }

  lemma AcceptKeepsOrder(w: World, r: RawRow, clock: int)
    requires Meaning(w) && Orderly(w, clock) && IsSample(r) && clock - RAW_RETENTION <= r.bucket
    ensures Orderly(Accept(w, r), clock)
  {
    forall i | 0 <= i < |w.log| && w.log[i].series == r.series && w.log[i].bucket == r.bucket
      ensures Taken(w.table.raw, r.series, r.bucket)
    {
      assert w.log[i] in w.table.raw;
    }
  }

  lemma ConsumeKeepsMeaning(w: World, c: Commit, clock: int)
    requires Meaning(w) && Orderly(w, clock) && clock - RAW_RETENTION <= c.rawCutoff
    requires clock - HOURLY_RETENTION <= c.hourlyCutoff
    ensures Meaning(Consume(w, c))
  {
    assert forall d | d in w.commits :: d.rawCutoff <= c.rawCutoff && d.hourlyCutoff <= c.hourlyCutoff;
    hide HourMeaning, Orderly, Consume, Pending;
    ConsumeKeepsPending(w, c);
    forall s, hour ensures HourMeaning(Consume(w, c), s, hour) {
      assert HourMeaning(w, s, hour);
      ConsumeKeepsHour(w, c, s, hour);
    }
  }

  lemma ConsumeKeepsPending(w: World, c: Commit)
    requires w.table.raw == Pending(w.log, w.commits) && forall d | d in w.commits :: d.rawCutoff <= c.rawCutoff
    ensures Consume(w, c).table.raw == Pending(Consume(w, c).log, Consume(w, c).commits)
  {
    var cs := w.commits;
    if cs != [] { SinceSince(w.log, cs[|cs| - 1].rawCutoff, c.rawCutoff); }
  }

  lemma ConsumeKeepsHour(w: World, c: Commit, s: Series, hour: int)
    requires HourMeaning(w, s, hour) && w.table.raw == Pending(w.log, w.commits)
    requires forall d | d in w.commits :: d.hourlyCutoff <= c.hourlyCutoff
    ensures HourMeaning(Consume(w, c), s, hour)
  {
    var v := Consume(w, c);
    assert v.log == w.log && v.commits == w.commits + [c];
    ConsumeKeepsPresence(w, c, s, hour);
    hide Consume, Fragment, Touched, Pending;
    forall i: nat | (s, hour) in v.table.hourly && LastTouch(w.log, v.commits, i, s, hour)
      ensures v.table.hourly[(s, hour)] == Aggregate(s, Fragment(w.log, v.commits, i, s, hour))
    {
      ConsumeKeepsValue(w, c, s, hour, i);
    }
  }

  lemma ConsumeKeepsPresence(w: World, c: Commit, s: Series, hour: int)
    requires HourMeaning(w, s, hour) && w.table.raw == Pending(w.log, w.commits)
    requires forall d | d in w.commits :: d.hourlyCutoff <= c.hourlyCutoff
    ensures (s, hour) in Consume(w, c).table.hourly <==>
              Touched(w.log, w.commits + [c], s, hour) && c.hourlyCutoff <= hour
  {
    var n := |w.commits|;
    assert n == 0 ==> !Touched(w.log, w.commits, s, hour);
    hide RolledUp, Touched, LastTouch, Fragment, Aggregate, Group, Pending;
    RolledUpAt(w.table, c.rawCutoff, c.hourlyCutoff, s, hour);
    TouchedMore(w.log, w.commits, c, s, hour);
    assert n > 0 ==> w.commits[n - 1] in w.commits;
  }

  lemma ConsumeKeepsValue(w: World, c: Commit, s: Series, hour: int, i: nat)
    requires HourMeaning(w, s, hour) && w.table.raw == Pending(w.log, w.commits)
    requires (s, hour) in Consume(w, c).table.hourly && LastTouch(w.log, w.commits + [c], i, s, hour)
    ensures Consume(w, c).table.hourly[(s, hour)] == Aggregate(s, Fragment(w.log, w.commits + [c], i, s, hour))
  {
    hide RolledUp, Aggregate, Group, Pending;
    RolledUpAt(w.table, c.rawCutoff, c.hourlyCutoff, s, hour);
    var n := |w.commits|;
    assert (w.commits + [c])[..n] == w.commits;
    assert Fragment(w.log, w.commits + [c], n, s, hour) == Group(w.table.raw, s, hour, c.rawCutoff);
    if i < n {
      assert (w.commits + [c])[..i] == w.commits[..i];
      LastTouchMore(w.log, w.commits, c, i, s, hour);
    }
  }

  lemma LastTouchMore(log: seq<RawRow>, cs: seq<Commit>, c: Commit, i: nat, s: Series, hour: int)
    requires LastTouch(log, cs + [c], i, s, hour) && i < |cs|
    ensures LastTouch(log, cs, i, s, hour)
  {
    forall j: nat | j < |cs| ensures Fragment(log, cs + [c], j, s, hour) == Fragment(log, cs, j, s, hour) {
      assert (cs + [c])[..j] == cs[..j];
    }
  }

  lemma TouchedMore(log: seq<RawRow>, cs: seq<Commit>, c: Commit, s: Series, hour: int)
    ensures Touched(log, cs + [c], s, hour) <==>
            Touched(log, cs, s, hour) || Group(Pending(log, cs), s, hour, c.rawCutoff) != []
  {
    var cs' := cs + [c];
    assert cs'[..|cs|] == cs;
    forall j: nat | j < |cs| ensures Fragment(log, cs', j, s, hour) == Fragment(log, cs, j, s, hour) {
      assert cs'[..j] == cs[..j];
    }
    assert Fragment(log, cs', |cs|, s, hour) == Group(Pending(log, cs), s, hour, c.rawCutoff);
    if Touched(log, cs, s, hour) {
      var i: nat :| i < |cs| && Fragment(log, cs, i, s, hour) != [];
      assert Fragment(log, cs', i, s, hour) != [];
    }
  }

  lemma OrderlyLater(w: World, clock: int, later: int)
    requires Orderly(w, clock) && clock <= later
    ensures Orderly(w, later)
  {
  }

  lemma ConsumeKeepsOrder(w: World, c: Commit, clock: int, later: int)
    requires Orderly(w, clock) && clock <= later
    requires clock - RAW_RETENTION == c.rawCutoff && later - HOURLY_RETENTION == c.hourlyCutoff
    ensures Orderly(Consume(w, c), later)
  {
    forall i | 0 <= i < |w.commits|
      ensures w.commits[i].rawCutoff <= c.rawCutoff && w.commits[i].hourlyCutoff <= c.hourlyCutoff
    {
      assert w.commits[i] in w.commits;
    }
  }

  lemma RollupIs(w: World, e: Event)
    requires e.Rollup?
    ensures Step(w, e) == if e.outcome == Commits then Consume(w, Commit(e.at - RAW_RETENTION, e.later - HOURLY_RETENTION)) else w
  {
    hide Consume;
  }

  lemma RollupStep(w: World, e: Event)
    requires e.Rollup? && e.at <= e.later && Meaning(w) && Orderly(w, e.at)
    ensures Meaning(Step(w, e)) && Orderly(Step(w, e), e.later)
  {
    hide Step, Consume, Meaning, Orderly;
    RollupIs(w, e);
    if e.outcome == Commits {
      var c := Commit(e.at - RAW_RETENTION, e.later - HOURLY_RETENTION);
      ConsumeKeepsMeaning(w, c, e.at);
      ConsumeKeepsOrder(w, c, e.at, e.later);
    } else {
      OrderlyLater(w, e.at, e.later);
    }
  }

  // ---------- the deletion of a server ----------

  lemma WithoutAppend(rows: seq<RawRow>, r: RawRow, s: Series)
    ensures Without(rows + [r], s) == if r.series == s then Without(rows, s) else Without(rows, s) + [r]
  {
    assert (rows + [r])[..|rows|] == rows;
  }

  lemma {:induction false} SinceWithout(rows: seq<RawRow>, s: Series, cutoff: int)
    ensures Since(Without(rows, s), cutoff) == Without(Since(rows, cutoff), s)
  {
    if rows != [] {
      var init, last := rows[..|rows| - 1], rows[|rows| - 1];
      SinceWithout(init, s, cutoff);
      SinceAppend(Without(init, s), last, cutoff);
      WithoutAppend(Since(init, cutoff), last, s);
    }
  }

  lemma {:induction false} GroupWithout(rows: seq<RawRow>, gone: Series, s: Series, hour: int, cutoff: int)
    ensures Group(Without(rows, gone), s, hour, cutoff) == if s == gone then [] else Group(rows, s, hour, cutoff)
  {
    if rows != [] {
      var init, last := rows[..|rows| - 1], rows[|rows| - 1];
      GroupWithout(init, gone, s, hour, cutoff);
      GroupAppend(Without(init, gone), last, s, hour, cutoff);
      hide HourOf;
    }
  }

  lemma FragmentWithout(log: seq<RawRow>, gone: Series, cs: seq<Commit>, i: nat, s: Series, hour: int)
    requires i < |cs|
    ensures Fragment(Without(log, gone), cs, i, s, hour) == if s == gone then [] else Fragment(log, cs, i, s, hour)
  {
    hide Since, Group, Without;
    if i > 0 { SinceWithout(log, gone, cs[i - 1].rawCutoff); }
    GroupWithout(Pending(log, cs[..i]), gone, s, hour, cs[i].rawCutoff);
  }

  lemma ForgetKeepsPending(w: World, s: Series)
    requires w.table.raw == Pending(w.log, w.commits)
    ensures Forget(w, s).table.raw == Pending(Forget(w, s).log, Forget(w, s).commits)
  {
    hide Since, Without;
    if w.commits != [] { SinceWithout(w.log, s, w.commits[|w.commits| - 1].rawCutoff); }
  }

  lemma ForgottenHour(w: World, s: Series, hour: int)
    ensures HourMeaning(Forget(w, s), s, hour)
  {
    var log := Without(w.log, s);
    forall i: nat | i < |w.commits| ensures Fragment(log, w.commits, i, s, hour) == [] {
      FragmentWithout(w.log, s, w.commits, i, s, hour);
    }
    hide Fragment, Without, Aggregate;
  }

  lemma ForgetKeepsHour(w: World, gone: Series, s: Series, hour: int)
    requires HourMeaning(w, s, hour) && s != gone
    ensures HourMeaning(Forget(w, gone), s, hour)
  {
    hide Fragment, Aggregate, Touched, Without;
    forall i: nat | i < |w.commits|
      ensures Fragment(Without(w.log, gone), w.commits, i, s, hour) == Fragment(w.log, w.commits, i, s, hour)
    {
      FragmentWithout(w.log, gone, w.commits, i, s, hour);
    }
    TouchesStable(w.log, Without(w.log, gone), w.commits, s, hour);
  }

  lemma {:induction false} UniqueWithout(log: seq<RawRow>, s: Series)
    requires Unique(log)
    ensures Unique(Without(log, s))
  {
    if log != [] {
      var init, last := log[..|log| - 1], log[|log| - 1];
      UniqueWithout(init, s);
      var rest := Without(init, s);
      forall i | 0 <= i < |rest| ensures rest[i].series != last.series || rest[i].bucket != last.bucket {
        assert rest[i] in init;
      }
    }
  }

  lemma ForgetKeeps(w: World, s: Series, clock: int)
    requires Meaning(w) && Orderly(w, clock)
    ensures Meaning(Forget(w, s)) && Orderly(Forget(w, s), clock)
  {
    hide HourMeaning, IsSample, Unique, Pending, Without, Forget;
    ForgetIs(w, s);
    UniqueWithout(w.log, s);
    ForgetKeepsPending(w, s);
    forall t, hour ensures HourMeaning(Forget(w, s), t, hour) {
      assert HourMeaning(w, t, hour);
      if t == s { ForgottenHour(w, s, hour); } else { ForgetKeepsHour(w, s, t, hour); }
    }
  }

  lemma ForgetIs(w: World, s: Series)
    ensures Forget(w, s).log == Without(w.log, s) && Forget(w, s).commits == w.commits
  {
  }

  // ---------- every step, every run ----------

  lemma StepKeepsMeaning(w: World, e: Event, clock: int)
    requires Meaning(w) && Orderly(w, clock) && clock <= e.at <= End(e)
    requires e.Sampled? ==> IsSample(e.sample) && e.at - RAW_RETENTION <= e.sample.bucket
    ensures Meaning(Step(w, e)) && Orderly(Step(w, e), End(e))
  {
    hide Consume, Accept, Forget, Meaning, Orderly, IsSample;
    OrderlyLater(w, clock, e.at);
    if e.Sampled? {
      AcceptKeepsMeaning(w, e.sample, e.at);
      AcceptKeepsOrder(w, e.sample, e.at);
      assert Step(w, e) == Accept(w, e.sample);
    } else if e.ServerDeleted? {
      ForgetKeeps(w, Server(e.id), e.at);
    } else {
      hide Step;
      RollupStep(w, e);
    }
  }

  lemma StartMeaning(clock: int)
    ensures Meaning(Start()) && Orderly(Start(), clock)
  {
  }

  /** Main result: on every run the stored table means exactly what `Meaning` says of its history. */
  lemma {:induction false} RunMeaning(es: seq<Event>)
    requires ValidRun(es)
    ensures Meaning(Run(es))
    ensures es != [] ==> Orderly(Run(es), End(es[|es| - 1]))
  {
    hide Step, Meaning, Orderly, IsSample, Start;
    if es == [] {
      StartMeaning(0);
    } else {
      var init, e := es[..|es| - 1], es[|es| - 1];
      RunMeaning(init);
      if init == [] {
        StartMeaning(e.at);
        StepKeepsMeaning(Start(), e, e.at);
      } else {
        assert init[|init| - 1] == es[|es| - 2];
        StepKeepsMeaning(Run(init), e, End(init[|init| - 1]));
      }
    }
  }
}
