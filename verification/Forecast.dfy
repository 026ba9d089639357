/** The disk capacity forecast. float64 is read as real, so rounding is not part of this model. */
module Forecast {
  import opened Wrappers
  import opened Regression
  import opened MetricHistory

  const MAX_PLAUSIBLE_DAYS := 3650.0

  /** Without samples only the limit is reported; `samples` stands for the sample-window text. */
  datatype CapacityForecast = CapacityForecast(
    currentDisk: real, diskLimit: real, trendPerDay: real, daysUntilFull: Option<real>, samples: nat)

  function Hours(later: int, earlier: int): real {
    (later - earlier) as real / 3_600_000_000.0
  }

  /** The regression input: hours since the first point against megabytes in use. */
  function SamplesOf(points: seq<MetricPoint>): (s: seq<Sample>)
    ensures |s| == |points|
    ensures forall i | 0 <= i < |s| :: s[i] == Sample(Hours(points[i].at, points[0].at), points[i].disk)
  {
    seq(|points|, i requires 0 <= i < |points| => Sample(Hours(points[i].at, points[0].at), points[i].disk))
  }

  ghost function TrendPerDay(points: seq<MetricPoint>): real {
    var s := SamplesOf(points);
    if |points| < 3 || Denominator(s) == 0.0 then 0.0 else Slope(s) * 24.0
  }

  /** The accumulation loop of the forecast. */
  method Totals(points: seq<MetricPoint>) returns (sumX: real, sumY: real, sumXY: real, sumXX: real)
    requires points != []
    ensures sumX == SumX(SamplesOf(points)) && sumY == SumY(SamplesOf(points))
    ensures sumXY == SumXY(SamplesOf(points)) && sumXX == SumXX(SamplesOf(points))
  {
    hide Hours;
    var t0 := points[0].at;
    sumX, sumY, sumXY, sumXX := 0.0, 0.0, 0.0, 0.0;
    ghost var s := SamplesOf(points);
    NothingSummed(s);
    hide SumX, SumY, SumXY, SumXX;
    for i := 0 to |points|
      invariant sumX == SumX(s[..i]) && sumY == SumY(s[..i])
      invariant sumXY == SumXY(s[..i]) && sumXX == SumXX(s[..i])
    {
      var x := Hours(points[i].at, t0);
      var y := points[i].disk;
      sumX := sumX + x;
      sumY := sumY + y;
      sumXY := sumXY + x * y;
      sumXX := sumXX + x * x;
      SumsGrow(s, i);
    }
    assert s[..|points|] == s;
  }

  lemma NothingSummed(s: seq<Sample>)
    ensures SumX(s[..0]) == 0.0 && SumY(s[..0]) == 0.0 && SumXY(s[..0]) == 0.0 && SumXX(s[..0]) == 0.0
  {
  }

  method GetCapacityForecast(points: seq<MetricPoint>, diskGB: int) returns (f: CapacityForecast)
    ensures f.diskLimit == diskGB as real * 1024.0 && f.samples == |points|
    ensures f.currentDisk == if points == [] then 0.0 else points[|points| - 1].disk
    ensures f.trendPerDay == TrendPerDay(points)
    ensures f.daysUntilFull.Some? <==>
            && 0.0 < f.trendPerDay && f.currentDisk < f.diskLimit
            && f.diskLimit - f.currentDisk <= MAX_PLAUSIBLE_DAYS * f.trendPerDay
    ensures f.daysUntilFull.Some? ==>
            && 0.0 < f.daysUntilFull.value <= MAX_PLAUSIBLE_DAYS
            && f.currentDisk + f.trendPerDay * f.daysUntilFull.value == f.diskLimit
  {
    hide SumX, SumY, SumXY, SumXX, SamplesOf;
    var limit := diskGB as real * 1024.0;
    if |points| == 0 {
      return CapacityForecast(0.0, limit, 0.0, None, 0);
    }
    var current := points[|points| - 1].disk;
    f := CapacityForecast(current, limit, 0.0, None, |points|);
    if |points| < 3 {
      return;
    }

    var n := |points| as real;
    var sumX, sumY, sumXY, sumXX := Totals(points);
    var denom := n * sumXX - sumX * sumX;
    ghost var s := SamplesOf(points);
    assert denom == Denominator(s);
    if denom == 0.0 {
      return;
    }
    var slopePerHour := (n * sumXY - sumX * sumY) / denom;
    assert slopePerHour == Slope(s);
    f := f.(trendPerDay := slopePerHour * 24.0);
    f := f.(daysUntilFull := DaysUntilFull(f.trendPerDay, current, limit));
  }

  /** A deadline only when usage grows, the disk is not full yet, and the date is plausible. */
  function DaysUntilFull(trendPerDay: real, current: real, limit: real): (r: Option<real>)
    ensures r.Some? <==> 0.0 < trendPerDay && current < limit && limit - current <= MAX_PLAUSIBLE_DAYS * trendPerDay
    ensures r.Some? ==> 0.0 < r.value <= MAX_PLAUSIBLE_DAYS && current + trendPerDay * r.value == limit
  {
    if trendPerDay > 0.0 && current < limit then
      DaysAlgebra(limit - current, trendPerDay, MAX_PLAUSIBLE_DAYS);
      var days := (limit - current) / trendPerDay;
      if days <= MAX_PLAUSIBLE_DAYS then Some(days) else None
    else None
  }

  lemma SumsGrow(s: seq<Sample>, i: nat)
    requires i < |s|
    ensures SumX(s[..i + 1]) == SumX(s[..i]) + s[i].x && SumY(s[..i + 1]) == SumY(s[..i]) + s[i].y
    ensures SumXY(s[..i + 1]) == SumXY(s[..i]) + s[i].x * s[i].y
    ensures SumXX(s[..i + 1]) == SumXX(s[..i]) + s[i].x * s[i].x
  {
    assert s[..i + 1][..i] == s[..i];
  }

  lemma DaysAlgebra(room: real, trend: real, bound: real)
    requires 0.0 < room && 0.0 < trend
    ensures 0.0 < room / trend && trend * (room / trend) == room
    ensures room / trend <= bound <==> room <= bound * trend
  {
    var days := room / trend;
    assert days * trend == room;
    if bound < days { StrictTimes(trend, bound, days); }
    if days <= bound { WeakTimes(trend, days, bound); }
    if days <= 0.0 { WeakTimes(trend, days, 0.0); }
  }

  lemma StrictTimes(k: real, a: real, b: real)
    requires 0.0 < k && a < b
    ensures a * k < b * k
  {
    PositiveTimes(k, b - a);
    assert k * (b - a) == b * k - a * k;
  }

  lemma WeakTimes(k: real, a: real, b: real)
    requires 0.0 < k && a <= b
    ensures a * k <= b * k
  {
    if a < b { StrictTimes(k, a, b); }
  }

  // ---------- what the forecast means ----------

  lemma HoursOrder(a: int, b: int, t0: int)
    ensures Hours(a, t0) < Hours(b, t0) <==> a < b
  {
  }

  /** The division is skipped exactly when every point carries the same instant. */
  lemma TrendGuard(points: seq<MetricPoint>)
    requires points != []
    ensures Denominator(SamplesOf(points)) == 0.0 <==> forall i | 0 <= i < |points| :: points[i].at == points[0].at
    ensures 0.0 <= Denominator(SamplesOf(points))
  {
    var s := SamplesOf(points);
    DenominatorZeroIff(s);
    DenominatorNonNegative(s);
    forall i | 0 <= i < |points| ensures s[i].x == s[0].x <==> points[i].at == points[0].at {
      HoursOrder(points[i].at, points[0].at, points[0].at);
      HoursOrder(points[0].at, points[i].at, points[0].at);
    }
  }

  /** Disk usage that never falls as time goes on is never forecast to shrink. */
  lemma RisingUsage(points: seq<MetricPoint>)
    requires forall p, q | p in points && q in points :: p.at < q.at ==> p.disk <= q.disk
    ensures 0.0 <= TrendPerDay(points)
  {
    var s := SamplesOf(points);
    if 3 <= |points| && Denominator(s) != 0.0 {
      forall p, q | p in s && q in s && p.x < q.x ensures p.y <= q.y {
        var i :| 0 <= i < |s| && s[i] == p;
        var j :| 0 <= j < |s| && s[j] == q;
        HoursOrder(points[i].at, points[j].at, points[0].at);
        assert points[i] in points && points[j] in points;
      }
      RisingSlope(s);
    }
  }

  /** Usage that grows by exactly `perDay` a day, of 86 400 000 000 microseconds, is forecast to grow by exactly
      that. */
  lemma SteadyUsage(points: seq<MetricPoint>, start: real, perDay: real)
    requires 3 <= |points| && exists i | 0 <= i < |points| :: points[i].at != points[0].at
    requires forall p | p in points :: p.disk == start + perDay * ((p.at - points[0].at) as real / 86_400_000_000.0)
    ensures TrendPerDay(points) == perDay
  {
    TrendGuard(points);
    SteadySamples(points, start, perDay);
    var s := SamplesOf(points);
    hide Denominator, Slope, SamplesOf;
    LinearSlope(s, start, perDay / 24.0);
  }

  lemma SteadySamples(points: seq<MetricPoint>, start: real, perDay: real)
    requires points != []
    requires forall p | p in points :: p.disk == start + perDay * ((p.at - points[0].at) as real / 86_400_000_000.0)
    ensures forall p | p in SamplesOf(points) :: p.y == start + (perDay / 24.0) * p.x
  {
    var s := SamplesOf(points);
    forall i | 0 <= i < |s| ensures s[i].y == start + (perDay / 24.0) * s[i].x {
      assert points[i] in points;
      DayOfHours(points[i].at, points[0].at);
      hide Hours;
      Rescale(perDay, s[i].x);
    }
  }

  lemma DayOfHours(later: int, earlier: int)
    ensures (later - earlier) as real / 86_400_000_000.0 == Hours(later, earlier) / 24.0
  {
  }

  lemma Rescale(a: real, b: real)
    ensures a * (b / 24.0) == (a / 24.0) * b
  {
  }

  /** Measuring hours from any other instant than the first point gives the same trend. */
  lemma OriginIrrelevant(points: seq<MetricPoint>, origin: int, moved: seq<Sample>)
    requires points != [] && |moved| == |points|
    requires forall i | 0 <= i < |points| :: moved[i] == Sample(Hours(points[i].at, origin), points[i].disk)
    ensures Denominator(moved) == Denominator(SamplesOf(points)) && Numerator(moved) == Numerator(SamplesOf(points))
  {
    var s := SamplesOf(points);
    var c := Hours(points[0].at, origin);
    assert moved == Shifted(s, c);
    ShiftInvariant(s, c);
  }
}
