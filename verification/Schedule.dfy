/** When a backup policy is next due. Instants are microseconds since 1970 in UTC. */
module Schedule {
  import opened Wrappers
  import opened Text

  const DAY := 86_400_000_000
  const MAX_INT := 0x7fff_ffff_ffff_ffff

  datatype ScheduleError = BadFormat | BadHour | BadMinute | WeekdayRequired | NoNextRun

  // ---------- "HH:MM" ----------

  predicate AllDigits(s: string) {
    forall i | 0 <= i < |s| :: '0' <= s[i] <= '9'
  }

  function DigitsValue(s: string): nat
    requires AllDigits(s)
  {
    if s == "" then 0 else 10 * DigitsValue(s[..|s| - 1]) + (s[|s| - 1] - '0') as int
  }

  /** `strconv.Atoi` on a 64-bit platform: an optional sign, then digits, within range. */
  function Atoi(s: string): Option<int> {
    var negative := s != "" && s[0] == '-';
    var digits := if s != "" && s[0] in {'-', '+'} then s[1..] else s;
    if digits == "" || !AllDigits(digits) then None
    else
      var magnitude: int := DigitsValue(digits);
      var v := if negative then -magnitude else magnitude;
      if -MAX_INT - 1 <= v <= MAX_INT then Some(v) else None
  }

  function ParseTimeOfDay(v: string): (r: Result<(int, int), ScheduleError>)
    ensures r.Ok? ==> 0 <= r.value.0 <= 23 && 0 <= r.value.1 <= 59
  {
    var parts := Split(v, ':');
    if |parts| != 2 then Err(BadFormat)
    else
      var hour := Atoi(parts[0]);
      if hour == None || hour.value < 0 || hour.value > 23 then Err(BadHour)
      else
        var minute := Atoi(parts[1]);
        if minute == None || minute.value < 0 || minute.value > 59 then Err(BadMinute)
        else Ok((hour.value, minute.value))
  }

  function TwoDigits(n: nat): string
    requires n < 100
  {
    [(n / 10) as char + '0', (n % 10) as char + '0']
  }

  lemma AtoiTwoDigits(n: nat)
    requires n < 100
    ensures Atoi(TwoDigits(n)) == Some(n) && ':' !in TwoDigits(n)
  {
    var s := TwoDigits(n);
    var tens, units := s[0], s[1];
    assert (tens - '0') as int == n / 10 && (units - '0') as int == n % 10;
    assert s[..1] == [tens] && s[..1][..0] == "";
    assert DigitsValue([tens]) == n / 10;
    assert DigitsValue(s) == 10 * DigitsValue(s[..1]) + n % 10;
  }

  lemma PartsAccepted(hour: string, minute: string, h: int, m: int)
    requires ':' !in hour && ':' !in minute && Atoi(hour) == Some(h) && Atoi(minute) == Some(m)
    requires 0 <= h <= 23 && 0 <= m <= 59
    ensures ParseTimeOfDay(hour + ":" + minute) == Ok((h, m))
  {
    hide Atoi;
    SplitAppend(hour, ':', minute);
    SplitWhole(hour, ':');
    SplitWhole(minute, ':');
  }

  /** Every time of day written as "HH:MM" is read back. */
  lemma TimeOfDayRoundTrip(hour: nat, minute: nat)
    requires hour <= 23 && minute <= 59
    ensures ParseTimeOfDay(TwoDigits(hour) + ":" + TwoDigits(minute)) == Ok((hour, minute))
  {
    AtoiTwoDigits(hour);
    AtoiTwoDigits(minute);
    PartsAccepted(TwoDigits(hour), TwoDigits(minute), hour, minute);
  }

  /** An accepted string is two numbers around its only colon. */
  lemma AcceptedParts(v: string) returns (hour: string, minute: string)
    requires ParseTimeOfDay(v).Ok?
    ensures v == hour + ":" + minute && ':' !in hour && ':' !in minute
    ensures Atoi(hour) == Some(ParseTimeOfDay(v).value.0) && Atoi(minute) == Some(ParseTimeOfDay(v).value.1)
  {
    var parts := Split(v, ':');
    hour, minute := parts[0], parts[1];
    JoinSplit(v, ':');
    PartsHaveNoSeparator(v, ':');
    assert parts[1..][0] == minute;
    assert hour in parts && minute in parts;
    hide Atoi, Split;
  }

  lemma TwoDigitsValue(s: string)
    requires |s| == 2 && AllDigits(s)
    ensures DigitsValue(s) == 10 * (s[0] - '0') as int + (s[1] - '0') as int
  {
    assert s[..1] == [s[0]] && s[..1][..0] == "";
    assert DigitsValue(s[..1]) == (s[0] - '0') as int;
  }

  lemma TwoDigitsAre(tens: char, units: char)
    requires '0' <= tens <= '9' && '0' <= units <= '9'
    ensures TwoDigits(10 * (tens - '0') as int + (units - '0') as int) == [tens, units]
  {
  }

  /** Among the strings read as `n`, the two-digit form is the one with two characters and a leading digit. */
  lemma TwoDigitForm(s: string, n: nat)
    requires n < 100 && Atoi(s) == Some(n)
    ensures s == TwoDigits(n) <==> |s| == 2 && '0' <= s[0] <= '9'
  {
    if |s| == 2 && '0' <= s[0] <= '9' {
      TwoDigitsValue(s);
      TwoDigitsAre(s[0], s[1]);
      assert s == [s[0], s[1]];
    } else {
      assert '0' <= TwoDigits(n)[0] <= '9';
    }
  }

  lemma SameParts(a: string, b: string, c: string, d: string)
    requires ':' !in a && ':' !in b && ':' !in c && ':' !in d
    ensures a + ":" + b == c + ":" + d <==> a == c && b == d
  {
    SplitAppend(a, ':', b);
    SplitAppend(c, ':', d);
    SplitWhole(a, ':');
    SplitWhole(b, ':');
    SplitWhole(c, ':');
    SplitWhole(d, ':');
    assert [a] + [b] == [a, b] && [c] + [d] == [c, d];
  }

  lemma OnlyColon(hour: string, minute: string, k: nat)
    requires ':' !in hour && ':' !in minute && k < |hour + ":" + minute|
    ensures (hour + ":" + minute)[k] == ':' <==> k == |hour|
  {
    var v := hour + ":" + minute;
    if k < |hour| {
      assert v[k] == hour[k];
    } else if k > |hour| {
      assert v[k] == minute[k - |hour| - 1];
    }
  }

  /** The documented form: five characters, the colon in the middle and a digit in front of each number. */
  predicate StrictTime(v: string) {
    |v| == 5 && v[2] == ':' && '0' <= v[0] <= '9' && '0' <= v[3] <= '9'
  }

  lemma StrictShape(hour: string, minute: string)
    requires ':' !in hour && ':' !in minute
    ensures StrictTime(hour + ":" + minute)
       <==> |hour| == 2 && '0' <= hour[0] <= '9' && |minute| == 2 && '0' <= minute[0] <= '9'
  {
    var v := hour + ":" + minute;
    if |v| == 5 {
      OnlyColon(hour, minute, 2);
    }
    if |hour| == 2 && |minute| == 2 {
      assert v[0] == hour[0] && v[2] == ':' && v[3] == minute[0];
    }
  }

  /** Which accepted strings are the documented "HH:MM" of the time they are read as, exactly. */
  lemma StrictTimeIff(v: string)
    requires ParseTimeOfDay(v).Ok?
    ensures v == TwoDigits(ParseTimeOfDay(v).value.0) + ":" + TwoDigits(ParseTimeOfDay(v).value.1) <==> StrictTime(v)
  {
    var (h, m) := ParseTimeOfDay(v).value;
    var hour, minute := AcceptedParts(v);
    TwoDigitForm(hour, h);
    TwoDigitForm(minute, m);
    AtoiTwoDigits(h);
    AtoiTwoDigits(m);
    hide Atoi, TwoDigits, ParseTimeOfDay, StrictTime;
    SameParts(hour, minute, TwoDigits(h), TwoDigits(m));
    StrictShape(hour, minute);
  }

  lemma AtoiOneDigit(c: char)
    requires '0' <= c <= '9'
    ensures Atoi([c]) == Some((c - '0') as int) && Atoi(['+', c]) == Some((c - '0') as int)
  {
    assert ['+', c][1..] == [c] && [c][..0] == "";
    assert DigitsValue([c]) == (c - '0') as int;
  }

  /** The error text asks for "HH:MM", but signs and single digits are accepted too. */
  lemma LooseTimeAccepted()
    ensures ParseTimeOfDay("+7:5") == Ok((7, 5)) && !StrictTime("+7:5")
  {
    AtoiOneDigit('7');
    AtoiOneDigit('5');
    hide Atoi, ParseTimeOfDay;
    PartsAccepted("+7", "5", 7, 5);
    assert "+7" + ":" + "5" == "+7:5";
  }

  // ---------- slots ----------

  function DayOf(t: int): int {
    t / 86_400_000_000
  }

  /** 1 January 1970 was a Thursday; Sunday is 0. */
  function Weekday(day: int): int {
    (day + 4) % 7
  }

  function SlotOn(day: int, hour: int, minute: int): int {
    day * 86_400_000_000 + hour * 3_600_000_000 + minute * 60_000_000
  }

  datatype Plan = Plan(frequency: string, weekday: Option<int>, timeOfDay: string)

  /** A plan whose next run can be computed: what CreateBackupPolicy lets through, and more. */
  predicate Computable(p: Plan) {
    ParseTimeOfDay(p.timeOfDay).Ok? && (p.frequency == "daily" || (p.weekday.Some? && 0 <= p.weekday.value <= 6))
  }

  /** `t` is an instant at which the plan asks for a run. */
  predicate IsSlot(p: Plan, t: int)
    requires ParseTimeOfDay(p.timeOfDay).Ok?
  {
    var (hour, minute) := ParseTimeOfDay(p.timeOfDay).value;
    && t == SlotOn(DayOf(t), hour, minute)
    && (p.frequency != "daily" ==> p.weekday.Some? && Weekday(DayOf(t)) == p.weekday.value)
  }

  /** A slot is read off the clock: the time of day is the plan's, to the microsecond, and for a plan that is not
      daily the whole days since Sunday, 4 January 1970, leave the plan's weekday modulo seven. */
  lemma SlotIff(p: Plan, t: int)
    requires ParseTimeOfDay(p.timeOfDay).Ok?
    ensures var (h, m) := ParseTimeOfDay(p.timeOfDay).value;
            IsSlot(p, t) <==>
              && t % 86_400_000_000 == h * 3_600_000_000 + m * 60_000_000
              && (p.frequency != "daily" ==> p.weekday.Some? && (t / 86_400_000_000 - 3) % 7 == p.weekday.value)
  {
    hide ParseTimeOfDay;
    assert t == t / 86_400_000_000 * 86_400_000_000 + t % 86_400_000_000;
    assert Weekday(DayOf(t)) == (t / 86_400_000_000 - 3) % 7;
  }

  /** `r` is the earliest slot strictly after `after`. */
  ghost predicate IsNextSlot(p: Plan, after: int, r: int)
    requires ParseTimeOfDay(p.timeOfDay).Ok?
  {
    IsSlot(p, r) && after < r && forall s :: IsSlot(p, s) && after < s ==> r <= s
  }

  /** How far apart slots are. */
  function Period(p: Plan): int {
    if p.frequency == "daily" then DAY else 7 * DAY
  }

  lemma SlotsApart(p: Plan, s: int, t: int)
    requires ParseTimeOfDay(p.timeOfDay).Ok? && IsSlot(p, s) && IsSlot(p, t) && s < t
    ensures s + Period(p) <= t
  {
    SlotIff(p, s);
    SlotIff(p, t);
    hide IsSlot, ParseTimeOfDay;
    assert t - s == (t / 86_400_000_000 - s / 86_400_000_000) * 86_400_000_000;
    WholeWeeks(s / 86_400_000_000 - 3, t / 86_400_000_000 - 3);
  }

  lemma WholeWeeks(a: int, b: int)
    ensures a < b && a % 7 == b % 7 ==> a + 7 <= b
  {
  }

  lemma SlotBefore(p: Plan, t: int)
    requires ParseTimeOfDay(p.timeOfDay).Ok? && IsSlot(p, t)
    ensures IsSlot(p, t - Period(p))
  {
    SlotIff(p, t);
    SlotIff(p, t - Period(p));
    hide IsSlot, ParseTimeOfDay;
    DayBefore(t);
    WeekBefore(t);
  }

  lemma DayBefore(t: int)
    ensures (t - DAY) % 86_400_000_000 == t % 86_400_000_000
  {
  }

  lemma WeekBefore(t: int)
    ensures (t - 7 * DAY) % 86_400_000_000 == t % 86_400_000_000
    ensures (t - 7 * DAY) / 86_400_000_000 == t / 86_400_000_000 - 7
  {
  }

  /** The next run is the one slot within a period after `after`: within a day, or within seven days. */
  lemma NextSlotIff(p: Plan, after: int, r: int)
    requires ParseTimeOfDay(p.timeOfDay).Ok?
    ensures IsNextSlot(p, after, r) <==> IsSlot(p, r) && after < r <= after + Period(p)
  {
    hide IsSlot, ParseTimeOfDay;
    if IsNextSlot(p, after, r) && after + Period(p) < r {
      SlotBefore(p, r);
    }
    if IsSlot(p, r) && after < r <= after + Period(p) {
      forall s | IsSlot(p, s) && after < s ensures r <= s {
        if s < r { SlotsApart(p, s, r); }
      }
    }
  }

  lemma SlotOnDay(day: int, hour: int, minute: int)
    requires 0 <= hour <= 23 && 0 <= minute <= 59
    ensures DayOf(SlotOn(day, hour, minute)) == day
  {
    var rest := hour * 3_600_000_000 + minute * 60_000_000;
    assert 0 <= rest < 86_400_000_000;
  }

  /** Later days have later slots, and a slot on a later day is after `after`. */
  lemma SlotOrder(after: int, day: int, hour: int, minute: int)
    requires 0 <= hour <= 23 && 0 <= minute <= 59
    ensures day > DayOf(after) ==> after < SlotOn(day, hour, minute)
    ensures day < DayOf(after) ==> SlotOn(day, hour, minute) < after
  {
  }

  method NextScheduledRun(p: Plan, after: int) returns (r: Result<int, ScheduleError>)
    ensures r.Ok? <==> Computable(p)
    ensures r.Ok? ==> IsNextSlot(p, after, r.value)
    ensures r == Err(NoNextRun) <==>
            ParseTimeOfDay(p.timeOfDay).Ok? && p.frequency != "daily" && p.weekday.Some? && !(0 <= p.weekday.value <= 6)
  {
    var time := ParseTimeOfDay(p.timeOfDay);
    if time.Err? {
      return Err(time.error);
    }
    hide ParseTimeOfDay;
    var (hour, minute) := time.value;
    var today := DayOf(after);

    if p.frequency == "daily" {
      var candidate := SlotOn(today, hour, minute);
      if !(candidate > after) {
        candidate := SlotOn(today + 1, hour, minute);
      }
      DailyNext(p, after, candidate);
      return Ok(candidate);
    }

    if p.weekday == None {
      return Err(WeekdayRequired);
    }
    for i := 0 to 8
      invariant forall d | today <= d < today + i && Weekday(d) == p.weekday.value :: SlotOn(d, hour, minute) <= after
    {
      var day := today + i;
      if Weekday(day) != p.weekday.value {
        continue;
      }
      var candidate := SlotOn(day, hour, minute);
      if candidate > after {
        WeeklyNext(p, after, day);
        return Ok(candidate);
      }
    }
    SomeDayMatches(today, p.weekday.value);
    SlotOrder(after, today + 7, hour, minute);
    forall d | today < d <= today + 7 ensures SlotOn(d, hour, minute) > after { SlotOrder(after, d, hour, minute); }
    return Err(NoNextRun);
  }

  /** Each weekday occurs among the seven days after any day, so eight iterations always suffice. */
  lemma SomeDayMatches(today: int, weekday: int)
    ensures 0 <= weekday <= 6 <==> exists d :: today < d <= today + 7 && Weekday(d) == weekday
  {
    if 0 <= weekday <= 6 {
      var d := today + 1 + (weekday - Weekday(today + 1)) % 7;
      assert Weekday(d) == weekday;
    }
  }

  lemma DailyNext(p: Plan, after: int, r: int)
    requires ParseTimeOfDay(p.timeOfDay).Ok? && p.frequency == "daily"
    requires var (hour, minute) := ParseTimeOfDay(p.timeOfDay).value;
             var today := DayOf(after);
             r == if SlotOn(today, hour, minute) > after then SlotOn(today, hour, minute) else SlotOn(today + 1, hour, minute)
    ensures IsNextSlot(p, after, r)
  {
    var (hour, minute) := ParseTimeOfDay(p.timeOfDay).value;
    SlotOnDay(DayOf(after), hour, minute);
    SlotOnDay(DayOf(after) + 1, hour, minute);
    SlotOrder(after, DayOf(after) + 1, hour, minute);
    forall s | IsSlot(p, s) && after < s ensures r <= s {
      SlotOrder(after, DayOf(s), hour, minute);
    }
  }

  lemma WeeklyNext(p: Plan, after: int, day: int)
    requires ParseTimeOfDay(p.timeOfDay).Ok? && p.frequency != "daily" && p.weekday.Some?
    requires var (hour, minute) := ParseTimeOfDay(p.timeOfDay).value;
             && DayOf(after) <= day && Weekday(day) == p.weekday.value && after < SlotOn(day, hour, minute)
             && forall d | DayOf(after) <= d < day && Weekday(d) == p.weekday.value :: SlotOn(d, hour, minute) <= after
    ensures var (hour, minute) := ParseTimeOfDay(p.timeOfDay).value;
            IsNextSlot(p, after, SlotOn(day, hour, minute))
  {
    var (hour, minute) := ParseTimeOfDay(p.timeOfDay).value;
    SlotOnDay(day, hour, minute);
    forall s | IsSlot(p, s) && after < s ensures SlotOn(day, hour, minute) <= s {
      SlotOrder(after, DayOf(s), hour, minute);
    }
  }

  lemma SameWeekday(a: int, b: int)
    requires a <= b < a + 7
    ensures Weekday(a) == Weekday(b) <==> a == b
  {
  }

  lemma DayToCome(weekday: int, today: int) returns (day: int)
    requires 0 <= weekday <= 6
    ensures today <= day < today + 7 && Weekday(day) == weekday
    ensures forall d | today <= d < today + 7 && Weekday(d) == weekday :: d == day
  {
    day := today + (weekday - Weekday(today)) % 7;
    assert Weekday(day) == weekday;
    forall d | today <= d < today + 7 && Weekday(d) == weekday ensures d == day {
      if d < day { SameWeekday(d, day); } else { SameWeekday(day, d); }
    }
  }

  lemma WeeklyNextExists(p: Plan, after: int) returns (r: int)
    requires ParseTimeOfDay(p.timeOfDay).Ok? && p.frequency != "daily"
    requires p.weekday.Some? && 0 <= p.weekday.value <= 6
    ensures IsNextSlot(p, after, r)
  {
    var (hour, minute) := ParseTimeOfDay(p.timeOfDay).value;
    var today := DayOf(after);
    var day := DayToCome(p.weekday.value, today);
    SlotOrder(after, day, hour, minute);
    SlotOrder(after, day + 7, hour, minute);
    hide ParseTimeOfDay, DayOf, SlotOn;
    if SlotOn(day, hour, minute) <= after {
      assert Weekday(day + 7) == Weekday(day);
      day := day + 7;
    }
    hide Weekday, IsNextSlot;
    WeeklyNext(p, after, day);
    r := SlotOn(day, hour, minute);
  }

  /** Every computable plan has a next slot. */
  lemma NextSlotExists(p: Plan, after: int)
    requires Computable(p)
    ensures exists r :: IsNextSlot(p, after, r)
  {
    hide ParseTimeOfDay, IsNextSlot, SlotOn, DayOf;
    if p.frequency == "daily" {
      var (hour, minute) := ParseTimeOfDay(p.timeOfDay).value;
      var today := DayOf(after);
      var slot := SlotOn(today, hour, minute);
      DailyNext(p, after, if slot > after then slot else SlotOn(today + 1, hour, minute));
    } else {
      var r := WeeklyNextExists(p, after);
    }
  }

  /** The earliest slot strictly after `after`. */
  ghost function NextSlot(p: Plan, after: int): (r: int)
    requires Computable(p)
    ensures IsNextSlot(p, after, r)
  {
    NextSlotExists(p, after);
    var r :| IsNextSlot(p, after, r);
    r
  }
}
