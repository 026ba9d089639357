/** Backup file names and paths: the UTC time stamp, filepath.Clean and filepath.Join, and the check
    that keeps every path below the backup directory. */
module BackupNames {
  import opened Identifiers
  import opened Wrappers
  import opened Text

  // ---------- the time stamp "20060102T150405Z" ----------

  function IsLeap(year: nat): bool {
    year % 4 == 0 && (year % 100 != 0 || year % 400 == 0)
  }

  function DaysInYear(year: nat): nat {
    if IsLeap(year) then 366 else 365
  }

  function DaysInMonth(year: nat, month: nat): nat {
    if month == 2 then (if IsLeap(year) then 29 else 28)
    else if month in {4, 6, 9, 11} then 30
    else 31
  }

  /** The year of the day that lies `days` after 1 January of `year`, and the days left within it. */
  function YearFrom(days: nat, year: nat): (r: (nat, nat))
    ensures year <= r.0
  {
    if days < DaysInYear(year) then (year, days) else YearFrom(days - DaysInYear(year), year + 1)
  }

  function MonthFrom(days: nat, year: nat, month: nat): (r: (nat, nat))
    requires 1 <= month <= 12
    ensures month <= r.0 <= 12
    decreases 12 - month
  {
    if month == 12 || days < DaysInMonth(year, month) then (month, days)
    else MonthFrom(days - DaysInMonth(year, month), year, month + 1)
  }

  datatype Civil = Civil(year: nat, month: nat, day: nat, hour: nat, minute: nat, second: nat)

  function DateOf(days: nat): (nat, nat, nat) {
    var (year, dayOfYear) := YearFrom(days, 1970);
    var (month, day) := MonthFrom(dayOfYear, year, 1);
    (year, month, day + 1)
  }

  /** The UTC calendar reading of a second counted from 1970. */
  function CivilOf(second: nat): Civil {
    var (year, month, day) := DateOf(second / 86400);
    var left := second % 86400 % 3600;
    Civil(year, month, day, second % 86400 / 3600, left / 60, left % 60)
  }

  function Digit(n: nat): char
    requires n < 10
  {
    n as char + '0'
  }

  function Two(n: nat): string {
    [Digit(n / 10 % 10), Digit(n % 10)]
  }

  function Four(n: nat): string {
    [Digit(n / 1000 % 10), Digit(n / 100 % 10), Digit(n / 10 % 10), Digit(n % 10)]
  }

  function Render(c: Civil): (s: string)
    ensures |s| == 16
  {
    Four(c.year) + Two(c.month) + Two(c.day) + "T" + Two(c.hour) + Two(c.minute) + Two(c.second) + "Z"
  }

  /** The clock has not reached the year 10000, where the year needs a fifth digit. */
  predicate FourDigitYear(second: nat) {
    CivilOf(second).year <= 9999
  }

  lemma DigitInjective(a: nat, b: nat)
    requires a < 10 && b < 10 && Digit(a) == Digit(b)
    ensures a == b
  {
    assert (Digit(a) - '0') as int == a && (Digit(b) - '0') as int == b;
  }

  lemma TwoInjective(a: nat, b: nat)
    requires a < 100 && b < 100 && Two(a) == Two(b)
    ensures a == b
  {
    assert Two(a)[0] == Two(b)[0] && Two(a)[1] == Two(b)[1];
    DigitInjective(a / 10 % 10, b / 10 % 10);
    DigitInjective(a % 10, b % 10);
  }

  lemma Tenths(n: nat)
    ensures n / 100 == n / 10 / 10
  {
  }

  lemma Hundredths(n: nat)
    ensures n / 1000 == n / 100 / 10
  {
  }

  lemma FourDigits(n: nat)
    requires n <= 9999
    ensures n == 1000 * (n / 1000 % 10) + 100 * (n / 100 % 10) + 10 * (n / 10 % 10) + n % 10
  {
    Tenths(n);
    Hundredths(n);
    var tens, hundreds, thousands := n / 10, n / 100, n / 1000;
    assert n == 10 * tens + n % 10;
    assert tens == 10 * hundreds + tens % 10;
    assert hundreds == 10 * thousands + hundreds % 10;
    assert thousands < 10;
  }

  lemma FourInjective(a: nat, b: nat)
    requires a <= 9999 && b <= 9999 && Four(a) == Four(b)
    ensures a == b
  {
    assert Four(a)[0] == Four(b)[0] && Four(a)[1] == Four(b)[1] && Four(a)[2] == Four(b)[2] && Four(a)[3] == Four(b)[3];
    DigitInjective(a / 1000 % 10, b / 1000 % 10);
    DigitInjective(a / 100 % 10, b / 100 % 10);
    DigitInjective(a / 10 % 10, b / 10 % 10);
    DigitInjective(a % 10, b % 10);
    hide Digit, Four;
    FourDigits(a);
    FourDigits(b);
  }

  predicate SmallFields(c: Civil) {
    c.year <= 9999 && c.month < 100 && c.day < 100 && c.hour < 100 && c.minute < 100 && c.second < 100
  }

  lemma RenderInjective(a: Civil, b: Civil)
    requires SmallFields(a) && SmallFields(b) && Render(a) == Render(b)
    ensures a == b
  {
    var s := Render(a);
    assert s[0..4] == Four(a.year) && s[4..6] == Two(a.month) && s[6..8] == Two(a.day);
    assert s[9..11] == Two(a.hour) && s[11..13] == Two(a.minute) && s[13..15] == Two(a.second);
    var t := Render(b);
    assert t[0..4] == Four(b.year) && t[4..6] == Two(b.month) && t[6..8] == Two(b.day);
    assert t[9..11] == Two(b.hour) && t[11..13] == Two(b.minute) && t[13..15] == Two(b.second);
    hide Four, Two, Render;
    FourInjective(a.year, b.year);
    TwoInjective(a.month, b.month);
    TwoInjective(a.day, b.day);
    TwoInjective(a.hour, b.hour);
    TwoInjective(a.minute, b.minute);
    TwoInjective(a.second, b.second);
  }

  function Stamp(second: nat): (s: string)
    ensures |s| == 16
  {
    Render(CivilOf(second))
  }

  // ---------- the calendar ----------

  /** The days from 1 January 1970 to 1 January of `year`, from 1970 on: one more for every leap year between. */
  function DaysBefore(year: nat): int {
    365 * (year - 1970) + (year - 1) / 4 - (year - 1) / 100 + (year - 1) / 400 - 477
  }

  /** The days of the year before `month`. */
  function DaysBeforeMonth(year: nat, month: nat): int
    requires 1 <= month <= 12
  {
    [0, 31, 59, 90, 120, 151, 181, 212, 243, 273, 304, 334][month - 1] + if month > 2 && IsLeap(year) then 1 else 0
  }

  lemma Fourths(n: nat)
    requires n > 0
    ensures n / 4 == (n - 1) / 4 + if n % 4 == 0 then 1 else 0
  {
  }

  lemma Centuries(n: nat)
    requires n > 0
    ensures n / 100 == (n - 1) / 100 + if n % 100 == 0 then 1 else 0
  {
  }

  lemma FourCenturies(n: nat)
    requires n > 0
    ensures n / 400 == (n - 1) / 400 + if n % 400 == 0 then 1 else 0
  {
  }

  lemma FourTimes(m: nat)
    ensures 4 * m % 4 == 0
  {
  }

  lemma HundredTimes(m: nat)
    ensures 100 * m % 100 == 0
  {
  }

  lemma CenturyIsFourth(n: nat)
    ensures n % 100 == 0 ==> n % 4 == 0
  {
    FourTimes(25 * (n / 100));
  }

  lemma FourCenturiesAreCenturies(n: nat)
    ensures n % 400 == 0 ==> n % 100 == 0
  {
    HundredTimes(4 * (n / 400));
  }

  lemma YearLength(year: nat)
    requires year > 0
    ensures DaysBefore(year + 1) == DaysBefore(year) + DaysInYear(year)
  {
    Fourths(year);
    Centuries(year);
    FourCenturies(year);
    CenturyIsFourth(year);
    FourCenturiesAreCenturies(year);
  }

  lemma MonthLength(year: nat, month: nat)
    requires 1 <= month < 12
    ensures DaysBeforeMonth(year, month + 1) == DaysBeforeMonth(year, month) + DaysInMonth(year, month)
  {
    hide IsLeap;
  }

  lemma {:induction false} YearFromSum(days: nat, year: nat)
    requires year > 0
    ensures var (y, left) := YearFrom(days, year);
            DaysBefore(year) + days == DaysBefore(y) + left && left < DaysInYear(y)
  {
    hide DaysBefore;
    if DaysInYear(year) <= days {
      YearLength(year);
      YearFromSum(days - DaysInYear(year), year + 1);
    }
  }

  lemma {:induction false} MonthFromSum(days: nat, year: nat, month: nat)
    requires 1 <= month <= 12 && DaysBeforeMonth(year, month) + days < DaysInYear(year)
    ensures var (m, left) := MonthFrom(days, year, month);
            DaysBeforeMonth(year, month) + days == DaysBeforeMonth(year, m) + left && left < DaysInMonth(year, m)
    decreases 12 - month
  {
    if month < 12 {
      MonthLength(year, month);
      hide DaysBeforeMonth;
      if DaysInMonth(year, month) <= days {
        MonthFromSum(days - DaysInMonth(year, month), year, month + 1);
      }
    }
  }

  /** The date of a day is a date of the Gregorian calendar and counts back to that day. */
  lemma DateCountsBack(days: nat)
    ensures var (year, month, day) := DateOf(days);
            && 1 <= month <= 12 && 1 <= day <= DaysInMonth(year, month)
            && days == DaysBefore(year) + DaysBeforeMonth(year, month) + day - 1
  {
    hide DaysBefore, DaysBeforeMonth, DaysInMonth, DaysInYear;
    assert DaysBefore(1970) == 0 by { Year1970(); }
    YearFromSum(days, 1970);
    var (year, dayOfYear) := YearFrom(days, 1970);
    assert DaysBeforeMonth(year, 1) == 0 by { FirstMonth(year); }
    MonthFromSum(dayOfYear, year, 1);
  }

  lemma Year1970()
    ensures DaysBefore(1970) == 0
  {
  }

  lemma FirstMonth(year: nat)
    ensures DaysBeforeMonth(year, 1) == 0
  {
  }

  /** The reading of a second is a date and a time of day that count back to that second. */
  lemma CivilCountsBack(second: nat)
    ensures var c := CivilOf(second);
            && 1 <= c.month <= 12 && 1 <= c.day <= DaysInMonth(c.year, c.month)
            && c.hour < 24 && c.minute < 60 && c.second < 60
            && second == (DaysBefore(c.year) + DaysBeforeMonth(c.year, c.month) + c.day - 1) * 86400
                         + c.hour * 3600 + c.minute * 60 + c.second
  {
    DateCountsBack(second / 86400);
    hide DateOf, DaysBefore, DaysBeforeMonth, DaysInMonth;
    var rest := second % 86400;
    assert rest == rest / 3600 * 3600 + rest % 3600;
    assert rest % 3600 == rest % 3600 / 60 * 60 + rest % 3600 % 60;
  }

  lemma CivilInjective(a: nat, b: nat)
    requires CivilOf(a) == CivilOf(b)
    ensures a == b
  {
    CivilCountsBack(a);
    CivilCountsBack(b);
    hide CivilOf, DaysBefore, DaysBeforeMonth, DaysInMonth;
  }

  lemma CivilSmall(second: nat)
    requires FourDigitYear(second)
    ensures SmallFields(CivilOf(second))
  {
    CivilCountsBack(second);
    assert DaysInMonth(CivilOf(second).year, CivilOf(second).month) <= 31;
    hide CivilOf, DaysBefore, DaysBeforeMonth, DaysInMonth;
  }

  lemma DigitTexts()
    ensures Two(2) == "02" && Two(9) == "09" && Two(23) == "23" && Two(5) == "05" && Two(7) == "07"
  {
  }

  lemma YearText()
    ensures Four(2024) == "2024"
  {
  }

  /** The order and the width of the parts. */
  lemma RenderedParts()
    ensures Render(Civil(2024, 2, 9, 23, 5, 7)) == "20240209T230507Z"
  {
    hide Two, Four;
    DigitTexts();
    YearText();
  }

  /** Different seconds have different stamps. */
  lemma StampInjective(a: nat, b: nat)
    requires FourDigitYear(a) && FourDigitYear(b) && Stamp(a) == Stamp(b)
    ensures a == b
  {
    CivilSmall(a);
    CivilSmall(b);
    RenderInjective(CivilOf(a), CivilOf(b));
    CivilInjective(a, b);
  }

  // ---------- file names ----------

  function Filename(database: string, second: nat): string {
    database + "_" + Stamp(second) + ".dump"
  }

  /** The suffix has a fixed length, so a file name determines its database and its second. */
  lemma FilenameInjective(d: string, a: nat, e: string, b: nat)
    requires FourDigitYear(a) && FourDigitYear(b) && Filename(d, a) == Filename(e, b)
    ensures d == e && a == b
  {
    var f := Filename(d, a);
    assert |f| == |d| + 22 && |f| == |e| + 22;
    assert f[..|d|] == d && Filename(e, b)[..|e|] == e;
    assert f[|d| + 1..|d| + 17] == Stamp(a) && Filename(e, b)[|e| + 1..|e| + 17] == Stamp(b);
    StampInjective(a, b);
  }

  /** A single path segment that is neither empty, "." nor "..": identifiers, UUIDs, file names. */
  predicate PlainName(s: string) {
    s != "" && '/' !in s && s != "." && s != ".."
  }

  lemma StampHasNoSlash(second: nat)
    ensures '/' !in Stamp(second)
  {
    var c := CivilOf(second);
    NoSlash(c.month);
    NoSlash(c.day);
    NoSlash(c.hour);
    NoSlash(c.minute);
    NoSlash(c.second);
    assert '/' !in Four(c.year);
    hide Two, Four, CivilOf;
  }

  lemma NoSlash(n: nat)
    ensures '/' !in Two(n)
  {
  }

  lemma FilenamePlain(database: string, second: nat)
    requires IsIdent(database)
    ensures PlainName(Filename(database, second))
  {
    StampHasNoSlash(second);
    assert '/' !in database;
    assert |Filename(database, second)| > 2;
  }

  // ---------- paths ----------

  /** One segment of filepath.Clean. */
  function Push(rooted: bool, stack: seq<string>, segment: string): seq<string> {
    if segment == "" || segment == "." then stack
    else if segment != ".." then stack + [segment]
    else if stack != [] && stack[|stack| - 1] != ".." then stack[..|stack| - 1]
    else if rooted then stack
    else stack + [segment]
  }

  function PushAll(rooted: bool, stack: seq<string>, segments: seq<string>): seq<string>
    decreases |segments|
  {
    if segments == [] then stack else PushAll(rooted, Push(rooted, stack, segments[0]), segments[1..])
  }

  function Clean(path: string): string {
    var rooted := path != "" && path[0] == '/';
    var stack := PushAll(rooted, [], Split(path, '/'));
    if rooted then "/" + Join(stack, '/') else if stack == [] then "." else Join(stack, '/')
  }

  function NonEmptyOf(elems: seq<string>): seq<string> {
    if elems == [] then [] else (if elems[0] == "" then [] else [elems[0]]) + NonEmptyOf(elems[1..])
  }

  function FilepathJoin(elems: seq<string>): string {
    var kept := NonEmptyOf(elems);
    if kept == [] then "" else Clean(Join(kept, '/'))
  }

  const BASE := "/backups"

  function ResolveBackupPath(segments: seq<string>): Result<string, ()> {
    var joined := FilepathJoin([BASE] + segments);
    if joined != BASE && !(BASE + "/" <= joined) then Err(()) else Ok(joined)
  }

  /** A stack that Clean can hold for a rooted path: no empty, "." or ".." segments at all. */
  predicate PlainStack(stack: seq<string>) {
    forall i | 0 <= i < |stack| :: PlainName(stack[i])
  }

  lemma {:induction false} RootedStackPlain(stack: seq<string>, segments: seq<string>)
    requires PlainStack(stack) && forall i | 0 <= i < |segments| :: '/' !in segments[i]
    ensures PlainStack(PushAll(true, stack, segments))
    decreases |segments|
  {
    if segments != [] {
      RootedStackPlain(Push(true, stack, segments[0]), segments[1..]);
    }
  }

  lemma NonEmptyBase(segments: seq<string>)
    ensures NonEmptyOf([BASE] + segments) == [BASE] + NonEmptyOf(segments)
  {
    assert ([BASE] + segments)[1..] == segments;
  }

  /** The backup directory comes first, so the joined path is rooted. */
  lemma JoinedRooted(segments: seq<string>) returns (stack: seq<string>)
    ensures PlainStack(stack) && FilepathJoin([BASE] + segments) == "/" + Join(stack, '/')
  {
    NonEmptyBase(segments);
    var path := Join([BASE] + NonEmptyOf(segments), '/');
    assert path != "" && path[0] == '/';
    hide Join, NonEmptyOf, PlainStack;
    stack := PushAll(true, [], Split(path, '/'));
    PlainPath(path);
  }

  lemma PlainPath(path: string)
    ensures PlainStack(PushAll(true, [], Split(path, '/')))
  {
    PartsHaveNoSeparator(path, '/');
    forall i | 0 <= i < |Split(path, '/')| ensures '/' !in Split(path, '/')[i] {
      assert Split(path, '/')[i] in Split(path, '/');
    }
    hide PushAll, Split;
    RootedStackPlain([], Split(path, '/'));
  }

  lemma UnderBase(rest: string)
    requires "/" + rest == BASE || BASE + "/" <= "/" + rest
    ensures rest == "backups" || "backups/" <= rest
  {
    assert ("/" + rest)[1..] == rest && BASE[1..] == "backups" && (BASE + "/")[1..] == "backups/";
  }

  /** Containment, for every input: a resolved path is the backup directory itself or a chain of plain
      names below it, so no ".." survives. */
  lemma ResolvedStaysInside(segments: seq<string>) returns (below: seq<string>)
    requires ResolveBackupPath(segments).Ok?
    ensures PlainStack(below)
    ensures ResolveBackupPath(segments).value == Join(["", "backups"] + below, '/')
  {
    hide FilepathJoin, Join, PlainStack;
    var stack := JoinedRooted(segments);
    UnderBase(Join(stack, '/'));
    below := FirstSegment(stack);
  }

  /** "..": the segment before it goes. */
  lemma ParentCancels(stack: seq<string>, name: string, rest: seq<string>)
    requires PlainName(name)
    ensures PushAll(true, stack, [name, ".."] + rest) == PushAll(true, stack, rest)
  {
    var all := [name, ".."] + rest;
    assert all[1..] == [".."] + rest && all[1..][1..] == rest;
    assert (stack + [name])[..|stack|] == stack;
  }

  lemma ParentPath(name: string)
    requires PlainName(name)
    ensures FilepathJoin([BASE, "..", name]) == "/" + name
  {
    var segments := ["", "backups", "..", name];
    assert segments[1..] == ["backups", ".."] + [name] && [name][1..] == [];
    assert PushAll(true, [], segments) == [name] by {
      ParentCancels([], "backups", [name]);
      assert PushAll(true, [], [name]) == PushAll(true, [name], []);
      assert [] + [name] == [name];
    }
    SplitJoin(segments, '/');
    assert NonEmptyOf([BASE, "..", name]) == [BASE, "..", name] by { NonEmptyAll([BASE, "..", name]); }
    hide PushAll, NonEmptyOf, Split;
    JoinFour(name);
  }

  lemma JoinFour(name: string)
    ensures Join(["", "backups", "..", name], '/') == Join([BASE, "..", name], '/') == "/backups/../" + name
  {
    assert ["..", name][1..] == [name] && Join([name], '/') == name;
    assert ["backups", "..", name][1..] == ["..", name] && [BASE, "..", name][1..] == ["..", name];
    assert Join(["..", name], '/') == ".." + ['/'] + name;
    assert Join(["backups", "..", name], '/') == "backups" + ['/'] + (".." + ['/'] + name);
    assert ["", "backups", "..", name][1..] == ["backups", "..", name];
  }

  /** A path that leaves the backup directory is refused: one level up only the directory itself resolves. */
  lemma ParentRefused(name: string)
    requires PlainName(name)
    ensures ResolveBackupPath(["..", name]).Ok? <==> name == "backups"
  {
    ParentPath(name);
    assert [BASE] + ["..", name] == [BASE, "..", name];
    hide FilepathJoin;
    if ResolveBackupPath(["..", name]).Ok? {
      UnderBase(name);
      NoSlashPrefix(name);
    }
  }

  lemma NoSlashPrefix(name: string)
    requires '/' !in name
    ensures !("backups/" <= name)
  {
    assert "backups/"[7] == '/';
    assert |name| > 7 ==> name[7] in name;
  }

  /** A cleaned rooted path that passes the prefix test has "backups" as its first segment. */
  lemma FirstSegment(stack: seq<string>) returns (below: seq<string>)
    requires PlainStack(stack)
    requires Join(stack, '/') == "backups" || "backups/" <= Join(stack, '/')
    ensures PlainStack(below) && stack == ["backups"] + below
    ensures "/" + Join(stack, '/') == Join(["", "backups"] + below, '/')
  {
    BackupsOnTop(stack);
    JoinCons("", stack);
    hide Join, PlainName;
    below := stack[1..];
    assert stack == ["backups"] + below;
    assert ["", "backups"] + below == [""] + stack;
  }

  lemma BackupsOnTop(stack: seq<string>)
    requires PlainStack(stack) && (Join(stack, '/') == "backups" || "backups/" <= Join(stack, '/'))
    ensures stack != [] && stack[0] == "backups"
  {
    BackupsFirst(Join(stack, '/'));
    assert stack != [];
    SplitJoinPlain(stack);
  }

  lemma BackupsFirst(s: string)
    requires s == "backups" || "backups/" <= s
    ensures Split(s, '/')[0] == "backups"
  {
    hide Split;
    SplitWhole("backups", '/');
    if s != "backups" {
      var rest := s[|"backups/"|..];
      assert s == "backups/" + rest;
      assert "backups" + ['/'] + rest == "backups/" + rest;
      SplitAppend("backups", '/', rest);
    }
  }

  lemma JoinCons(first: string, rest: seq<string>)
    requires rest != []
    ensures Join([first] + rest, '/') == first + "/" + Join(rest, '/')
  {
    assert ([first] + rest)[1..] == rest;
  }

  /** Plain segments are all kept. */
  lemma {:induction false} PushPlain(rooted: bool, stack: seq<string>, segments: seq<string>)
    requires PlainStack(segments)
    ensures PushAll(rooted, stack, segments) == stack + segments
    decreases |segments|
  {
    if segments != [] {
      PushPlain(rooted, stack + [segments[0]], segments[1..]);
      assert stack + [segments[0]] + segments[1..] == stack + segments;
    }
  }

  lemma {:induction false} SplitJoinPlain(segments: seq<string>)
    requires segments != [] && PlainStack(segments)
    ensures Split(Join(segments, '/'), '/') == segments
  {
    SplitJoin(segments, '/');
  }

  lemma PlainJoin(a: string, b: string)
    requires PlainName(a) && PlainName(b)
    ensures FilepathJoin([a, b]) == a + "/" + b
  {
    NonEmptyAll([a, b]);
    JoinCons(a, [b]);
    assert [a] + [b] == [a, b];
    SplitJoinPlain([a, b]);
    PushPlain(false, [], [a, b]);
    assert [] + [a, b] == [a, b];
    hide Split, PushAll, NonEmptyOf, Join;
    assert (a + "/" + b)[0] == a[0];
  }

  /** A rooted path of plain segments is already clean. */
  lemma PlainPathClean(segments: seq<string>)
    requires segments != [] && PlainStack(segments)
    ensures Clean("/" + Join(segments, '/')) == "/" + Join(segments, '/')
  {
    var body := Join(segments, '/');
    SplitAppend("", '/', body);
    SplitWhole("", '/');
    SplitJoinPlain(segments);
    assert "" + "/" + body == "/" + body;
    PushPlain(true, [], segments);
    assert ([""] + segments)[1..] == segments;
    assert PushAll(true, [], [""] + segments) == PushAll(true, [], segments);
    assert [] + segments == segments;
    hide Split, Join, PushAll;
  }

  lemma PlainUnderBase(a: string, b: string)
    requires PlainName(a) && PlainName(b)
    ensures Clean(LocalPath(a, b)) == LocalPath(a, b) && BASE + "/" <= LocalPath(a, b)
  {
    var segs := ["backups", a, b];
    assert segs == ["backups"] + [a, b] && [a, b] == [a] + [b];
    JoinCons("backups", [a, b]);
    JoinCons(a, [b]);
    hide Clean;
    assert "/" + Join(segs, '/') == LocalPath(a, b);
    PlainPathClean(segs);
  }

  /** The path of a local backup. */
  function LocalPath(server: string, filename: string): string {
    BASE + "/" + (server + "/" + filename)
  }

  /** For plain names, the destination of Store and the path Open and Delete find through the
      recomputed reference are the same file. */
  lemma StoreAndOpenAgree(server: string, filename: string)
    requires PlainName(server) && PlainName(filename)
    ensures ResolveBackupPath([server, filename]) == Ok(LocalPath(server, filename))
    ensures ResolveBackupPath([FilepathJoin([server, filename])]) == Ok(LocalPath(server, filename))
  {
    var ref := server + "/" + filename;
    PlainJoin(server, filename);
    PlainUnderBase(server, filename);
    NonEmptyAll([BASE, ref]);
    NonEmptyAll([BASE, server, filename]);
    assert [BASE] + [ref] == [BASE, ref] && [BASE] + [server, filename] == [BASE, server, filename];
    JoinCons(BASE, [ref]);
    JoinCons(BASE, [server, filename]);
    JoinCons(server, [filename]);
    assert [server] + [filename] == [server, filename];
    hide Clean, NonEmptyOf, Join;
  }

  lemma {:induction false} NonEmptyAll(elems: seq<string>)
    requires forall i | 0 <= i < |elems| :: elems[i] != ""
    ensures NonEmptyOf(elems) == elems
  {
    if elems != [] {
      NonEmptyAll(elems[1..]);
      assert elems == [elems[0]] + elems[1..];
    }
  }

  /** Distinct (server, database, second) never share a file. */
  lemma LocalPathInjective(s: string, d: string, a: nat, t: string, e: string, b: nat)
    requires PlainName(s) && PlainName(t) && IsIdent(d) && IsIdent(e) && FourDigitYear(a) && FourDigitYear(b)
    requires LocalPath(s, Filename(d, a)) == LocalPath(t, Filename(e, b))
    ensures s == t && d == e && a == b
  {
    var f, g := Filename(d, a), Filename(e, b);
    FilenamePlain(d, a);
    FilenamePlain(e, b);
    var p, q := s + "/" + f, t + "/" + g;
    assert LocalPath(s, f)[9..] == p && LocalPath(t, g)[9..] == q;
    SplitAppend(s, '/', f);
    SplitAppend(t, '/', g);
    SplitWhole(s, '/');
    SplitWhole(t, '/');
    SplitWhole(f, '/');
    SplitWhole(g, '/');
    assert ([s] + [f])[0] == ([t] + [g])[0] && ([s] + [f])[1] == ([t] + [g])[1];
    FilenameInjective(d, a, e, b);
  }
}
