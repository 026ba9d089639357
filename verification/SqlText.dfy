/** The SQL conditions the backend writes as text, and what PostgreSQL reads in them: quoted identifiers,
    numbered parameters, and conjunctions under three-valued logic. */
module SqlText {
  import opened LikePattern
  import opened Wrappers

  // ---------- identifiers and numbers ----------

  function Escape(c: char): string {
    if c == '\0' then "" else if c == '"' then "\"\"" else [c]
  }

  /** The body of `pgx.Identifier.Sanitize`: NUL dropped, quotes doubled. */
  function Escaped(name: string): string {
    if name == "" then ""
    else Escape(name[0]) + Escaped(name[1..])
  }

  function Quote(name: string): string {
    "\"" + Escaped(name) + "\""
  }

  function WithoutNul(name: string): string {
    if name == "" then ""
    else (if name[0] == '\0' then "" else [name[0]]) + WithoutNul(name[1..])
  }

  /** Reads the rest of a quoted identifier up to its closing quote. */
  function ReadEscaped(s: string): (r: Option<(string, string)>)
    ensures r.Some? ==> |r.value.1| < |s|
  {
    if s == "" then None
    else if s[0] != '"' then
      (match ReadEscaped(s[1..])
       case None => None
       case Some((name, rest)) => Some(([s[0]] + name, rest)))
    else if |s| > 1 && s[1] == '"' then
      (match ReadEscaped(s[2..])
       case None => None
       case Some((name, rest)) => Some(("\"" + name, rest)))
    else Some(("", s[1..]))
  }

  function ReadQuoted(s: string): (r: Option<(string, string)>)
    ensures r.Some? ==> |r.value.1| < |s|
  {
    if s != "" && s[0] == '"' then ReadEscaped(s[1..]) else None
  }

  /** One escaped character in front of an identifier already understood. */
  lemma ReadsOne(c: char, tail: string, name: string, rest: string)
    requires ReadEscaped(tail) == Some((name, rest))
    ensures ReadEscaped(Escape(c) + tail) == Some(((if c == '\0' then "" else [c]) + name, rest))
  {
    if c == '\0' {
      assert Escape(c) + tail == tail;
      assert "" + name == name;
    } else if c == '"' {
      assert (Escape(c) + tail)[2..] == tail;
    } else {
      assert (Escape(c) + tail)[1..] == tail;
    }
  }

  lemma Regroup(a: string, b: string, c: string, d: string)
    ensures a + b + c + d == a + (b + c + d)
  {
  }

  lemma {:induction false} ReadsEscaped(name: string, rest: string)
    requires rest != "" ==> rest[0] != '"'
    ensures ReadEscaped(Escaped(name) + "\"" + rest) == Some((WithoutNul(name), rest))
  {
    if name == "" {
      assert Escaped(name) + "\"" + rest == "\"" + rest;
      assert ("\"" + rest)[1..] == rest;
    } else {
      hide ReadEscaped, Escape;
      ReadsEscaped(name[1..], rest);
      var tail := Escaped(name[1..]) + "\"" + rest;
      ReadsOne(name[0], tail, WithoutNul(name[1..]), rest);
      Regroup(Escape(name[0]), Escaped(name[1..]), "\"", rest);
    }
  }

  /** A quoted name is read back whole, whatever it contains, and nothing after it is swallowed. */
  lemma ReadsQuoted(name: string, rest: string)
    requires rest != "" ==> rest[0] != '"'
    ensures ReadQuoted(Quote(name) + rest) == Some((WithoutNul(name), rest))
  {
    ReadsEscaped(name, rest);
    assert (Quote(name) + rest)[1..] == Escaped(name) + "\"" + rest;
  }

  lemma {:induction false} NoNul(name: string)
    requires '\0' !in name
    ensures WithoutNul(name) == name
  {
    if name != "" {
      NoNul(name[1..]);
      assert name == [name[0]] + name[1..];
    }
  }

  function Decimal(n: nat): (s: string)
    ensures s != ""
  {
    (if n < 10 then "" else Decimal(n / 10)) + [LastDigit(n)]
  }

  predicate IsDigit(c: char) {
    '0' <= c <= '9'
  }

  function ReadDigits(s: string, soFar: nat): (r: (nat, string))
    ensures |r.1| <= |s|
  {
    if s == "" || !IsDigit(s[0]) then (soFar, s)
    else ReadDigits(s[1..], soFar * 10 + (s[0] as int - '0' as int))
  }

  function LastDigit(n: nat): char {
    ('0' as int + n % 10) as char
  }

  lemma ReadsLast(n: nat, soFar: nat, rest: string)
    ensures ReadDigits([LastDigit(n)] + rest, soFar) == ReadDigits(rest, soFar * 10 + n % 10)
  {
    assert ([LastDigit(n)] + rest)[1..] == rest;
  }

  lemma {:induction false} ReadsDecimal(n: nat, rest: string)
    ensures ReadDigits(Decimal(n) + rest, 0) == ReadDigits(rest, n)
  {
    hide ReadDigits, LastDigit;
    ReadsLast(n, n / 10, rest);
    if n < 10 {
      assert Decimal(n) + rest == [LastDigit(n)] + rest;
    } else {
      ReadsDecimal(n / 10, [LastDigit(n)] + rest);
      assert Decimal(n) + rest == Decimal(n / 10) + ([LastDigit(n)] + rest);
    }
  }

  // ---------- conditions ----------

  datatype Comparison = Eq | Neq | Gt | Gte | Lt | Lte {
    function Sql(): string {
      match this
      case Eq => " = $"
      case Neq => " <> $"
      case Gt => " > $"
      case Gte => " >= $"
      case Lt => " < $"
      case Lte => " <= $"
    }
  }

  datatype Test = IsNull | IsNotNull | Compare(op: Comparison, param: nat) | Matches(param: nat)

  datatype Clause = Clause(column: string, test: Test)

  function RenderTest(t: Test): (s: string)
    ensures s != "" && s[0] != '"'
  {
    match t
    case IsNull => " IS NULL"
    case IsNotNull => " IS NOT NULL"
    case Compare(op, n) => op.Sql() + Decimal(n)
    case Matches(n) => "::text ILIKE $" + Decimal(n)
  }

  function RenderClause(c: Clause): string {
    Quote(c.column) + RenderTest(c.test)
  }

  /** The clauses joined by " AND ". */
  function RenderAll(cs: seq<Clause>): string {
    if cs == [] then ""
    else if |cs| == 1 then RenderClause(cs[0])
    else RenderAll(cs[..|cs| - 1]) + " AND " + RenderClause(cs[|cs| - 1])
  }

  function JoinAnd(parts: seq<string>): string {
    if parts == [] then ""
    else if |parts| == 1 then parts[0]
    else JoinAnd(parts[..|parts| - 1]) + " AND " + parts[|parts| - 1]
  }

  predicate AreRendered(parts: seq<string>, cs: seq<Clause>) {
    |parts| == |cs| && forall i | 0 <= i < |cs| :: parts[i] == RenderClause(cs[i])
  }

  lemma {:induction false} JoinRendered(parts: seq<string>, cs: seq<Clause>)
    requires AreRendered(parts, cs)
    ensures JoinAnd(parts) == RenderAll(cs)
  {
    if |cs| > 1 { JoinRendered(parts[..|cs| - 1], cs[..|cs| - 1]); }
  }

  // ---------- reading them back ----------

  predicate Starts(s: string, prefix: string) {
    |prefix| <= |s| && s[..|prefix|] == prefix
  }

  function ReadOp(s: string): (r: Option<(Comparison, string)>)
    ensures r.Some? ==> |r.value.1| < |s|
  {
    if Starts(s, Eq.Sql()) then Some((Eq, s[4..]))
    else if Starts(s, Neq.Sql()) then Some((Neq, s[5..]))
    else if Starts(s, Gt.Sql()) then Some((Gt, s[4..]))
    else if Starts(s, Gte.Sql()) then Some((Gte, s[5..]))
    else if Starts(s, Lt.Sql()) then Some((Lt, s[4..]))
    else if Starts(s, Lte.Sql()) then Some((Lte, s[5..]))
    else None
  }

  function ReadTest(s: string): (r: Option<(Test, string)>)
    ensures r.Some? ==> |r.value.1| < |s|
  {
    if Starts(s, " IS NULL") then Some((IsNull, s[8..]))
    else if Starts(s, " IS NOT NULL") then Some((IsNotNull, s[12..]))
    else if Starts(s, "::text ILIKE $") then
      var (n, rest) := ReadDigits(s[14..], 0);
      Some((Matches(n), rest))
    else
      match ReadOp(s)
      case None => None
      case Some((op, tail)) =>
        var (n, rest) := ReadDigits(tail, 0);
        Some((Compare(op, n), rest))
  }

  function ReadClause(s: string): (r: Option<(Clause, string)>)
    ensures r.Some? ==> |r.value.1| < |s|
  {
    match ReadQuoted(s)
    case None => None
    case Some((column, tail)) =>
      match ReadTest(tail)
      case None => None
      case Some((test, rest)) => Some((Clause(column, test), rest))
  }

  /** The whole of `s` as a conjunction of clauses, or None. */
  function Read(s: string): Option<seq<Clause>>
    decreases |s|
  {
    match ReadClause(s)
    case None => None
    case Some((c, rest)) =>
      if rest == "" then Some([c])
      else if !Starts(rest, " AND ") then None
      else
        match Read(rest[5..])
        case None => None
        case Some(cs) => Some([c] + cs)
  }

  predicate EndsClause(rest: string) {
    rest == "" || Starts(rest, " AND ")
  }

  lemma ReadsOp(op: Comparison, rest: string)
    ensures ReadOp(op.Sql() + rest) == Some((op, rest))
  {
    var s := op.Sql() + rest;
    assert s[|op.Sql()|..] == rest;
    match op {
      case Eq => assert Starts(s, Eq.Sql());
      case Neq => assert s[2] == '>' && s[..5] == Neq.Sql();
      case Gt => assert s[2] == ' ' && s[..4] == Gt.Sql();
      case Gte => assert s[2] == '=' && s[..5] == Gte.Sql();
      case Lt => assert s[2] == ' ' && s[..4] == Lt.Sql();
      case Lte => assert s[2] == '=' && s[..5] == Lte.Sql();
    }
  }

  lemma ReadsNullTest(rest: string)
    ensures ReadTest(" IS NULL" + rest) == Some((IsNull, rest))
    ensures ReadTest(" IS NOT NULL" + rest) == Some((IsNotNull, rest))
  {
    hide ReadOp, ReadDigits;
    var s, t := " IS NULL" + rest, " IS NOT NULL" + rest;
    assert s[..8] == " IS NULL" && s[8..] == rest;
    assert t[4] == 'N' && t[5] == 'O' && t[..12] == " IS NOT NULL" && t[12..] == rest;
  }

  lemma ReadsMatches(tail: string)
    ensures var (n, rest) := ReadDigits(tail, 0); ReadTest("::text ILIKE $" + tail) == Some((Matches(n), rest))
  {
    hide ReadOp, ReadDigits;
    var s := "::text ILIKE $" + tail;
    assert s[0] == ':' && s[..14] == "::text ILIKE $" && s[14..] == tail;
  }

  lemma OpShape(op: Comparison, tail: string)
    ensures var s := op.Sql() + tail; |s| > 1 && s[0] == ' ' && s[1] != 'I'
  {
  }

  lemma NotNullTest(s: string)
    requires |s| > 1 && s[0] == ' ' && s[1] != 'I'
    ensures !Starts(s, " IS NULL") && !Starts(s, " IS NOT NULL") && !Starts(s, "::text ILIKE $")
  {
    assert |s| >= 8 ==> s[..8][1] == s[1];
    assert |s| >= 12 ==> s[..12][1] == s[1];
    assert |s| >= 14 ==> s[..14][0] == s[0];
  }

  lemma ReadsCompare(op: Comparison, tail: string)
    ensures var (n, rest) := ReadDigits(tail, 0); ReadTest(op.Sql() + tail) == Some((Compare(op, n), rest))
  {
    hide Starts, ReadOp, ReadDigits, Comparison.Sql;
    ReadsOp(op, tail);
    OpShape(op, tail);
    NotNullTest(op.Sql() + tail);
  }

  lemma RenderedParts(t: Test, rest: string)
    ensures t.IsNull? ==> RenderTest(t) + rest == " IS NULL" + rest
    ensures t.IsNotNull? ==> RenderTest(t) + rest == " IS NOT NULL" + rest
    ensures t.Compare? ==> RenderTest(t) + rest == t.op.Sql() + (Decimal(t.param) + rest)
    ensures t.Matches? ==> RenderTest(t) + rest == "::text ILIKE $" + (Decimal(t.param) + rest)
  {
    hide Comparison.Sql, Decimal;
    if t.Compare? {
      assert (t.op.Sql() + Decimal(t.param)) + rest == t.op.Sql() + (Decimal(t.param) + rest);
    } else if t.Matches? {
      assert ("::text ILIKE $" + Decimal(t.param)) + rest == "::text ILIKE $" + (Decimal(t.param) + rest);
    }
  }

  lemma ReadsTest(t: Test, rest: string)
    requires EndsClause(rest)
    ensures ReadTest(RenderTest(t) + rest) == Some((t, rest))
  {
    hide ReadTest, RenderTest, ReadDigits, EndsClause, Decimal, Comparison.Sql;
    RenderedParts(t, rest);
    match t {
      case IsNull => ReadsNullTest(rest);
      case IsNotNull => ReadsNullTest(rest);
      case Compare(op, n) =>
        ReadsNumber(n, rest);
        ReadsCompare(op, Decimal(n) + rest);
      case Matches(n) =>
        ReadsNumber(n, rest);
        ReadsMatches(Decimal(n) + rest);
    }
  }

  lemma ReadsNumber(n: nat, rest: string)
    requires EndsClause(rest)
    ensures ReadDigits(Decimal(n) + rest, 0) == (n, rest)
  {
    ReadsDecimal(n, rest);
  }

  lemma ReadsClause(c: Clause, rest: string)
    requires EndsClause(rest) && '\0' !in c.column
    ensures ReadClause(RenderClause(c) + rest) == Some((c, rest))
  {
    hide ReadTest, ReadQuoted, RenderTest, Quote, WithoutNul, EndsClause;
    NoNul(c.column);
    ReadsTest(c.test, rest);
    ReadsQuoted(c.column, RenderTest(c.test) + rest);
    assert RenderClause(c) + rest == Quote(c.column) + (RenderTest(c.test) + rest);
  }

  lemma {:induction false} RenderFirst(cs: seq<Clause>)
    requires |cs| > 1
    ensures RenderAll(cs) == RenderClause(cs[0]) + (" AND " + RenderAll(cs[1..]))
  {
    var n := |cs| - 1;
    hide RenderClause;
    if n == 1 {
      assert cs[1..][0] == cs[1];
    } else {
      RenderFirst(cs[..n]);
      assert cs[..n][1..] == cs[1..][..n - 1];
      assert cs[1..][n - 1] == cs[n];
      hide RenderAll;
      assert RenderClause(cs[0]) + (" AND " + RenderAll(cs[..n][1..])) + " AND " + RenderClause(cs[n])
          == RenderClause(cs[0]) + (" AND " + (RenderAll(cs[1..][..n - 1]) + " AND " + RenderClause(cs[n])));
    }
  }

  predicate NamesOk(cs: seq<Clause>) {
    forall c | c in cs :: '\0' !in c.column
  }

  lemma ReadsMore(s: string, c: Clause, more: string, cs: seq<Clause>)
    requires ReadClause(s) == Some((c, " AND " + more)) && Read(more) == Some(cs)
    ensures Read(s) == Some([c] + cs)
  {
    hide ReadClause;
    var rest := " AND " + more;
    assert rest[..5] == " AND " && rest[5..] == more;
  }

  /** Reading undoes writing: no column name and no number of clauses can make the text mean anything but
      the clauses it was written from. */
  lemma {:induction false} ReadRendered(cs: seq<Clause>)
    requires cs != [] && NamesOk(cs)
    ensures Read(RenderAll(cs)) == Some(cs)
  {
    hide Read, RenderClause, ReadClause;
    if |cs| == 1 {
      ReadsAlone(cs[0]);
      assert cs == [cs[0]];
    } else {
      hide RenderAll;
      ReadRendered(cs[1..]);
      RenderFirst(cs);
      ReadsFirst(cs[0], RenderAll(cs[1..]), cs[1..]);
      assert [cs[0]] + cs[1..] == cs;
    }
  }

  lemma ReadsAlone(c: Clause)
    requires '\0' !in c.column
    ensures Read(RenderClause(c)) == Some([c])
  {
    hide RenderClause, ReadClause;
    ReadsClause(c, "");
    assert RenderClause(c) + "" == RenderClause(c);
  }

  lemma ReadsFirst(c: Clause, more: string, cs: seq<Clause>)
    requires '\0' !in c.column && Read(more) == Some(cs)
    ensures Read(RenderClause(c) + (" AND " + more)) == Some([c] + cs)
  {
    hide RenderClause, ReadClause, Read;
    assert (" AND " + more)[..5] == " AND ";
    ReadsClause(c, " AND " + more);
    ReadsMore(RenderClause(c) + (" AND " + more), c, more, cs);
  }

  // ---------- evaluation ----------

  datatype Truth = True | False | Unknown {
    function And(other: Truth): Truth {
      if this == False || other == False then False
      else if this == Unknown || other == Unknown then Unknown
      else True
    }
  }

  function Known(b: bool): Truth {
    if b then True else False
  }

  datatype Ordering = Less | Equal | Greater

  /** A column's content in one row: NULL, or a value known by its text and by how it compares with a
      parameter converted to the column's type. */
  datatype Cell = Null | Value(text: string, compare: string -> Ordering)

  type Row = string -> Cell

  /** A bound parameter; None is NULL. */
  type Arg = Option<string>

  predicate Satisfies(op: Comparison, o: Ordering) {
    match op
    case Eq => o == Equal
    case Neq => o != Equal
    case Gt => o == Greater
    case Gte => o != Less
    case Lt => o == Less
    case Lte => o != Greater
  }

  predicate Bound(t: Test, args: seq<Arg>) {
    t.Compare? || t.Matches? ==> 1 <= t.param <= |args|
  }

  function EvalCompare(cell: Cell, op: Comparison, arg: Arg): Truth {
    if cell.Null? || arg.None? then Unknown else Known(Satisfies(op, cell.compare(arg.value)))
  }

  function Eval(c: Clause, args: seq<Arg>, row: Row): Truth
    requires Bound(c.test, args)
  {
    var cell := row(c.column);
    match c.test
    case IsNull => Known(cell.Null?)
    case IsNotNull => Known(cell.Value?)
    case Compare(op, n) => EvalCompare(cell, op, args[n - 1])
    case Matches(n) =>
      if cell.Null? || args[n - 1].None? then Unknown else Known(ILike(cell.text, args[n - 1].value))
  }

  predicate AllBound(cs: seq<Clause>, args: seq<Arg>) {
    forall c | c in cs :: Bound(c.test, args)
  }

  function EvalAll(cs: seq<Clause>, args: seq<Arg>, row: Row): Truth
    requires AllBound(cs, args)
  {
    if cs == [] then True else EvalAll(cs[..|cs| - 1], args, row).And(Eval(cs[|cs| - 1], args, row))
  }

  /** A row is selected only when the condition is true, so unknown counts as no; a text that is not such a
      condition, or that names a parameter not supplied, selects nothing. */
  predicate Selects(condition: string, args: seq<Arg>, row: Row) {
    match Read(condition)
    case None => false
    case Some(cs) => AllBound(cs, args) && EvalAll(cs, args, row) == True
  }

  lemma {:induction false} AllTrue(cs: seq<Clause>, args: seq<Arg>, row: Row)
    requires AllBound(cs, args)
    ensures EvalAll(cs, args, row) == True <==> forall c | c in cs :: Eval(c, args, row) == True
  {
    if cs != [] {
      var init, last := cs[..|cs| - 1], cs[|cs| - 1];
      AllTrue(init, args, row);
      assert cs == init + [last];
      hide Eval;
    }
  }
}
