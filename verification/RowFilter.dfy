/** Row filters of the table grid: compiled to a WHERE clause whose values are all bound parameters. */
module RowFilter {
  import opened Identifiers
  import opened LikePattern
  import opened SqlText
  import opened TablePages
  import opened Wrappers

  datatype RowFilter = RowFilter(column: string, op: string, value: string)

  datatype FilterError = BadColumn(column: string) | BadOperator(op: string) | BadSortColumn(name: string) | QueryFailed

  function AllowedFilterOp(op: string): Option<string> {
    match op
    case "eq" => Some("=")
    case "neq" => Some("<>")
    case "gt" => Some(">")
    case "gte" => Some(">=")
    case "lt" => Some("<")
    case "lte" => Some("<=")
    case "contains" => Some("ILIKE")
    case "is_null" => Some("IS NULL")
    case "is_not_null" => Some("IS NOT NULL")
    case _ => None
  }

  predicate Valid(f: RowFilter) {
    IsIdent(f.column) && AllowedFilterOp(f.op).Some?
  }

  predicate AllValid(fs: seq<RowFilter>) {
    forall f | f in fs :: Valid(f)
  }

  // ---------- what the filters ask for ----------

  function ComparisonOf(op: string): Option<Comparison> {
    match op
    case "eq" => Some(Eq)
    case "neq" => Some(Neq)
    case "gt" => Some(Gt)
    case "gte" => Some(Gte)
    case "lt" => Some(Lt)
    case "lte" => Some(Lte)
    case _ => None
  }

  /** The meaning of one filter on one row. A NULL satisfies `is_null` and nothing else. */
  predicate Holds(f: RowFilter, row: Row) {
    var cell := row(f.column);
    if f.op == "is_null" then cell.Null?
    else if f.op == "is_not_null" then cell.Value?
    else if f.op == "contains" then cell.Value? && ILike(cell.text, ContainsPattern(f.value))
    else
      && cell.Value?
      && ComparisonOf(f.op).Some?
      && Satisfies(ComparisonOf(f.op).value, cell.compare(f.value))
  }

  /** What each operator asks of a value, in words of its order against the parameter. */
  lemma HoldsMeans(f: RowFilter, row: Row)
    ensures var cell := row(f.column);
            && (f.op == "eq" ==> (Holds(f, row) <==> cell.Value? && cell.compare(f.value) == Equal))
            && (f.op == "neq" ==> (Holds(f, row) <==> cell.Value? && cell.compare(f.value) != Equal))
            && (f.op == "gt" ==> (Holds(f, row) <==> cell.Value? && cell.compare(f.value) == Greater))
            && (f.op == "gte" ==> (Holds(f, row) <==> cell.Value? && cell.compare(f.value) in {Greater, Equal}))
            && (f.op == "lt" ==> (Holds(f, row) <==> cell.Value? && cell.compare(f.value) == Less))
            && (f.op == "lte" ==> (Holds(f, row) <==> cell.Value? && cell.compare(f.value) in {Less, Equal}))
            && (f.op == "is_null" ==> (Holds(f, row) <==> cell == Null))
            && (f.op == "is_not_null" ==> (Holds(f, row) <==> cell != Null))
    ensures AllowedFilterOp(f.op).Some? <==>
              f.op in {"eq", "neq", "gt", "gte", "lt", "lte", "contains", "is_null", "is_not_null"}
  {
  }

  // ---------- what is compiled ----------

  predicate TakesValue(f: RowFilter) {
    f.op != "is_null" && f.op != "is_not_null"
  }

  function ArgOf(f: RowFilter): Arg {
    Some(if f.op == "contains" then ContainsPattern(f.value) else f.value)
  }

  function Args(fs: seq<RowFilter>): seq<Arg> {
    if fs == [] then []
    else Args(fs[..|fs| - 1]) + if TakesValue(fs[|fs| - 1]) then [ArgOf(fs[|fs| - 1])] else []
  }

  /** The clause of a filter whose parameter, if it has one, is number `n`. */
  function ClauseOf(f: RowFilter, n: nat): Clause {
    Clause(f.column,
           if f.op == "is_null" then IsNull
           else if f.op == "is_not_null" then IsNotNull
           else if ComparisonOf(f.op).Some? then Compare(ComparisonOf(f.op).value, n)
           else Matches(n))
  }

  function Clauses(fs: seq<RowFilter>): (cs: seq<Clause>)
    ensures |cs| == |fs|
  {
    if fs == [] then [] else Clauses(fs[..|fs| - 1]) + [ClauseOf(fs[|fs| - 1], |Args(fs)|)]
  }

  function WhereClause(fs: seq<RowFilter>): string {
    if fs == [] then "" else " WHERE " + RenderAll(Clauses(fs))
  }

  function FirstError(fs: seq<RowFilter>): FilterError
    requires !AllValid(fs)
  {
    if !AllValid(fs[..|fs| - 1]) then FirstError(fs[..|fs| - 1])
    else if !IsIdent(fs[|fs| - 1].column) then BadColumn(fs[|fs| - 1].column)
    else BadOperator(fs[|fs| - 1].op)
  }

  /** A clause as the builder writes it. */
  function ClauseText(f: RowFilter, opSql: string, n: nat): string {
    if f.op == "is_null" || f.op == "is_not_null" then Quote(f.column) + " " + opSql
    else if f.op == "contains" then Quote(f.column) + "::text " + opSql + " $" + Decimal(n)
    else Quote(f.column) + " " + opSql + " $" + Decimal(n)
  }

  lemma ClauseTextRenders(f: RowFilter, n: nat)
    requires AllowedFilterOp(f.op).Some?
    ensures ClauseText(f, AllowedFilterOp(f.op).value, n) == RenderClause(ClauseOf(f, n))
  {
    hide Quote, Decimal;
    var q, d, t := Quote(f.column), Decimal(n), ClauseText(f, AllowedFilterOp(f.op).value, n);
    match f.op {
      case "eq" => assert t == q + (" = $" + d);
      case "neq" => assert t == q + (" <> $" + d);
      case "gt" => assert t == q + (" > $" + d);
      case "gte" => assert t == q + (" >= $" + d);
      case "lt" => assert t == q + (" < $" + d);
      case "lte" => assert t == q + (" <= $" + d);
      case "contains" => assert t == q + ("::text ILIKE $" + d);
      case "is_null" => assert t == q + " IS NULL";
      case "is_not_null" => assert t == q + " IS NOT NULL";
    }
  }

  lemma ValidPrefix(fs: seq<RowFilter>, k: nat)
    requires k <= |fs|
    ensures AllValid(fs) ==> AllValid(fs[..k])
  {
  }

  lemma {:induction false} FirstErrorAt(fs: seq<RowFilter>, k: nat)
    requires k < |fs| && AllValid(fs[..k]) && !Valid(fs[k])
    ensures !AllValid(fs)
    ensures FirstError(fs) == if !IsIdent(fs[k].column) then BadColumn(fs[k].column) else BadOperator(fs[k].op)
  {
    hide Valid, IsIdent;
    if k < |fs| - 1 {
      var init := fs[..|fs| - 1];
      assert init[..k] == fs[..k];
      FirstErrorAt(init, k);
      ValidPrefix(fs, |fs| - 1);
    } else {
      assert fs[k] in fs;
    }
  }

  /** The whole of fs compiled, or the first filter that cannot be. */
  method BuildRowFilterSQL(filters: seq<RowFilter>) returns (r: Result<(string, seq<Arg>), FilterError>)
    ensures r == if AllValid(filters) then Ok((WhereClause(filters), Args(filters))) else Err(FirstError(filters))
  {
    if |filters| == 0 {
      return Ok(("", []));
    }
    var clauses: seq<string> := [];
    var args: seq<Arg> := [];
    hide Valid, IsIdent, AllValid, FirstError, WhereClause, Args, Clauses, AreRendered, ClauseOf, ArgOf, ClauseText,
      TakesValue, RenderClause, AllowedFilterOp;
    NoFilters(filters);
    for k := 0 to |filters|
      invariant AllValid(filters[..k])
      invariant args == Args(filters[..k])
      invariant AreRendered(clauses, Clauses(filters[..k]))
    {
      var f := filters[k];
      ValidMeans(f);
      FilterStep(filters, k, clauses);
      if !IsIdent(f.column) {
        FirstErrorAt(filters, k);
        return Err(BadColumn(f.column));
      }
      var opSql := AllowedFilterOp(f.op);
      if opSql.None? {
        FirstErrorAt(filters, k);
        return Err(BadOperator(f.op));
      }
      if TakesValue(f) {
        args := args + [ArgOf(f)];
      }
      clauses := clauses + [ClauseText(f, opSql.value, |args|)];
    }
    assert filters[..|filters|] == filters;
    JoinRendered(clauses, Clauses(filters));
    assert WhereClause(filters) == " WHERE " + RenderAll(Clauses(filters)) by { WhereClauseMeans(filters); }
    return Ok((" WHERE " + JoinAnd(clauses), args));
  }

  lemma NoFilters(fs: seq<RowFilter>)
    ensures AllValid(fs[..0]) && Args(fs[..0]) == [] && AreRendered([], Clauses(fs[..0]))
  {
  }

  lemma WhereClauseMeans(fs: seq<RowFilter>)
    requires fs != []
    ensures WhereClause(fs) == " WHERE " + RenderAll(Clauses(fs))
  {
  }

  lemma FilterStep(fs: seq<RowFilter>, k: nat, parts: seq<string>)
    requires k < |fs| && AreRendered(parts, Clauses(fs[..k]))
    ensures AllValid(fs[..k + 1]) <==> AllValid(fs[..k]) && Valid(fs[k])
    ensures Args(fs[..k + 1]) == if TakesValue(fs[k]) then Args(fs[..k]) + [ArgOf(fs[k])] else Args(fs[..k])
    ensures var op := AllowedFilterOp(fs[k].op);
            op.Some? ==>
              AreRendered(parts + [ClauseText(fs[k], op.value, |Args(fs[..k + 1])|)], Clauses(fs[..k + 1]))
  {
    hide Valid, ClauseOf, ArgOf, ClauseText, RenderClause, AllowedFilterOp;
    assert fs[..k + 1][..k] == fs[..k];
    assert fs[..k + 1] == fs[..k] + [fs[k]];
    assert Args(fs[..k]) + [] == Args(fs[..k]);
    if AllowedFilterOp(fs[k].op).Some? { ClauseTextRenders(fs[k], |Args(fs[..k + 1])|); }
  }

  lemma ValidMeans(f: RowFilter)
    ensures Valid(f) <==> IsIdent(f.column) && AllowedFilterOp(f.op).Some?
  {
  }

  // ---------- the compiled clause means the filters ----------

  /** What PostgreSQL keeps of a row under "SELECT ... FROM t" followed by `where`. */
  predicate Selected(where: string, args: seq<Arg>, row: Row) {
    where == "" || (Starts(where, " WHERE ") && Selects(where[7..], args, row))
  }

  lemma EvalMeansFilter(f: RowFilter, n: nat, args: seq<Arg>, row: Row)
    requires Valid(f) && (TakesValue(f) ==> 1 <= n <= |args| && args[n - 1] == ArgOf(f))
    ensures Bound(ClauseOf(f, n).test, args)
    ensures Eval(ClauseOf(f, n), args, row) == True <==> Holds(f, row)
    ensures ClauseMeans(ClauseOf(f, n), args, f, row)
  {
    hide IsIdent, ILike;
  }

  lemma MoreArgs(c: Clause, args: seq<Arg>, f: RowFilter, more: seq<Arg>, row: Row)
    requires ClauseMeans(c, args, f, row)
    ensures ClauseMeans(c, args + more, f, row)
  {
    hide ILike;
  }

  predicate ClausesMean(cs: seq<Clause>, args: seq<Arg>, fs: seq<RowFilter>, row: Row) {
    |cs| == |fs| && forall i | 0 <= i < |cs| :: ClauseMeans(cs[i], args, fs[i], row)
  }

  predicate ClauseMeans(c: Clause, args: seq<Arg>, f: RowFilter, row: Row) {
    && Bound(c.test, args)
    && (Eval(c, args, row) == True <==> Holds(f, row))
    && c.column == f.column
  }

  lemma MeansStep(cs: seq<Clause>, args: seq<Arg>, fs: seq<RowFilter>, c: Clause, more: seq<Arg>, f: RowFilter,
                  row: Row)
    requires ClausesMean(cs, args, fs, row) && ClauseMeans(c, args + more, f, row)
    ensures ClausesMean(cs + [c], args + more, fs + [f], row)
  {
    hide ClauseMeans;
    forall i | 0 <= i < |cs| ensures ClauseMeans(cs[i], args + more, fs[i], row) {
      MoreArgs(cs[i], args, fs[i], more, row);
    }
  }

  lemma LastArg(f: RowFilter, args: seq<Arg>, row: Row)
    requires Valid(f)
    ensures var all := args + if TakesValue(f) then [ArgOf(f)] else [];
            ClauseMeans(ClauseOf(f, |all|), all, f, row)
  {
    hide Valid, ClauseMeans, ClauseOf, ArgOf;
    var all := args + if TakesValue(f) then [ArgOf(f)] else [];
    assert TakesValue(f) ==> all[|all| - 1] == ArgOf(f);
    EvalMeansFilter(f, |all|, all, row);
  }

  lemma {:induction false} EachClauseMeans(fs: seq<RowFilter>, row: Row)
    requires AllValid(fs)
    ensures ClausesMean(Clauses(fs), Args(fs), fs, row)
  {
    if fs != [] {
      var init, f := fs[..|fs| - 1], fs[|fs| - 1];
      var more := if TakesValue(f) then [ArgOf(f)] else [];
      EachClauseMeans(init, row);
      LastClause(fs);
      assert fs == init + [f] && AllValid(init) && Valid(f);
      hide Valid, AllValid, ClauseMeans, ClausesMean, ArgOf, ClauseOf, TakesValue, Clauses, Args;
      LastArg(f, Args(init), row);
      MeansStep(Clauses(init), Args(init), init, ClauseOf(f, |Args(fs)|), more, f, row);
    }
  }

  lemma LastClause(fs: seq<RowFilter>)
    requires fs != []
    ensures var init, f := fs[..|fs| - 1], fs[|fs| - 1];
            && Args(fs) == Args(init) + (if TakesValue(f) then [ArgOf(f)] else [])
            && Clauses(fs) == Clauses(init) + [ClauseOf(f, |Args(fs)|)]
  {
    hide ArgOf, ClauseOf, TakesValue;
  }

  /** Main result: PostgreSQL, reading the text the builder wrote, keeps a row exactly when every filter
      holds of it under that filter's own value. */
  lemma WhereMeaning(fs: seq<RowFilter>, row: Row)
    requires AllValid(fs)
    ensures Selected(WhereClause(fs), Args(fs), row) <==> forall f | f in fs :: Holds(f, row)
  {
    if fs == [] {
    } else {
      var cs, args := Clauses(fs), Args(fs);
      SelectedMeans(RenderAll(cs), args, row);
      EachClauseMeans(fs, row);
      NamesAreOk(cs, args, fs, row);
      ReadRendered(cs);
      AllClausesMean(cs, args, fs, row);
      hide Holds, Eval, RenderAll, Clauses, Args, Read, Selected, ClausesMean, AllBound, NamesOk, EvalAll;
    }
  }

  lemma SelectedMeans(condition: string, args: seq<Arg>, row: Row)
    ensures Selected(" WHERE " + condition, args, row) <==> Selects(condition, args, row)
  {
    hide Selects;
    assert (" WHERE " + condition)[7..] == condition;
  }

  lemma NamesAreOk(cs: seq<Clause>, args: seq<Arg>, fs: seq<RowFilter>, row: Row)
    requires ClausesMean(cs, args, fs, row) && AllValid(fs)
    ensures NamesOk(cs)
  {
    hide Eval, Holds, Bound;
    forall c | c in cs ensures '\0' !in c.column {
      var i :| 0 <= i < |cs| && cs[i] == c;
      assert ClauseMeans(cs[i], args, fs[i], row) && fs[i] in fs;
    }
  }

  lemma AllClausesMean(cs: seq<Clause>, args: seq<Arg>, fs: seq<RowFilter>, row: Row)
    requires ClausesMean(cs, args, fs, row)
    ensures AllBound(cs, args)
    ensures EvalAll(cs, args, row) == True <==> forall f | f in fs :: Holds(f, row)
  {
    hide Holds, Eval, Bound, EvalAll;
    forall c | c in cs ensures Bound(c.test, args) {
      var i :| 0 <= i < |cs| && cs[i] == c;
      assert ClauseMeans(cs[i], args, fs[i], row);
    }
    AllTrue(cs, args, row);
    if forall c | c in cs :: Eval(c, args, row) == True {
      forall f | f in fs ensures Holds(f, row) {
        var i :| 0 <= i < |fs| && fs[i] == f;
        assert ClauseMeans(cs[i], args, fs[i], row) && cs[i] in cs;
      }
    }
    if forall f | f in fs :: Holds(f, row) {
      forall c | c in cs ensures Eval(c, args, row) == True {
        var i :| 0 <= i < |cs| && cs[i] == c;
        assert ClauseMeans(cs[i], args, fs[i], row) && fs[i] in fs;
      }
    }
  }

  // ---------- placeholders ----------

  /** The parameter numbers, in the order they appear in the text. */
  function Params(cs: seq<Clause>): seq<nat> {
    if cs == [] then []
    else
      var t := cs[|cs| - 1].test;
      Params(cs[..|cs| - 1]) + if t.Compare? || t.Matches? then [t.param] else []
  }

  function ValueFilters(fs: seq<RowFilter>): seq<RowFilter> {
    if fs == [] then []
    else ValueFilters(fs[..|fs| - 1]) + if TakesValue(fs[|fs| - 1]) then [fs[|fs| - 1]] else []
  }

  /** The text uses exactly $1 to $n in order, n being the number of arguments, and argument i is the value
      of the i-th filter that has one. */
  lemma {:induction false} PlaceholdersExact(fs: seq<RowFilter>)
    ensures Params(Clauses(fs)) == seq(|Args(fs)|, i => i + 1)
    ensures |ValueFilters(fs)| == |Args(fs)|
    ensures forall i | 0 <= i < |Args(fs)| :: Args(fs)[i] == ArgOf(ValueFilters(fs)[i])
  {
    if fs != [] {
      var init, f := fs[..|fs| - 1], fs[|fs| - 1];
      PlaceholdersExact(init);
      assert Clauses(fs)[..|init|] == Clauses(init);
      hide ArgOf, ComparisonOf;
    }
  }

  /** No value reaches the text: filters that agree on columns and operators compile to the same text. */
  lemma {:induction false} TextIgnoresValues(fs: seq<RowFilter>, gs: seq<RowFilter>)
    requires |fs| == |gs| && forall i | 0 <= i < |fs| :: fs[i].column == gs[i].column && fs[i].op == gs[i].op
    ensures Clauses(fs) == Clauses(gs) && |Args(fs)| == |Args(gs)| && WhereClause(fs) == WhereClause(gs)
  {
    if fs != [] {
      TextIgnoresValues(fs[..|fs| - 1], gs[..|gs| - 1]);
      hide ComparisonOf;
    }
  }

  // ---------- pages ----------

  function Matching(where: string, args: seq<Arg>, rows: seq<Row>): seq<Row> {
    if rows == [] then []
    else
      var row := rows[|rows| - 1];
      Matching(where, args, rows[..|rows| - 1]) + if Selected(where, args, row) then [row] else []
  }

  function Kept(fs: seq<RowFilter>, rows: seq<Row>): seq<Row> {
    if rows == [] then []
    else
      var row := rows[|rows| - 1];
      Kept(fs, rows[..|rows| - 1]) + if forall f | f in fs :: Holds(f, row) then [row] else []
  }

  lemma {:induction false} MatchingKept(fs: seq<RowFilter>, rows: seq<Row>)
    requires AllValid(fs)
    ensures Matching(WhereClause(fs), Args(fs), rows) == Kept(fs, rows)
  {
    if rows != [] {
      WhereMeaning(fs, rows[|rows| - 1]);
      MatchingKept(fs, rows[..|rows| - 1]);
    }
  }

  lemma {:induction false} KeptJoin(fs: seq<RowFilter>, a: seq<Row>, b: seq<Row>)
    ensures Kept(fs, a + b) == Kept(fs, a) + Kept(fs, b)
  {
    if b == [] {
      assert a + b == a;
    } else {
      assert (a + b)[..|a + b| - 1] == a + b[..|b| - 1];
      KeptJoin(fs, a, b[..|b| - 1]);
      hide Holds;
    }
  }

  /** A row is kept where it stands exactly if all filters hold of it. */
  lemma KeptOf(fs: seq<RowFilter>, a: seq<Row>, row: Row, b: seq<Row>)
    ensures Kept(fs, a + [row] + b) ==
            Kept(fs, a) + (if forall f | f in fs :: Holds(f, row) then [row] else []) + Kept(fs, b)
  {
    hide Holds;
    KeptJoin(fs, a + [row], b);
    KeptJoin(fs, a, [row]);
    assert [row][..0] == [];
    assert Kept(fs, [row]) == if forall f | f in fs :: Holds(f, row) then [row] else [];
  }

  /** The query that fails, if any. */
  datatype QueryIo = Works | CountFails | PageFails

  /** The two queries are separate statements: `atCount` and `atPage` are the table as each of them meets it,
      the second in the order in which the query yields it. */
  method TableRows(atCount: seq<Row>, atPage: seq<Row>, limit: nat, offset: nat, sortColumn: string,
                   filters: seq<RowFilter>, io: QueryIo)
    returns (r: Result<(seq<Row>, nat), FilterError>)
    ensures r.Ok? <==> AllValid(filters) && (sortColumn == "" || IsIdent(sortColumn)) && io == Works
    ensures r.Ok? ==> r.value == (Page(Kept(filters, atPage), limit, offset), |Kept(filters, atCount)|)
    ensures r.Err? ==> r.error == if !AllValid(filters) then FirstError(filters)
                                  else if sortColumn != "" && !IsIdent(sortColumn) then BadSortColumn(sortColumn)
                                  else QueryFailed
  {
    var built := BuildRowFilterSQL(filters);
    if built.Err? {
      return Err(built.error);
    }
    var (where, args) := built.value;
    if sortColumn != "" && !IsIdent(sortColumn) {
      return Err(BadSortColumn(sortColumn));
    }
    MatchingKept(filters, atCount);
    MatchingKept(filters, atPage);
    hide Kept, Matching, WhereClause, Args, AllValid, FirstError, IsIdent;
    if io == CountFails {
      return Err(QueryFailed);
    }
    var total := |Matching(where, args, atCount)|;
    if io == PageFails {
      return Err(QueryFailed);
    }
    return Ok((Page(Matching(where, args, atPage), limit, offset), total));
  }
}
