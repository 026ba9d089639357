/** Editing and deleting one row of the table grid, found by its primary key. */
module PrimaryKey {
  import opened Identifiers
  import opened SqlText
  import opened Wrappers

  datatype ColumnMeta = ColumnMeta(name: string, dataType: string, isNullable: bool, isPrimaryKey: bool)

  datatype TableError = BadName | NoPrimaryKey | BadKey | Refused | NotFound

  // ---------- the key's columns and its condition ----------

  function KeyNames(cols: seq<ColumnMeta>): seq<string> {
    if cols == [] then []
    else KeyNames(cols[..|cols| - 1]) + if cols[|cols| - 1].isPrimaryKey then [cols[|cols| - 1].name] else []
  }

  method PrimaryKeyColumnNames(cols: seq<ColumnMeta>) returns (names: seq<string>)
    ensures names == KeyNames(cols)
  {
    names := [];
    for k := 0 to |cols|
      invariant names == KeyNames(cols[..k])
    {
      assert cols[..k + 1][..k] == cols[..k];
      if cols[k].isPrimaryKey {
        names := names + [cols[k].name];
      }
    }
    assert cols[..|cols|] == cols;
  }

  lemma {:induction false} KeyNamesJoin(a: seq<ColumnMeta>, b: seq<ColumnMeta>)
    ensures KeyNames(a + b) == KeyNames(a) + KeyNames(b)
  {
    if b == [] {
      assert a + b == a;
    } else {
      assert (a + b)[..|a + b| - 1] == a + b[..|b| - 1];
      KeyNamesJoin(a, b[..|b| - 1]);
    }
  }

  /** The names are those of the key columns, each where its column stands. */
  lemma KeyNamesOf(a: seq<ColumnMeta>, c: ColumnMeta, b: seq<ColumnMeta>)
    ensures KeyNames(a + [c] + b) == if c.isPrimaryKey then KeyNames(a) + [c.name] + KeyNames(b) else KeyNames(a) + KeyNames(b)
  {
    KeyNamesJoin(a + [c], b);
    KeyNamesJoin(a, [c]);
    assert [c][..0] == [];
    assert KeyNames([c]) == if c.isPrimaryKey then [c.name] else [];
    assert KeyNames(a) + [] == KeyNames(a);
  }

  type Key = map<string, Arg>

  function KeyArgs(pkCols: seq<string>, pk: Key): seq<Arg>
    requires forall c | c in pkCols :: c in pk
  {
    seq(|pkCols|, i requires 0 <= i < |pkCols| => pk[pkCols[i]])
  }

  function KeyClauses(pkCols: seq<string>, startIndex: nat): seq<Clause> {
    seq(|pkCols|, i requires 0 <= i < |pkCols| => Clause(pkCols[i], Compare(Eq, startIndex + i + 1)))
  }

  predicate KeyFits(pkCols: seq<string>, pk: Key) {
    |pk| == |pkCols| && forall c | c in pkCols :: c in pk
  }

  /** `startIndex` parameters are already in use. */
  method BuildPKWhere(pkCols: seq<string>, pk: Key, startIndex: nat)
    returns (r: Result<(string, seq<Arg>), TableError>)
    ensures r == if KeyFits(pkCols, pk) then Ok((RenderAll(KeyClauses(pkCols, startIndex)), KeyArgs(pkCols, pk)))
                 else Err(BadKey)
  {
    if |pk| != |pkCols| {
      return Err(BadKey);
    }
    var clauses: seq<string> := [];
    var args: seq<Arg> := [];
    hide RenderClause, RenderAll, AreRendered, KeyClauses, KeyArgs, Quote, Decimal;
    NoKeyColumns(pkCols, pk, startIndex);
    for k := 0 to |pkCols|
      invariant forall i | 0 <= i < k :: pkCols[i] in pk
      invariant args == KeyArgs(pkCols[..k], pk)
      invariant |args| == k && AreRendered(clauses, KeyClauses(pkCols[..k], startIndex))
    {
      var col := pkCols[k];
      if col !in pk {
        return Err(BadKey);
      }
      KeyStep(pkCols, pk, startIndex, k, clauses);
      args := args + [pk[col]];
      clauses := clauses + [Quote(col) + " = $" + Decimal(startIndex + |args|)];
    }
    assert pkCols[..|pkCols|] == pkCols;
    JoinRendered(clauses, KeyClauses(pkCols, startIndex));
    return Ok((JoinAnd(clauses), args));
  }

  lemma NoKeyColumns(pkCols: seq<string>, pk: Key, startIndex: nat)
    ensures KeyArgs(pkCols[..0], pk) == [] && AreRendered([], KeyClauses(pkCols[..0], startIndex))
  {
  }

  lemma KeyStep(pkCols: seq<string>, pk: Key, startIndex: nat, k: nat, parts: seq<string>)
    requires k < |pkCols| && (forall i | 0 <= i <= k :: pkCols[i] in pk)
    requires AreRendered(parts, KeyClauses(pkCols[..k], startIndex))
    ensures KeyArgs(pkCols[..k + 1], pk) == KeyArgs(pkCols[..k], pk) + [pk[pkCols[k]]]
    ensures AreRendered(parts + [Quote(pkCols[k]) + " = $" + Decimal(startIndex + k + 1)],
                        KeyClauses(pkCols[..k + 1], startIndex))
  {
    var clause := Clause(pkCols[k], Compare(Eq, startIndex + k + 1));
    EqualityText(clause);
    hide RenderClause, Quote, Decimal;
    assert KeyClauses(pkCols[..k + 1], startIndex) == KeyClauses(pkCols[..k], startIndex) + [clause];
  }

  lemma EqualityText(c: Clause)
    requires c.test.Compare? && c.test.op == Eq
    ensures Quote(c.column) + " = $" + Decimal(c.test.param) == RenderClause(c)
  {
    hide Quote, Decimal;
    assert Quote(c.column) + " = $" + Decimal(c.test.param) == Quote(c.column) + (" = $" + Decimal(c.test.param));
  }

  predicate Distinct(names: seq<string>) {
    forall i, j | 0 <= i < j < |names| :: names[i] != names[j]
  }

  function Elements(names: seq<string>): set<string> {
    set n | n in names
  }

  lemma {:induction false} DistinctSize(names: seq<string>)
    requires Distinct(names)
    ensures |Elements(names)| == |names|
  {
    if names != [] {
      var init, last := names[..|names| - 1], names[|names| - 1];
      DistinctSize(init);
      assert Elements(names) == Elements(init) + {last};
    }
  }

  lemma SubsetSize<T>(a: set<T>, b: set<T>)
    requires a <= b && |a| == |b|
    ensures a == b
  {
    assert b == a + (b - a);
    assert |b - a| == 0;
  }

  /** The key is accepted exactly when it names the primary key's columns: none missing, none extra. */
  lemma KeyFitsIff(pkCols: seq<string>, pk: Key)
    requires Distinct(pkCols)
    ensures KeyFits(pkCols, pk) <==> pk.Keys == Elements(pkCols)
  {
    DistinctSize(pkCols);
    assert |pk.Keys| == |pk|;
    if KeyFits(pkCols, pk) {
      SubsetSize(Elements(pkCols), pk.Keys);
    }
    if pk.Keys == Elements(pkCols) {
      forall c | c in pkCols ensures c in pk {
        assert c in Elements(pkCols);
      }
    }
  }

  // ---------- what the condition selects ----------

  predicate CellHit(cell: Cell, arg: Arg) {
    cell.Value? && arg.Some? && cell.compare(arg.value) == Equal
  }

  /** The row's key columns all equal the key's values; a NULL on either side never does. */
  predicate KeyHit(row: Row, pkCols: seq<string>, pk: Key)
    requires forall c | c in pkCols :: c in pk
  {
    forall c | c in pkCols :: CellHit(row(c), pk[c])
  }

  /** PostgreSQL, reading the condition the builder wrote after `before` other parameters, selects exactly
      the rows the key hits. */
  lemma KeyWhereMeaning(pkCols: seq<string>, pk: Key, before: seq<Arg>, row: Row)
    requires pkCols != [] && KeyFits(pkCols, pk) && forall c | c in pkCols :: '\0' !in c
    ensures Selects(RenderAll(KeyClauses(pkCols, |before|)), before + KeyArgs(pkCols, pk), row)
       <==> KeyHit(row, pkCols, pk)
  {
    var cs, args := KeyClauses(pkCols, |before|), before + KeyArgs(pkCols, pk);
    ReadRendered(cs);
    AllTrue(cs, args, row);
    hide RenderAll, Read, EvalAll, Eval, KeyHit, KeyClauses, KeyArgs;
    KeyClausesMean(pkCols, pk, before, row);
  }

  lemma KeyClauseMeans(pkCols: seq<string>, pk: Key, before: seq<Arg>, row: Row, i: nat)
    requires KeyFits(pkCols, pk) && i < |pkCols|
    ensures Eval(KeyClauses(pkCols, |before|)[i], before + KeyArgs(pkCols, pk), row) == True
       <==> CellHit(row(pkCols[i]), pk[pkCols[i]])
  {
    assert (before + KeyArgs(pkCols, pk))[|before| + i] == pk[pkCols[i]];
  }

  lemma KeyClausesMean(pkCols: seq<string>, pk: Key, before: seq<Arg>, row: Row)
    requires KeyFits(pkCols, pk)
    ensures AllBound(KeyClauses(pkCols, |before|), before + KeyArgs(pkCols, pk))
    ensures (forall c | c in KeyClauses(pkCols, |before|) :: Eval(c, before + KeyArgs(pkCols, pk), row) == True)
       <==> KeyHit(row, pkCols, pk)
  {
    var cs, args := KeyClauses(pkCols, |before|), before + KeyArgs(pkCols, pk);
    hide Eval, CellHit, KeyArgs;
    forall i | 0 <= i < |cs| ensures Eval(cs[i], args, row) == True <==> CellHit(row(pkCols[i]), pk[pkCols[i]]) {
      KeyClauseMeans(pkCols, pk, before, row, i);
    }
    if KeyHit(row, pkCols, pk) {
      forall c | c in cs ensures Eval(c, args, row) == True {
        var i :| 0 <= i < |cs| && cs[i] == c;
        assert pkCols[i] in pkCols;
      }
    }
    if forall c | c in cs :: Eval(c, args, row) == True {
      forall c | c in pkCols ensures CellHit(row(c), pk[c]) {
        var i :| 0 <= i < |pkCols| && pkCols[i] == c;
        assert cs[i] in cs;
      }
    }
  }

  // ---------- the statements on the table ----------

  function SetCell(row: Row, column: string, cell: Cell): Row {
    c => if c == column then cell else row(c)
  }

  /** The named cell changes and no other. */
  lemma SetCellIs(row: Row, column: string, cell: Cell)
    ensures SetCell(row, column, cell)(column) == cell
    ensures forall c | c != column :: SetCell(row, column, cell)(c) == row(c)
  {
  }

  function Updated(rows: seq<Row>, where: string, args: seq<Arg>, column: string, cell: Cell): seq<Row> {
    seq(|rows|, i requires 0 <= i < |rows| =>
      if Selects(where, args, rows[i]) then SetCell(rows[i], column, cell) else rows[i])
  }

  function Affected(rows: seq<Row>, where: string, args: seq<Arg>): nat {
    if rows == [] then 0
    else Affected(rows[..|rows| - 1], where, args) + if Selects(where, args, rows[|rows| - 1]) then 1 else 0
  }

  function Remaining(rows: seq<Row>, where: string, args: seq<Arg>): seq<Row> {
    if rows == [] then []
    else
      var row := rows[|rows| - 1];
      Remaining(rows[..|rows| - 1], where, args) + if Selects(where, args, row) then [] else [row]
  }

  lemma {:induction false} NoneAffected(rows: seq<Row>, where: string, args: seq<Arg>)
    requires forall i | 0 <= i < |rows| :: !Selects(where, args, rows[i])
    ensures Affected(rows, where, args) == 0 && Remaining(rows, where, args) == rows
  {
    if rows != [] {
      hide Selects;
      NoneAffected(rows[..|rows| - 1], where, args);
    }
  }

  lemma LastRow(rows: seq<Row>, where: string, args: seq<Arg>)
    requires rows != []
    ensures var init, row := rows[..|rows| - 1], rows[|rows| - 1];
            && Affected(rows, where, args) == Affected(init, where, args) + (if Selects(where, args, row) then 1 else 0)
            && Remaining(rows, where, args)
            == if Selects(where, args, row) then Remaining(init, where, args) else Remaining(init, where, args) + [row]
  {
    hide Selects;
  }

  lemma {:induction false} OneAffected(rows: seq<Row>, where: string, args: seq<Arg>, k: nat)
    requires k < |rows| && forall i | 0 <= i < |rows| :: Selects(where, args, rows[i]) <==> i == k
    ensures Affected(rows, where, args) == 1 && Remaining(rows, where, args) == rows[..k] + rows[k + 1..]
  {
    var n := |rows| - 1;
    hide Selects;
    LastRow(rows, where, args);
    hide Affected, Remaining;
    if k == n {
      NoneAffected(rows[..n], where, args);
      assert rows[k + 1..] == [];
    } else {
      OneAffected(rows[..n], where, args, k);
      assert rows[k + 1..] == rows[..n][k + 1..] + [rows[n]];
    }
  }

  ghost predicate SameValue(a: Cell, b: Cell) {
    exists arg :: CellHit(a, arg) && CellHit(b, arg)
  }

  /** What PostgreSQL's PRIMARY KEY constraint guarantees: no two rows hold the same values in all key columns. */
  ghost predicate KeyUnique(rows: seq<Row>, pkCols: seq<string>) {
    forall i, j | 0 <= i < j < |rows| :: KeysDiffer(rows[i], rows[j], pkCols)
  }

  ghost predicate KeysDiffer(a: Row, b: Row, pkCols: seq<string>) {
    exists c :: c in pkCols && !SameValue(a(c), b(c))
  }

  predicate IsTarget(rows: seq<Row>, pkCols: seq<string>, pk: Key, k: int)
    requires forall c | c in pkCols :: c in pk
  {
    0 <= k < |rows| && KeyHit(rows[k], pkCols, pk)
  }

  lemma HitsShareKey(a: Row, b: Row, pkCols: seq<string>, pk: Key)
    requires (forall c | c in pkCols :: c in pk) && KeyHit(a, pkCols, pk) && KeyHit(b, pkCols, pk)
    ensures forall c | c in pkCols :: SameValue(a(c), b(c))
  {
    forall c | c in pkCols ensures SameValue(a(c), b(c)) {
      assert CellHit(a(c), pk[c]) && CellHit(b(c), pk[c]);
    }
  }

  /** A key finds at most one row. */
  lemma TargetUnique(rows: seq<Row>, pkCols: seq<string>, pk: Key, i: int, j: int)
    requires KeyUnique(rows, pkCols) && KeyFits(pkCols, pk)
    requires IsTarget(rows, pkCols, pk, i) && IsTarget(rows, pkCols, pk, j)
    ensures i == j
  {
    HitsShareKey(rows[i], rows[j], pkCols, pk);
    HitsShareKey(rows[j], rows[i], pkCols, pk);
    hide SameValue;
  }

  /** The position of the row a key finds. */
  ghost function Target(rows: seq<Row>, pkCols: seq<string>, pk: Key): (r: Option<nat>)
    requires forall c | c in pkCols :: c in pk
    ensures r.None? <==> forall k :: !IsTarget(rows, pkCols, pk, k)
    ensures r.Some? ==> IsTarget(rows, pkCols, pk, r.value)
  {
    if k :| IsTarget(rows, pkCols, pk, k) then Some(k) else None
  }

  predicate SelectsOnly(rows: seq<Row>, where: string, args: seq<Arg>, target: Option<nat>) {
    forall i | 0 <= i < |rows| :: Selects(where, args, rows[i]) <==> target == Some(i)
  }

  /** A condition built from a key selects the one row the key finds, if there is one, and no other. */
  lemma KeySelects(rows: seq<Row>, pkCols: seq<string>, pk: Key, before: seq<Arg>)
    requires pkCols != [] && KeyFits(pkCols, pk) && NoNuls(pkCols) && KeyUnique(rows, pkCols)
    ensures SelectsOnly(rows, RenderAll(KeyClauses(pkCols, |before|)), before + KeyArgs(pkCols, pk),
                        Target(rows, pkCols, pk))
  {
    var where, args := RenderAll(KeyClauses(pkCols, |before|)), before + KeyArgs(pkCols, pk);
    forall i | 0 <= i < |rows|
      ensures Selects(where, args, rows[i]) <==> Target(rows, pkCols, pk) == Some(i)
    {
      KeyWhereMeaning(pkCols, pk, before, rows[i]);
      hide Selects, RenderAll, KeyArgs, KeyHit, KeyUnique, KeyClauses;
      if IsTarget(rows, pkCols, pk, i) {
        TargetUnique(rows, pkCols, pk, i, Target(rows, pkCols, pk).value);
      }
    }
  }

  /** What a statement whose condition selects at most one row does to the table. */
  lemma StatementEffect(rows: seq<Row>, where: string, args: seq<Arg>, target: Option<nat>,
                        column: string, cell: Cell)
    requires SelectsOnly(rows, where, args, target) && (target.Some? ==> target.value < |rows|)
    ensures match target
            case None =>
              && Affected(rows, where, args) == 0
              && Updated(rows, where, args, column, cell) == rows && Remaining(rows, where, args) == rows
            case Some(k) =>
              && Affected(rows, where, args) == 1
              && Updated(rows, where, args, column, cell) == rows[k := SetCell(rows[k], column, cell)]
              && Remaining(rows, where, args) == rows[..k] + rows[k + 1..]
  {
    hide Selects, Affected, Remaining, SetCell;
    match target {
      case None => NoneAffected(rows, where, args);
      case Some(k) => OneAffected(rows, where, args, k);
    }
  }

  /** A statement under a condition built from a key. */
  lemma KeyedStatement(rows: seq<Row>, pkCols: seq<string>, pk: Key, before: seq<Arg>, column: string, cell: Cell)
    requires pkCols != [] && KeyFits(pkCols, pk) && NoNuls(pkCols) && KeyUnique(rows, pkCols)
    ensures var where, args := RenderAll(KeyClauses(pkCols, |before|)), before + KeyArgs(pkCols, pk);
            match Target(rows, pkCols, pk)
            case None =>
              && Affected(rows, where, args) == 0
              && Updated(rows, where, args, column, cell) == rows && Remaining(rows, where, args) == rows
            case Some(k) =>
              && Affected(rows, where, args) == 1
              && Updated(rows, where, args, column, cell) == rows[k := SetCell(rows[k], column, cell)]
              && Remaining(rows, where, args) == rows[..k] + rows[k + 1..]
              && KeyUnique(rows[..k] + rows[k + 1..], pkCols)
  {
    hide Selects, KeyUnique, RenderAll, KeyArgs, KeyHit, KeysDiffer, IsTarget, Updated, Remaining, Affected,
      KeyClauses, SetCell, SelectsOnly;
    var where, args := RenderAll(KeyClauses(pkCols, |before|)), before + KeyArgs(pkCols, pk);
    var target := Target(rows, pkCols, pk);
    KeySelects(rows, pkCols, pk, before);
    assert target.Some? ==> target.value < |rows| by { TargetInRange(rows, pkCols, pk); }
    hide Target;
    StatementEffect(rows, where, args, target, column, cell);
    if target.Some? { UniqueSubset(rows, target.value, pkCols); }
  }

  lemma TargetInRange(rows: seq<Row>, pkCols: seq<string>, pk: Key)
    requires forall c | c in pkCols :: c in pk
    ensures Target(rows, pkCols, pk).Some? ==> Target(rows, pkCols, pk).value < |rows|
  {
  }

  predicate NoNuls(names: seq<string>) {
    forall c | c in names :: '\0' !in c
  }

  lemma UniqueSubset(rows: seq<Row>, k: nat, pkCols: seq<string>)
    requires k < |rows| && KeyUnique(rows, pkCols)
    ensures KeyUnique(rows[..k] + rows[k + 1..], pkCols)
  {
    hide KeysDiffer;
    var rest := rows[..k] + rows[k + 1..];
    forall i, j | 0 <= i < j < |rest| ensures KeysDiffer(rest[i], rest[j], pkCols) {
      var a, b := if i < k then i else i + 1, if j < k then j else j + 1;
      assert rest[i] == rows[a] && rest[j] == rows[b] && KeysDiffer(rows[a], rows[b], pkCols);
    }
  }

  /** A table as the grid edits it. PostgreSQL keeps its primary key unique. */
  class TableGrid {
    const cols: seq<ColumnMeta>
    var rows: seq<Row>

    ghost predicate Valid()
      reads this
    {
      NoNuls(KeyNames(cols)) && KeyUnique(rows, KeyNames(cols))
    }

    /** Neither an unusable name, nor a table without key, nor a key that does not fit. */
    predicate Usable(names: seq<string>, pk: Key) {
      (forall n | n in names :: IsIdent(n)) && KeyNames(cols) != [] && KeyFits(KeyNames(cols), pk)
    }

    constructor (cols: seq<ColumnMeta>, rows: seq<Row>)
      requires NoNuls(KeyNames(cols)) && KeyUnique(rows, KeyNames(cols))
      ensures Valid() && this.cols == cols && this.rows == rows
    {
      this.cols := cols;
      this.rows := rows;
    }

    /** `stored` is what PostgreSQL stores for `value`; `accepted` whether it takes the statement, which it
        does not if the key would stop being unique. */
    method UpdateTableRow(schema: string, table: string, column: string, value: Arg, stored: Cell,
                          accepted: bool, pk: Key)
      returns (r: Result<(), TableError>)
      requires Valid()
      requires accepted && KeyFits(KeyNames(cols), pk) && Target(rows, KeyNames(cols), pk).Some? ==>
                 var k := Target(rows, KeyNames(cols), pk).value;
                 KeyUnique(rows[k := SetCell(rows[k], column, stored)], KeyNames(cols))
      modifies this
      ensures Valid()
      ensures var usable := Usable([schema, table, column], pk) && accepted;
              && (r.Ok? <==> usable && Target(old(rows), KeyNames(cols), pk).Some?)
              && (r == Err(NotFound) <==> usable && Target(old(rows), KeyNames(cols), pk).None?)
      ensures r.Ok? ==>
                var k := Target(old(rows), KeyNames(cols), pk).value;
                && rows == old(rows)[k := SetCell(old(rows)[k], column, stored)]
                && rows[k](column) == stored && forall c | c != column :: rows[k](c) == old(rows)[k](c)
      ensures r.Err? ==> rows == old(rows)
    {
      if !IsIdent(schema) || !IsIdent(table) || !IsIdent(column) {
        return Err(BadName);
      }
      var pkCols := PrimaryKeyColumnNames(cols);
      if |pkCols| == 0 {
        return Err(NoPrimaryKey);
      }
      var built := BuildPKWhere(pkCols, pk, 1);
      if built.Err? {
        return Err(BadKey);
      }
      if !accepted {
        return Err(Refused);
      }
      hide KeyUnique, Selects, RenderAll, KeyArgs, KeyHit, IsIdent, KeysDiffer, IsTarget, Updated, Remaining, Affected,
        KeyClauses, SetCell, KeyNames, NoNuls, Target;
      var (where, whereArgs) := built.value;
      var args := [value] + whereArgs;
      KeyedStatement(rows, pkCols, pk, [value], column, stored);
      TargetInRange(rows, pkCols, pk);
      var rowsAffected := Affected(rows, where, args);
      rows := Updated(rows, where, args, column, stored);
      if rowsAffected == 1 {
        SetCellIs(old(rows)[Target(old(rows), pkCols, pk).value], column, stored);
      }
      if rowsAffected != 1 {
        return Err(NotFound);
      }
      return Ok(());
    }

    method DeleteTableRow(schema: string, table: string, accepted: bool, pk: Key)
      returns (r: Result<(), TableError>)
      requires Valid()
      modifies this
      ensures Valid()
      ensures var usable := Usable([schema, table], pk) && accepted;
              && (r.Ok? <==> usable && Target(old(rows), KeyNames(cols), pk).Some?)
              && (r == Err(NotFound) <==> usable && Target(old(rows), KeyNames(cols), pk).None?)
      ensures r.Ok? ==>
                var k := Target(old(rows), KeyNames(cols), pk).value;
                rows == old(rows)[..k] + old(rows)[k + 1..]
      ensures r.Err? ==> rows == old(rows)
    {
      if !IsIdent(schema) || !IsIdent(table) {
        return Err(BadName);
      }
      var pkCols := PrimaryKeyColumnNames(cols);
      if |pkCols| == 0 {
        return Err(NoPrimaryKey);
      }
      var built := BuildPKWhere(pkCols, pk, 0);
      if built.Err? {
        return Err(BadKey);
      }
      if !accepted {
        return Err(Refused);
      }
      hide KeyUnique, Selects, RenderAll, KeyArgs, KeyHit, IsIdent, KeysDiffer, IsTarget, Updated, Remaining, Affected,
        KeyClauses, SetCell, KeyNames, NoNuls, Target;
      var (where, args) := built.value;
      assert [] + args == args;
      KeyedStatement(rows, pkCols, pk, [], "", Null);
      TargetInRange(rows, pkCols, pk);
      var rowsAffected := Affected(rows, where, args);
      rows := Remaining(rows, where, args);
      if rowsAffected != 1 {
        return Err(NotFound);
      }
      return Ok(());
    }
  }
}
