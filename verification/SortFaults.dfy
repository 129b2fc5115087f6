/** A single-table query with ORDER BY and a stored number that is not finite (src/core/executor.cpp). */
module SortFaults {
  import opened Common
  import opened Values
  import opened Expressions
  import opened Optimizer
  import opened Binding
  import opened Pipeline
  import opened Plans
  import opened Sorting
  import opened Execution
  import opened FiniteData
  import opened Select
  import opened SelectAnalysis
  import opened SelectPlans
  import opened SelectAccepted
  import opened Mutations
  import opened Ordering
  import opened Outcomes
  import opened StatementEnds
  import Aggregates
  import Parser

  /** SELECT .. FROM t ORDER BY .., with no join, grouping or aggregate, and no WHERE clause that is left. */
  predicate PlainOrdered(ast: SelectAst) {
    && ast.joins == [] && OptimizePredicate(ast.filter).None? && ast.orderBy != []
    && !HasAggregate(ast.items) && ast.groupBy == []
  }

  /** The storage delivers the whole table. */
  predicate DeliversAll(b: Backend, id: nat) {
    && !b.cancelFound && b.tables(id).open == Opened(false, true)
    && EndingOf(b.tables(id).scan).AtEnd? && b.tables(id).close == CursorClosed(false)
  }

  /** Some stored row has, in a column of the ORDER BY clause, a DOUBLE that is not finite. */
  ghost predicate StoresNonFinite(ast: SelectAst, t: TableMeta, rows: seq<Row>) {
    exists i, k :: 0 <= i < |rows| && 0 <= k < |ast.orderBy| && KeyNotFinite(ast, t, rows[i], k)
  }

  predicate KeyNotFinite(ast: SelectAst, t: TableMeta, row: Row, k: nat)
    requires k < |ast.orderBy|
  {
    var c := Resolve([t], ast.orderBy[k].name);
    c.Some? && c.value.ref.column < |row| && !FiniteValue(row[c.value.ref.column])
  }

  // ---------------------------------------------------------------- the plan

  lemma PlainPlan(ast: SelectAst, catalog: Catalog, t: TableMeta)
    requires AnalyzedSelect(ast, catalog) && PlainOrdered(ast) && FindRelation(catalog, ast.table) == Some(t)
    ensures FindTable(catalog, t.id) == Some(t)
    ensures Compile(ast, catalog).Some?
    ensures var root := Compile(ast, catalog).value.root;
            && root.Sort? && root.child == Scan(t.id, ScanColumns(|t.columns|, 0)) && |root.keys| == |ast.orderBy|
            && forall k :: 0 <= k < |ast.orderBy| ==>
                 && Resolve([t], ast.orderBy[k].name).Some?
                 && root.keys[k].slot == SlotIn([t], 0, Resolve([t], ast.orderBy[k].name).value.ref)
  {
    FindTableOf(catalog, t);
    CompiledSorts(ast, catalog);
    assert BindFrom(catalog, ast.table, ast.joins) == Some(BoundFrom([t], []));
    PlainShape(ast, catalog, t);
  }

  lemma PlainShape(ast: SelectAst, catalog: Catalog, t: TableMeta)
    requires AnalyzedSelect(ast, catalog) && PlainOrdered(ast)
    requires BindFrom(catalog, ast.table, ast.joins) == Some(BoundFrom([t], []))
    ensures Compile(ast, catalog).Some?
    ensures var root := Compile(ast, catalog).value.root;
            root.Sort? ==> root.child == Scan(t.id, ScanColumns(|t.columns|, 0))
  {
    AnalyzeGood(ast, catalog);
    FromShape(catalog, ast.table, ast.joins);
    var from, s := BoundFrom([t], []), OptimizeSelect(AnalyzeSelect(ast, catalog).value);
    OptimizeGood(AnalyzeSelect(ast, catalog).value, [t]);
    assert [t][0] in catalog;
    ClausesHeight(ast, from);
    var tree, filter, items, keys := SelectPlanned(catalog, s, [t]);
    FirstTree(s, [t]);
    assert Width([t][..0]) == 0;
  }

  // ---------------------------------------------------------------- the rows

  lemma {:induction false} ScanDelivers(t: TableMeta, rows: seq<Row>, columns: seq<ScanColumn>, limit: nat)
    requires ScanOk(t, columns) && forall i :: 0 <= i < |rows| ==> PhysicalOk(t, rows[i])
    ensures var r := ScanRows(t, rows, columns, limit);
            if |rows| <= limit then r.Ok? && |r.value| == |rows| else r == Err(TooManyRows)
    ensures |rows| <= limit ==>
      forall i :: 0 <= i < |rows| ==>
        PhysicalOk(t, rows[i]) && ScanRows(t, rows, columns, limit).value[i] == Materialize(rows[i], columns)
  {
    if rows != [] {
      ScanDelivers(t, rows[..|rows| - 1], columns, limit);
    }
  }

  lemma StoredKey(t: TableMeta, row: Row, c: BoundColumn)
    requires PhysicalOk(t, row) && InScope(c, [t])
    ensures c.column < |row|
    ensures Lookup(Materialize(row, ScanColumns(|t.columns|, 0)), SlotIn([t], 0, c)) == Ok(row[c.column])
  {
    RowOfTable(t, row);
  }

  lemma KeysAreColumns(ast: SelectAst, t: TableMeta, row: Row, keys: seq<SortKey>)
    requires PhysicalOk(t, row) && |keys| == |ast.orderBy|
    requires forall k :: 0 <= k < |keys| ==>
      && Resolve([t], ast.orderBy[k].name).Some?
      && keys[k].slot == SlotIn([t], 0, Resolve([t], ast.orderBy[k].name).value.ref)
    ensures FiniteKeys(Materialize(row, ScanColumns(|t.columns|, 0)), keys) <==>
            forall k :: 0 <= k < |keys| ==> !KeyNotFinite(ast, t, row, k)
  {
    forall k | 0 <= k < |keys|
      ensures var v := Lookup(Materialize(row, ScanColumns(|t.columns|, 0)), keys[k].slot);
              v.Ok? && (FiniteValue(v.value) <==> !KeyNotFinite(ast, t, row, k))
    {
      StoredKey(t, row, Resolve([t], ast.orderBy[k].name).value.ref);
    }
  }

  lemma RowsKeysFinite(ast: SelectAst, t: TableMeta, rows: seq<Row>, delivered: Rows, keys: seq<SortKey>)
    requires |delivered| == |rows| && |keys| == |ast.orderBy|
    requires forall i :: 0 <= i < |rows| ==>
      PhysicalOk(t, rows[i]) && delivered[i] == Materialize(rows[i], ScanColumns(|t.columns|, 0))
    requires forall k :: 0 <= k < |keys| ==>
      && Resolve([t], ast.orderBy[k].name).Some?
      && keys[k].slot == SlotIn([t], 0, Resolve([t], ast.orderBy[k].name).value.ref)
    ensures AllKeysFinite(delivered, keys) <==> !StoresNonFinite(ast, t, rows)
  {
    forall i | 0 <= i < |rows|
      ensures FiniteKeys(delivered[i], keys) <==> forall k :: 0 <= k < |keys| ==> !KeyNotFinite(ast, t, rows[i], k)
    {
      KeysAreColumns(ast, t, rows[i], keys);
    }
  }

  /** The scan of a table that is delivered whole. */
  lemma ScanOfWhole(catalog: Catalog, t: TableMeta, b: Backend, limit: nat)
    requires FindTable(catalog, t.id) == Some(t) && DeliversAll(b, t.id)
    requires forall i :: 0 <= i < |Contents(b)(t.id)| ==> PhysicalOk(t, Contents(b)(t.id)[i])
    ensures var rows, read := Contents(b)(t.id), RunNode(catalog, b, Scan(t.id, ScanColumns(|t.columns|, 0)), 2, limit);
            && (read.Got? <==> |rows| <= limit)
            && (read.Got? ==> |read.value| == |rows| && forall i :: 0 <= i < |rows| ==>
                  PhysicalOk(t, rows[i]) && read.value[i] == Materialize(rows[i], ScanColumns(|t.columns|, 0)))
  {
    OneRelationRow(t);
    ScanDelivers(t, Contents(b)(t.id), ScanColumns(|t.columns|, 0), limit);
  }

  /** Exactly on stored data: such a query over a table that is delivered whole ends in an internal error if and only
      if the table fits the row limit and stores, in an ORDER BY column, a number that is not finite. */
  lemma PlainOrderFailsExactly(ast: SelectAst, catalog: Catalog, t: TableMeta, b: Backend, limit: nat)
    requires AnalyzedSelect(ast, catalog) && PlainOrdered(ast) && FindRelation(catalog, ast.table) == Some(t)
    requires PoliteTables(b) && TablesOk(catalog, Contents(b)) && DeliversAll(b, t.id)
    ensures Compile(ast, catalog).Some?
    ensures QueryEnd(Compile(ast, catalog).value, catalog, b, limit) == Some(Fails(InternalKind)) <==>
            |Contents(b)(t.id)| <= limit && StoresNonFinite(ast, t, Contents(b)(t.id))
  {
    PlainPlan(ast, catalog, t);
    SelectEndsInternally(ast, catalog, b, limit);
    ScanOfWhole(catalog, t, b, limit);
    var root := Compile(ast, catalog).value.root;
    var read := RunNode(catalog, b, root.child, 2, limit);
    if read.Got? {
      RowsKeysFinite(ast, t, Contents(b)(t.id), read.value, root.keys);
    }
  }

  // ---------------------------------------------------------------- it happens

  const INFINITY: nat := 0x7FF0_0000_0000_0000
  const ONE_COLUMN: TableMeta := TableMeta(2, "t", [ColumnMeta("c", DoubleType, true)])

  /** SELECT * FROM t ORDER BY c. */
  const BY_COLUMN: SelectAst :=
    SelectAst("t", [], true, [], None, [], [AstSort(Name(None, "c"), true)])

  /** Every table holds one row with an infinity. */
  function InfiniteStorage(f: Aggregates.Floats): Backend {
    var row := Next(false, Some(Stored(0, [Double(INFINITY)])));
    Backend(_ => TableReplies(Opened(false, true), [row], CursorClosed(false)), Changed(0, false), false, f)
  }

  lemma ByColumnIsAnalyzed()
    ensures AnalyzedSelect(BY_COLUMN, [ONE_COLUMN]) && FindRelation([ONE_COLUMN], "t") == Some(ONE_COLUMN)
    ensures Resolve([ONE_COLUMN], Name(None, "c")) == Some(Resolved(BoundColumn(2, 0), TDouble))
  {
    assert Candidates([ONE_COLUMN][1..], "c") == [];
    assert Resolve([ONE_COLUMN], Name(None, "c")) == Some(Resolved(BoundColumn(2, 0), TDouble));
    assert BindColumn(Name(None, "c"), [ONE_COLUMN], false, []) == Some(BoundColumn(2, 0));
    assert BY_COLUMN.orderBy[..0] == [];
    assert BindOrder(BY_COLUMN.orderBy, [ONE_COLUMN], false, []).Some?;
    assert Parser.ParsedInOrder(ExpressionsOf(BY_COLUMN), [], Parser.MAX_EXPRESSION_COMPLEXITY);
    forall t | t in [ONE_COLUMN] ensures MetadataOk(t) {
    }
  }

  /** A stored infinity makes a well-formed query an internal error. */
  lemma InfinityFails(f: Aggregates.Floats)
    ensures AnalyzedSelect(BY_COLUMN, [ONE_COLUMN]) && Compile(BY_COLUMN, [ONE_COLUMN]).Some?
    ensures QueryEnd(Compile(BY_COLUMN, [ONE_COLUMN]).value, [ONE_COLUMN], InfiniteStorage(f), 1) ==
            Some(Fails(InternalKind))
  {
    ByColumnIsAnalyzed();
    var b := InfiniteStorage(f);
    var scan := b.tables(2).scan;
    assert scan[1..] == [];
    assert Delivered(scan) == [Stored(0, [Double(INFINITY)])];
    assert EndingOf(scan) == EndingOf(scan[1..]) && EndingOf([]).AtEnd?;
    assert Contents(b)(2) == [[Double(INFINITY)]];
    forall id, i | 0 <= i < |Contents(b)(id)| ensures PhysicalOk(ONE_COLUMN, Contents(b)(id)[i]) {
    }
    assert KeyNotFinite(BY_COLUMN, ONE_COLUMN, Contents(b)(2)[0], 0);
    PlainOrderFailsExactly(BY_COLUMN, [ONE_COLUMN], ONE_COLUMN, b, 1);
  }
}
