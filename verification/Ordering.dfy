/** ORDER BY end to end: what a validated sort node delivers (src/core/executor.cpp). */
module Ordering {
  import opened Common
  import opened Values
  import opened Expressions
  import opened Binding
  import opened Pipeline
  import opened Aggregates
  import opened Plans
  import opened Sorting
  import opened Comparisons
  import opened Execution
  import opened Executor
  import opened Select
  import opened SelectAnalysis
  import opened SelectPlans
  import opened SelectAccepted

  /** The values of the key columns of one row. */
  function KeyValues(row: SlotRow, keys: seq<SortKey>): (r: seq<Value>)
    requires SortKeysOk(row, keys)
    ensures |r| == |keys| && forall i :: 0 <= i < |keys| ==> r[i] == Lookup(row, keys[i].slot).value
  {
    seq(|keys|, i requires 0 <= i < |keys| => Lookup(row, keys[i].slot).value)
  }

  ghost predicate Readable(rows: Rows, keys: seq<SortKey>) {
    forall i :: 0 <= i < |rows| ==> SortKeysOk(rows[i], keys)
  }

  /** The rows whose key values tie with the given ones, in order. */
  ghost function TiedRows(rows: Rows, values: seq<Value>, keys: seq<SortKey>): Rows
    requires Readable(rows, keys) && |values| == |keys|
  {
    if rows == [] then []
    else
      var last := rows[|rows| - 1];
      TiedRows(rows[..|rows| - 1], values, keys) +
      if TiedUpTo(KeyValues(last, keys), values, |keys|) then [last] else []
  }

  /** The same rows, in order at the first key where two differ, and rows with tied keys in their input order. */
  ghost predicate OrderedBy(input: Rows, output: Rows, keys: seq<SortKey>) {
    && Readable(input, keys) && Readable(output, keys) && multiset(output) == multiset(input)
    && (forall i, j :: 0 <= i < j < |output| ==>
          InOrder(KeyValues(output[i], keys), KeyValues(output[j], keys), Directions(keys)))
    && (forall k :: 0 <= k < |input| ==>
          TiedRows(output, KeyValues(input[k], keys), keys) == TiedRows(input, KeyValues(input[k], keys), keys))
  }

  // ---------------------------------------------------------------- the prepared keys

  ghost predicate Prepares(s: Sortable, keys: seq<SortKey>) {
    SortKeysOk(s.row, keys) && s.keys == KeyValues(s.row, keys)
  }

  ghost predicate AllPrepared(rows: seq<Sortable>, keys: seq<SortKey>) {
    forall i :: 0 <= i < |rows| ==> Prepares(rows[i], keys)
  }

  lemma {:induction false} PrepareRowReads(row: SlotRow, keys: seq<SortKey>, families: seq<Option<Family>>)
    requires |families| == |keys| && PrepareRow(row, keys, families).Ok?
    ensures SortKeysOk(row, keys) && PrepareRow(row, keys, families).value.keys == KeyValues(row, keys)
    ensures forall i :: 0 <= i < |keys| ==> FiniteValue(KeyValues(row, keys)[i])
    decreases |keys|
  {
    if keys != [] {
      var n := |keys| - 1;
      PrepareRowReads(row, keys[..n], families[..n]);
      assert KeyValues(row, keys[..n]) + [Lookup(row, keys[n].slot).value] == KeyValues(row, keys);
    }
  }

  lemma {:induction false} PrepareReads(rows: Rows, keys: seq<SortKey>)
    requires PrepareRows(rows, keys).Ok?
    ensures AllPrepared(PrepareRows(rows, keys).value.rows, keys)
    ensures forall i, k :: 0 <= i < |rows| && 0 <= k < |keys| ==>
      FiniteValue(PrepareRows(rows, keys).value.rows[i].keys[k])
  {
    if rows != [] {
      var n := |rows| - 1;
      PrepareReads(rows[..n], keys);
      PrepareRowReads(rows[n], keys, PrepareRows(rows[..n], keys).value.families);
    }
  }

  ghost function KeyTypes(declared: SlotRow, keys: seq<SortKey>): (r: seq<ExprType>)
    requires SortKeysOk(declared, keys)
    ensures |r| == |keys| && forall i :: 0 <= i < |keys| ==> r[i] == TypeOfValue(Lookup(declared, keys[i].slot).value)
  {
    seq(|keys|, i requires 0 <= i < |keys| => TypeOfValue(Lookup(declared, keys[i].slot).value))
  }

  /** Rows of the validated shape have keys of one type per column. */
  lemma PreparedAreTyped(rows: Rows, keys: seq<SortKey>, declared: SlotRow)
    requires AllConform(rows, declared) && SortKeysOk(declared, keys) && PrepareRows(rows, keys).Ok?
    ensures AllTyped(PrepareRows(rows, keys).value.rows, KeyTypes(declared, keys))
  {
    PrepareReads(rows, keys);
    var prepared := PrepareRows(rows, keys).value.rows;
    forall i | 0 <= i < |prepared| ensures KeysTyped(prepared[i].keys, KeyTypes(declared, keys)) {
      assert Prepares(prepared[i], keys) && prepared[i].row == rows[i];
      forall k | 0 <= k < |keys|
        ensures prepared[i].keys[k].Null? || Orderable(prepared[i].keys[k], KeyTypes(declared, keys)[k]) {
        LookupSound(rows[i], declared, keys[k].slot);
        assert FiniteValue(prepared[i].keys[k]);
      }
    }
  }

  // ---------------------------------------------------------------- from prepared rows to rows

  lemma {:induction false} SortFrom(rows: seq<Sortable>, keys: seq<SortKey>)
    requires SizesOk(rows, keys) && AllPrepared(rows, keys)
    ensures AllPrepared(StableSort(rows, keys), keys)
  {
    SortKeeps(rows, keys);
    var sorted := StableSort(rows, keys);
    forall i | 0 <= i < |sorted| ensures Prepares(sorted[i], keys) {
      assert sorted[i] in multiset(sorted);
      assert sorted[i] in multiset(rows);
    }
  }

  lemma RowsOfAppend(rows: seq<Sortable>, x: Sortable)
    ensures RowsOf(rows + [x]) == RowsOf(rows) + [x.row]
  {
  }

  lemma {:induction false} InsertKeepsRows(rows: seq<Sortable>, x: Sortable, keys: seq<SortKey>)
    requires SizesOk(rows, keys) && |x.keys| == |keys|
    ensures multiset(RowsOf(Insert(rows, x, keys))) == multiset(RowsOf(rows)) + multiset{x.row}
  {
    RowsOfAppend(rows, x);
    if rows == [] {
      assert rows + [x] == [x];
    } else {
      var n := |rows| - 1;
      RowsOfAppend(rows[..n], rows[n]);
      assert rows == rows[..n] + [rows[n]];
      if CompareRows(x.keys, rows[n].keys, keys) < 0 {
        InsertKeepsRows(rows[..n], x, keys);
        RowsOfAppend(Insert(rows[..n], x, keys), rows[n]);
      }
    }
  }

  lemma {:induction false} SortKeepsRows(rows: seq<Sortable>, keys: seq<SortKey>)
    requires SizesOk(rows, keys)
    ensures multiset(RowsOf(StableSort(rows, keys))) == multiset(RowsOf(rows))
  {
    if rows != [] {
      var n := |rows| - 1;
      SortKeepsRows(rows[..n], keys);
      InsertKeepsRows(StableSort(rows[..n], keys), rows[n], keys);
      RowsOfAppend(rows[..n], rows[n]);
      assert rows == rows[..n] + [rows[n]];
    }
  }

  lemma {:induction false} TiesAreRows(rows: seq<Sortable>, pivot: Sortable, keys: seq<SortKey>, types: seq<ExprType>)
    requires SizesOk(rows, keys) && AllPrepared(rows, keys) && |pivot.keys| == |keys| == |types|
    requires AllTyped(rows, types) && KeysTyped(pivot.keys, types)
    ensures Readable(RowsOf(rows), keys) && TiedRows(RowsOf(rows), pivot.keys, keys) == RowsOf(Ties(rows, pivot, keys))
  {
    if rows != [] {
      var n := |rows| - 1;
      TiesAreRows(rows[..n], pivot, keys, types);
      assert Prepares(rows[n], keys);
      RowComparisonIsPlain(rows[n].keys, pivot.keys, keys, types);
      assert RowsOf(rows)[..n] == RowsOf(rows[..n]);
      var before := Ties(rows[..n], pivot, keys);
      assert RowsOf(before + [rows[n]]) == RowsOf(before) + [rows[n].row] && RowsOf(before + []) == RowsOf(before) + [];
    }
  }

  lemma SortedRowsAreOrdered(rows: Rows, keys: seq<SortKey>, declared: SlotRow)
    requires AllConform(rows, declared) && SortKeysOk(declared, keys) && SortRows(rows, keys).Ok?
    ensures OrderedBy(rows, SortRows(rows, keys).value, keys)
  {
    var types, prepared := KeyTypes(declared, keys), PrepareRows(rows, keys).value.rows;
    var sorted := StableSort(prepared, keys);
    var output := SortRows(rows, keys).value;
    PreparedAreTyped(rows, keys, declared);
    PrepareReads(rows, keys);
    SortFrom(prepared, keys);
    SortKeepsRows(prepared, keys);
    assert RowsOf(prepared) == rows && RowsOf(sorted) == output;
    forall i, j | 0 <= i < j < |output|
      ensures SortKeysOk(output[i], keys) && SortKeysOk(output[j], keys)
      ensures InOrder(KeyValues(output[i], keys), KeyValues(output[j], keys), Directions(keys))
    {
      assert Prepares(sorted[i], keys) && Prepares(sorted[j], keys);
      SortIsPlain(prepared, keys, types, i, j);
    }
    SortSorts(prepared, keys, types);
    TiesAgree(rows, prepared, sorted, output, keys, types);
  }

  lemma TiesAgree(rows: Rows, prepared: seq<Sortable>, sorted: seq<Sortable>, output: Rows, keys: seq<SortKey>,
                  types: seq<ExprType>)
    requires SizesOk(prepared, keys) && sorted == StableSort(prepared, keys) && RowsOf(prepared) == rows &&
      RowsOf(sorted) == output
    requires AllPrepared(prepared, keys) && AllPrepared(sorted, keys) && |types| == |keys|
    requires AllTyped(prepared, types) && AllTyped(sorted, types)
    ensures Readable(rows, keys) && Readable(output, keys)
    ensures forall k :: 0 <= k < |rows| ==>
      TiedRows(output, KeyValues(rows[k], keys), keys) == TiedRows(rows, KeyValues(rows[k], keys), keys)
  {
    assert forall k :: 0 <= k < |rows| ==> Prepares(prepared[k], keys) && prepared[k].row == rows[k];
    assert forall k :: 0 <= k < |output| ==> Prepares(sorted[k], keys) && sorted[k].row == output[k];
    forall k | 0 <= k < |rows|
      ensures TiedRows(output, KeyValues(rows[k], keys), keys) == TiedRows(rows, KeyValues(rows[k], keys), keys)
    {
      TiesAreRows(prepared, prepared[k], keys, types);
      TiesAreRows(sorted, prepared[k], keys, types);
      SortIsStable(prepared, prepared[k], keys, types);
    }
  }

  // ---------------------------------------------------------------- end to end

  lemma SortNodeValid(catalog: Catalog, keys: seq<SortKey>, child: Node, depth: nat, types: SlotRow)
    requires ValidateNode(catalog, Sort(keys, child), depth, types).Ok?
    ensures ValidateNode(catalog, child, depth + 1, types).Ok?
    ensures SortKeysOk(ValidateNode(catalog, child, depth + 1, types).value.row, keys)
  {
  }

  lemma SortNodeRows(catalog: Catalog, tables: Tables, keys: seq<SortKey>, child: Node, depth: nat, limit: nat,
                     f: Floats)
    requires Reference(catalog, tables, Sort(keys, child), depth, limit, f).Ok?
    ensures var input := Reference(catalog, tables, child, depth + 1, limit, f);
            input.Ok? && Reference(catalog, tables, Sort(keys, child), depth, limit, f) == SortRows(input.value, keys)
  {
  }

  /** A sort node that passed validation delivers its input in order, on all contents that match the schemas. */
  lemma ValidSortIsOrdered(catalog: Catalog, tables: Tables, keys: seq<SortKey>, child: Node, depth: nat,
                           types: SlotRow, limit: nat, f: Floats)
    requires TablesOk(catalog, tables) && ValidateNode(catalog, Sort(keys, child), depth, types).Ok?
    requires Reference(catalog, tables, Sort(keys, child), depth, limit, f).Ok?
    ensures Reference(catalog, tables, child, depth + 1, limit, f).Ok?
    ensures OrderedBy(Reference(catalog, tables, child, depth + 1, limit, f).value,
                      Reference(catalog, tables, Sort(keys, child), depth, limit, f).value, keys)
  {
    SortNodeValid(catalog, keys, child, depth, types);
    SortNodeRows(catalog, tables, keys, child, depth, limit, f);
    ValidPlansAreSound(catalog, tables, child, depth + 1, types, limit, f);
    var declared := ValidateNode(catalog, child, depth + 1, types).value.row;
    SortedRowsAreOrdered(Reference(catalog, tables, child, depth + 1, limit, f).value, keys, declared);
  }

  /** The plain reading of one key: NULLs come last, other values ascend or descend. */
  lemma OneKeyOrder(input: Rows, output: Rows, key: SortKey, i: nat, j: nat)
    requires OrderedBy(input, output, [key]) && i < j < |output|
    ensures SortKeysOk(output[i], [key]) && SortKeysOk(output[j], [key])
    ensures var a, b := KeyValues(output[i], [key])[0], KeyValues(output[j], [key])[0];
            && (a.Null? ==> b.Null?)
            && (!a.Null? && !b.Null? && key.ascending ==> !Precedes(b, a))
            && (!a.Null? && !b.Null? && !key.ascending ==> !Precedes(a, b))
  {
    assert InOrder(KeyValues(output[i], [key]), KeyValues(output[j], [key]), Directions([key]));
    assert TiedUpTo(KeyValues(output[i], [key]), KeyValues(output[j], [key]), 0);
  }

  /** The plan of a SELECT with ORDER BY sorts by its columns, in its directions. */
  ghost predicate SortsBy(ast: SelectAst, plan: QueryPlan, scope: Scope) {
    && plan.root.Sort? && |plan.root.keys| == |ast.orderBy|
    && forall i :: 0 <= i < |ast.orderBy| ==>
         && plan.root.keys[i].ascending == ast.orderBy[i].ascending
         && Resolve(scope, ast.orderBy[i].name).Some?
         && plan.root.keys[i].slot == SlotIn(scope, 0, Resolve(scope, ast.orderBy[i].name).value.ref)
  }

  lemma BoundOrder(ast: SelectAst, from: BoundFrom)
    requires from.scope != [] && BindClauses(ast, from).Some?
    ensures var order := OptimizeSelect(BindClauses(ast, from).value).orderBy;
            && |order| == |ast.orderBy|
            && forall i :: 0 <= i < |order| ==>
                 && order[i].ascending == ast.orderBy[i].ascending && Resolve(from.scope, ast.orderBy[i].name).Some?
                 && order[i].column == Resolve(from.scope, ast.orderBy[i].name).value.ref
  {
  }

  /** An accepted SELECT with ORDER BY sorts what lies below by the columns it names, in the directions it names,
      and what it then projects is in that order, tied keys in their input order. */
  lemma OrderByIsObeyed(ast: SelectAst, catalog: Catalog, tables: Tables, limit: nat, f: Floats)
    requires AnalyzedSelect(ast, catalog) && TablesOk(catalog, tables) && PlanHeight(ast) < MAX_PLAN_DEPTH &&
      ast.orderBy != []
    ensures BindFrom(catalog, ast.table, ast.joins).Some? && Compile(ast, catalog).Some?
    ensures SortsBy(ast, Compile(ast, catalog).value, BindFrom(catalog, ast.table, ast.joins).value.scope)
    ensures var root := Compile(ast, catalog).value.root;
            var input, output := Reference(catalog, tables, root.child, 2, limit, f),
                Reference(catalog, tables, root, 1, limit, f);
            output.Ok? ==> input.Ok? && OrderedBy(input.value, output.value, root.keys)
  {
    CompiledSorts(ast, catalog);
    SelectIsAccepted(ast, catalog);
    var root := Compile(ast, catalog).value.root;
    if Reference(catalog, tables, root, 1, limit, f).Ok? {
      ValidSortIsOrdered(catalog, tables, root.keys, root.child, 1, [], limit, f);
    }
  }

  lemma PlannedSorts(catalog: Catalog, s: BoundSelect, scope: Scope)
    requires CatalogOk(catalog) && InCatalog(scope, catalog) && GoodSelect(s, scope) && s.orderBy != []
    ensures var plan := GenerateSelect(s, catalog);
            && plan.Some? && plan.value.root.Sort? && |plan.value.root.keys| == |s.orderBy|
            && forall i :: 0 <= i < |s.orderBy| ==>
                 plan.value.root.keys[i] == SortKey(SlotIn(scope, 0, s.orderBy[i].column), s.orderBy[i].ascending)
  {
    var tree, filter, items, keys := SelectPlanned(catalog, s, scope);
    assert forall i :: 0 <= i < |s.orderBy| ==> GoodColumn(s.orderBy[i].column, s, scope);
    OrderPlanned(s.orderBy, scope);
  }

  lemma CompiledGood(ast: SelectAst, catalog: Catalog)
    requires AnalyzedSelect(ast, catalog)
    ensures BindFrom(catalog, ast.table, ast.joins).Some?
    ensures var from := BindFrom(catalog, ast.table, ast.joins).value;
            && from.scope != [] && BindClauses(ast, from).Some? && InCatalog(from.scope, catalog)
            && AnalyzeSelect(ast, catalog) == BindClauses(ast, from)
            && GoodSelect(OptimizeSelect(BindClauses(ast, from).value), from.scope)
  {
    AnalyzeGood(ast, catalog);
    FromShape(catalog, ast.table, ast.joins);
    OptimizeGood(AnalyzeSelect(ast, catalog).value, BindFrom(catalog, ast.table, ast.joins).value.scope);
  }

  lemma CompiledSorts(ast: SelectAst, catalog: Catalog)
    requires AnalyzedSelect(ast, catalog) && ast.orderBy != []
    ensures BindFrom(catalog, ast.table, ast.joins).Some? && Compile(ast, catalog).Some?
    ensures SortsBy(ast, Compile(ast, catalog).value, BindFrom(catalog, ast.table, ast.joins).value.scope)
  {
    CompiledGood(ast, catalog);
    var from := BindFrom(catalog, ast.table, ast.joins).value;
    BoundOrder(ast, from);
    PlannedSorts(catalog, OptimizeSelect(BindClauses(ast, from).value), from.scope);
  }
}
