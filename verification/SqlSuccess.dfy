/** When a SELECT without grouping is answered: exactly when no table and no join is beyond the row limit and every
    sort key is a number that can be ordered (src/core/executor.cpp). */
module SqlSuccess {
  import opened Common
  import opened Values
  import opened Expressions
  import opened Optimizer
  import opened Binding
  import opened Pipeline
  import opened Aggregates
  import opened Plans
  import opened PlanRows
  import opened Sorting
  import opened Select
  import opened SelectAnalysis
  import opened SelectPlans
  import opened SelectAccepted
  import opened Execution
  import opened SqlMeaning
  import opened SqlNames
  import opened SqlJoins
  import opened SqlFilters
  import opened SqlSorting
  import opened SqlAnswers
  import opened SqlTheorem
  import FiniteData
  import HashJoin
  import SelectOptimized
  import SortFaults

  // ---------------------------------------------------------------- the conditions, on the stored data

  /** The first n + 1 tables, and the tuples of each of their first n joins, are within the limit. */
  ghost predicate Fits(ast: SelectAst, from: Scope, tables: Tables, limit: nat, n: nat)
    requires n <= |ast.joins| < |from|
  {
    && (forall i :: 0 <= i <= n ==> |tables(from[i].id)| <= limit)
    && (forall j :: 0 < j <= n ==> JoinFits(ast, from, tables, limit, j))
  }

  ghost predicate JoinFits(ast: SelectAst, from: Scope, tables: Tables, limit: nat, j: nat)
    requires j <= |ast.joins| < |from|
  {
    |JoinedTuples(ast, from, tables, j)| <= limit
  }

  /** No named key of the tuple is an infinity or a NaN. */
  ghost predicate FiniteOrder(from: Scope, orderBy: seq<AstSort>, t: Tuple) {
    forall k :: 0 <= k < |orderBy| ==>
      var v := ValueOf(from, t, orderBy[k].name); v.Double? ==> IsFinite(v.bits)
  }

  ghost predicate AllFiniteOrder(from: Scope, orderBy: seq<AstSort>, ts: seq<Tuple>) {
    forall i :: 0 <= i < |ts| ==> FiniteOrder(from, orderBy, ts[i])
  }

  // ---------------------------------------------------------------- scans and joins

  /** A node ends well exactly when the condition holds; otherwise it has too many rows, unless the plan is at fault. */
  ghost predicate EndsIff(r: Result<Rows, ExecError>, fits: bool) {
    match r
    case Ok(_) => fits
    case Err(e) => e.Invalid? || (e.TooManyRows? && !fits)
  }

  lemma ScanEnds(catalog: Catalog, tables: Tables, from: Scope, k: nat, depth: nat, limit: nat, f: Floats)
    requires CatalogOk(catalog) && InCatalog(from, catalog) && TablesOk(catalog, tables) && DistinctIds(from)
    requires k < |from|
    ensures EndsIff(Reference(catalog, tables, ScanOf(from, k), depth, limit, f), |tables(from[k].id)| <= limit)
  {
    FindTableOf(catalog, from[k]);
    ScanRowIs(from, k, Width(from[..k]));
    SortFaults.ScanDelivers(from[k], tables(from[k].id), ScanColumns(|from[k].columns|, Width(from[..k])), limit);
  }

  lemma JoinRowsEnds(left: Rows, right: Rows, condition: Expr<nat>, limit: nat)
    requires HashJoin.AllSound(HashJoin.Pairs(left, right), condition)
    ensures EndsIff(JoinRows(left, right, condition, limit),
                    |HashJoin.Kept(HashJoin.Pairs(left, right), condition)| <= limit)
  {
    HashJoin.PushAllKeeps([], HashJoin.Pairs(left, right), condition, limit);
    assert [] + HashJoin.Kept(HashJoin.Pairs(left, right), condition) ==
           HashJoin.Kept(HashJoin.Pairs(left, right), condition);
  }

  /** A join of tuples ends well exactly when the kept tuples are within the limit. */
  lemma KeptEnds(from: Scope, k: nat, ts: seq<Tuple>, rows: seq<Row>, condition: Expr<nat>, p: Tuple -> bool,
                 limit: nat)
    requires DistinctIds(from) && k < |from| && AllSized(k, ts) && RowsFit(from[k], rows)
    requires AllSized(k + 1, Extend(ts, rows)) && Decides(condition, from[..k + 1], Extend(ts, rows), p)
    ensures EndsIff(JoinRows(PlanRowsOf(from[..k], ts), ScannedRows(from, k, rows), condition, limit),
                    |Keep(Extend(ts, rows), p)| <= limit)
  {
    PairsAreExtended(from, k, ts, rows);
    KeptAreTuples(condition, from[..k + 1], Extend(ts, rows), p);
    JoinRowsEnds(PlanRowsOf(from[..k], ts), ScannedRows(from, k, rows), condition, limit);
  }

  lemma InputsEnd(catalog: Catalog, tables: Tables, ast: SelectAst, from: Scope, s: BoundSelect, n: nat,
                  condition: Expr<nat>, limit: nat)
    requires FromSetting(catalog, tables, ast, from, s) && 0 < n <= |s.joins|
    requires Accepted(ast.joins[n - 1].condition, from[..n + 1])
    requires Some(condition) == Planned(ast.joins[n - 1].condition, from[..n + 1])
    requires AllSized(n, JoinedTuples(ast, from, tables, n - 1)) && RowsFit(from[n], tables(from[n].id))
    ensures var l, r := PlanRowsOf(from[..n], JoinedTuples(ast, from, tables, n - 1)),
              ScannedRows(from, n, tables(from[n].id));
            EndsIff(JoinRows(l, r, condition, limit), JoinFits(ast, from, tables, limit, n))
  {
    var e, scope := ast.joins[n - 1].condition, from[..n + 1];
    var before, rows := JoinedTuples(ast, from, tables, n - 1), tables(from[n].id);
    SanePrefix(from, n + 1);
    JoinedTuplesOk(catalog, tables, ast, from, n - 1);
    ExtendOk(from, n, before, rows);
    ExtendSized(n, before, rows);
    ConditionDecides(e, scope, Extend(before, rows));
    KeptEnds(from, n, before, rows, condition, Truths(e, scope), limit);
    JoinedTuplesStep(ast, from, tables, n);
  }

  lemma FitsStep(ast: SelectAst, from: Scope, tables: Tables, limit: nat, n: nat)
    requires 0 < n <= |ast.joins| < |from|
    ensures Fits(ast, from, tables, limit, n) <==>
            && Fits(ast, from, tables, limit, n - 1)
            && |tables(from[n].id)| <= limit && JoinFits(ast, from, tables, limit, n)
  {
  }

  /** What a join node makes of its inputs' ends. */
  lemma JoinNodeEnds(catalog: Catalog, tables: Tables, node: Node, depth: nat, limit: nat, f: Floats, left: bool,
                     right: bool, joined: bool)
    requires node.Join?
    requires EndsIff(Reference(catalog, tables, node.left, depth + 1, limit, f), left)
    requires EndsIff(Reference(catalog, tables, node.right, depth + 1, limit, f), right)
    requires var l := Reference(catalog, tables, node.left, depth + 1, limit, f);
             var r := Reference(catalog, tables, node.right, depth + 1, limit, f);
             l.Ok? && r.Ok? ==> EndsIff(JoinRows(l.value, r.value, node.condition, limit), joined)
    ensures EndsIff(Reference(catalog, tables, node, depth, limit, f), left && right && joined)
  {
  }

  lemma StepShape(ast: SelectAst, catalog: Catalog, tables: Tables, from: Scope, s: BoundSelect, n: nat)
    requires FromSetting(catalog, tables, ast, from, s) && 0 < n <= |s.joins|
    requires JoinTree(s, from, n - 1).Some?
    ensures JoinTree(s, from, n).Some?
    ensures var node := JoinTree(s, from, n).value;
            && node.Join? && node.left == JoinTree(s, from, n - 1).value && node.right == ScanOf(from, n)
            && Accepted(ast.joins[n - 1].condition, from[..n + 1])
            && Some(node.condition) == Planned(ast.joins[n - 1].condition, from[..n + 1])
  {
    JoinTreeStep(s, from, n);
    BuildPrefix(from, n + 1);
    assert ConditionPlanned(ast, from, s, n - 1);
  }

  /** The inputs of a join, when both end well, are the tuples so far and the next table's rows. */
  lemma InputsDelivered(catalog: Catalog, tables: Tables, ast: SelectAst, from: Scope, s: BoundSelect, n: nat,
                        depth: nat, limit: nat, f: Floats)
    requires FromSetting(catalog, tables, ast, from, s) && 0 < n <= |s.joins| && JoinTree(s, from, n - 1).Some?
    requires Reference(catalog, tables, JoinTree(s, from, n - 1).value, depth, limit, f).Ok?
    requires Reference(catalog, tables, ScanOf(from, n), depth, limit, f).Ok?
    ensures AllSized(n, JoinedTuples(ast, from, tables, n - 1)) && RowsFit(from[n], tables(from[n].id))
    ensures Reference(catalog, tables, JoinTree(s, from, n - 1).value, depth, limit, f).value ==
            PlanRowsOf(from[..n], JoinedTuples(ast, from, tables, n - 1))
    ensures Reference(catalog, tables, ScanOf(from, n), depth, limit, f).value ==
            ScannedRows(from, n, tables(from[n].id))
  {
    TreeDelivers(catalog, tables, ast, from, s, n - 1, depth, limit, f);
    ScanIsContents(catalog, tables, from, n, depth, limit, f);
  }

  lemma StepEnds(catalog: Catalog, tables: Tables, ast: SelectAst, from: Scope, s: BoundSelect, n: nat, node: Node,
                 depth: nat, limit: nat, f: Floats)
    requires FromSetting(catalog, tables, ast, from, s) && 0 < n <= |s.joins| && JoinTree(s, from, n - 1).Some?
    requires node.Join? && node.left == JoinTree(s, from, n - 1).value && node.right == ScanOf(from, n)
    requires Accepted(ast.joins[n - 1].condition, from[..n + 1])
    requires Some(node.condition) == Planned(ast.joins[n - 1].condition, from[..n + 1])
    requires EndsIff(Reference(catalog, tables, node.left, depth + 1, limit, f), Fits(ast, from, tables, limit, n - 1))
    ensures EndsIff(Reference(catalog, tables, node, depth, limit, f), Fits(ast, from, tables, limit, n))
  {
    ScanEnds(catalog, tables, from, n, depth + 1, limit, f);
    if Reference(catalog, tables, node.left, depth + 1, limit, f).Ok? &&
       Reference(catalog, tables, node.right, depth + 1, limit, f).Ok?
    {
      InputsDelivered(catalog, tables, ast, from, s, n, depth + 1, limit, f);
      InputsEnd(catalog, tables, ast, from, s, n, node.condition, limit);
    }
    JoinNodeEnds(catalog, tables, node, depth, limit, f, Fits(ast, from, tables, limit, n - 1),
                 |tables(from[n].id)| <= limit, JoinFits(ast, from, tables, limit, n));
    FitsStep(ast, from, tables, limit, n);
  }

  lemma {:induction false} TreeEnds(catalog: Catalog, tables: Tables, ast: SelectAst, from: Scope, s: BoundSelect,
                                    n: nat, depth: nat, limit: nat, f: Floats)
    requires FromSetting(catalog, tables, ast, from, s) && n <= |s.joins| && JoinTree(s, from, n).Some?
    ensures EndsIff(Reference(catalog, tables, JoinTree(s, from, n).value, depth, limit, f),
                    Fits(ast, from, tables, limit, n))
    decreases n
  {
    if n == 0 {
      FirstTree(s, from);
      ScanEnds(catalog, tables, from, 0, depth, limit, f);
    } else {
      JoinTreePlanned(s, from, n - 1);
      TreeEnds(catalog, tables, ast, from, s, n - 1, depth + 1, limit, f);
      StepShape(ast, catalog, tables, from, s, n);
      StepEnds(catalog, tables, ast, from, s, n, JoinTree(s, from, n).value, depth, limit, f);
    }
  }

  // ---------------------------------------------------------------- filter and order

  /** A filter neither adds an error nor hides one. */
  lemma InnerEnds(catalog: Catalog, tables: Tables, ast: SelectAst, from: Scope, s: BoundSelect, tree: Node,
                  filter: Option<Expr<nat>>, depth: nat, limit: nat, f: Floats)
    requires FromSetting(catalog, tables, ast, from, s) && JoinTree(s, from, |s.joins|) == Some(tree)
    requires FilterPlannedAs(ast, from, filter)
    ensures EndsIff(Reference(catalog, tables, AddFilter(filter, tree), depth, limit, f),
                    Fits(ast, from, tables, limit, |ast.joins|))
  {
    var n := |ast.joins|;
    if filter.Some? && depth >= MAX_PLAN_DEPTH {
      assert Reference(catalog, tables, AddFilter(filter, tree), depth, limit, f) == Err(Invalid);
    } else {
      var level := if filter.None? then depth else depth + 1;
      SelectOptimized.FilterReference(catalog, tables, filter, tree, depth, limit, f);
      TreeEnds(catalog, tables, ast, from, s, n, level, limit, f);
      TreeDelivers(catalog, tables, ast, from, s, n, level, limit, f);
      JoinedTuplesOk(catalog, tables, ast, from, n);
      assert from[..n + 1] == from;
      if ast.filter.Some? {
        FilteredTuples(ast, from, filter, JoinedTuples(ast, from, tables, n));
      }
    }
  }

  lemma KeyIsNamed(from: Scope, order: AstSort, key: SortKey, t: Tuple)
    requires Sane(from) && TupleOk(from, t) && KeyPlanned(from, false, [], order, key)
    ensures Lookup(PlanRow(from, t), key.slot) == Ok(ValueOf(from, t, order.name))
  {
    ResolvedInScope(from, order.name);
    var ref := Resolve(from, order.name).value.ref;
    SlotHoldsColumn(from, 0, BoundEnv(from, t), ref);
    NameValue(from, t, order.name);
  }

  lemma FiniteKeysAreNamed(from: Scope, orderBy: seq<AstSort>, keys: seq<SortKey>, t: Tuple)
    requires Sane(from) && TupleOk(from, t) && KeysPlanned(from, false, [], orderBy, keys)
    ensures FiniteData.FiniteKeys(PlanRow(from, t), keys) <==> FiniteOrder(from, orderBy, t)
  {
    forall k | 0 <= k < |keys|
      ensures Lookup(PlanRow(from, t), keys[k].slot) == Ok(ValueOf(from, t, orderBy[k].name))
    {
      assert KeyPlanned(from, false, [], orderBy[k], keys[k]);
      KeyIsNamed(from, orderBy[k], keys[k], t);
    }
  }

  lemma AllKeysAreNamed(from: Scope, orderBy: seq<AstSort>, keys: seq<SortKey>, ts: seq<Tuple>)
    requires Sane(from) && AllOk(from, ts) && KeysPlanned(from, false, [], orderBy, keys)
    ensures FiniteData.AllKeysFinite(PlanRowsOf(from, ts), keys) <==> AllFiniteOrder(from, orderBy, ts)
  {
    forall i | 0 <= i < |ts|
      ensures FiniteData.FiniteKeys(PlanRowsOf(from, ts)[i], keys) <==> FiniteOrder(from, orderBy, ts[i])
    {
      FiniteKeysAreNamed(from, orderBy, keys, ts[i]);
    }
  }

  /** How the query ends: with its rows, with too many, or with a sort key that cannot be ordered. */
  ghost predicate PlainEnds(r: Result<Rows, ExecError>, fits: bool, finite: bool) {
    match r
    case Ok(_) => fits && finite
    case Err(e) => e.Invalid? || (e.TooManyRows? && !fits) || (e.NonFiniteSortKey? && fits && !finite)
  }

  lemma SortNodeEnds(catalog: Catalog, tables: Tables, child: Node, keys: seq<SortKey>, depth: nat, limit: nat,
                     f: Floats, fits: bool, rows: Rows)
    requires var r := Reference(catalog, tables, child, if keys != [] then depth + 1 else depth, limit, f);
             EndsIff(r, fits) && (r.Ok? ==> r.value == rows)
    ensures PlainEnds(Reference(catalog, tables, AddSort(keys, child), depth, limit, f), fits,
                      FiniteData.AllKeysFinite(rows, keys))
  {
    if keys != [] {
      FiniteData.PrepareFinite(rows, keys);
    }
  }

  lemma SortEnds(catalog: Catalog, tables: Tables, ast: SelectAst, from: Scope, child: Node, keys: seq<SortKey>,
                 depth: nat, limit: nat, f: Floats, fits: bool)
    requires Sane(from) && AllOk(from, Selected(ast, from, tables)) && KeysPlanned(from, false, [], ast.orderBy, keys)
    requires var r := Reference(catalog, tables, child, if keys != [] then depth + 1 else depth, limit, f);
             EndsIff(r, fits) && (r.Ok? ==> r.value == PlanRowsOf(from, Selected(ast, from, tables)))
    ensures PlainEnds(Reference(catalog, tables, AddSort(keys, child), depth, limit, f), fits,
                      AllFiniteOrder(from, ast.orderBy, Selected(ast, from, tables)))
  {
    var ts := Selected(ast, from, tables);
    AllKeysAreNamed(from, ast.orderBy, keys, ts);
    SortNodeEnds(catalog, tables, child, keys, depth, limit, f, fits, PlanRowsOf(from, ts));
  }

  lemma SelectedIsOk(catalog: Catalog, tables: Tables, ast: SelectAst, from: Scope, s: BoundSelect)
    requires FromSetting(catalog, tables, ast, from, s)
    ensures AllOk(from, Selected(ast, from, tables))
  {
    var n := |ast.joins|;
    JoinedTuplesOk(catalog, tables, ast, from, n);
    assert from[..n + 1] == from;
    SelectedIsFiltered(ast, from, tables);
    if ast.filter.Some? {
      KeptAreThere(JoinedTuples(ast, from, tables, n), Truths(ast.filter.value, from));
    }
  }

  lemma ChildEnds(catalog: Catalog, tables: Tables, ast: SelectAst, from: Scope, s: BoundSelect, tree: Node,
                  filter: Option<Expr<nat>>, level: nat, limit: nat, f: Floats)
    requires FromSetting(catalog, tables, ast, from, s) && JoinTree(s, from, |s.joins|) == Some(tree)
    requires FilterPlannedAs(ast, from, filter)
    ensures AllOk(from, Selected(ast, from, tables))
    ensures var r := Reference(catalog, tables, AddFilter(filter, tree), level, limit, f);
            && EndsIff(r, Fits(ast, from, tables, limit, |ast.joins|))
            && (r.Ok? ==> r.value == PlanRowsOf(from, Selected(ast, from, tables)))
  {
    SelectedIsOk(catalog, tables, ast, from, s);
    InnerEnds(catalog, tables, ast, from, s, tree, filter, level, limit, f);
    if Reference(catalog, tables, AddFilter(filter, tree), level, limit, f).Ok? {
      InnerDelivers(catalog, tables, ast, from, s, tree, filter, level, limit, f);
    }
  }

  /** Without grouping the plan is joins, filter and sort. */
  ghost predicate PlainRoot(ast: SelectAst, from: Scope, s: BoundSelect, root: Node, tree: Node,
                            filter: Option<Expr<nat>>, keys: seq<SortKey>)
  {
    && |from| == |s.joins| + 1 && JoinTree(s, from, |s.joins|) == Some(tree) && FilterPlannedAs(ast, from, filter)
    && KeysPlanned(from, false, [], ast.orderBy, keys) && root == AddSort(keys, AddFilter(filter, tree))
  }

  lemma RootIsPlain(ast: SelectAst, from: Scope, s: BoundSelect, plan: QueryPlan, tree: Node,
                    filter: Option<Expr<nat>>, items: ItemPlan, keys: seq<SortKey>)
    requires Assembled(s, from, plan, tree, filter, items, keys) && ClausesPlanned(ast, from, s, filter, items, keys)
    requires s.groupBy == [] && items.calls == []
    ensures PlainRoot(ast, from, s, plan.root, tree, filter, keys)
  {
    assert SlotsOf(s.groupBy, from) == [];
  }

  lemma RootEnds(catalog: Catalog, tables: Tables, ast: SelectAst, from: Scope, s: BoundSelect, root: Node,
                 tree: Node, filter: Option<Expr<nat>>, keys: seq<SortKey>, limit: nat, f: Floats)
    requires FromSetting(catalog, tables, ast, from, s) && PlainRoot(ast, from, s, root, tree, filter, keys)
    ensures PlainEnds(Reference(catalog, tables, root, 1, limit, f), Fits(ast, from, tables, limit, |ast.joins|),
                      AllFiniteOrder(from, ast.orderBy, Selected(ast, from, tables)))
  {
    ChildEnds(catalog, tables, ast, from, s, tree, filter, if keys != [] then 2 else 1, limit, f);
    SortEnds(catalog, tables, ast, from, AddFilter(filter, tree), keys, 1, limit, f,
             Fits(ast, from, tables, limit, |ast.joins|));
  }

  lemma CompiledEnds(ast: SelectAst, catalog: Catalog, tables: Tables, limit: nat, f: Floats, from: BoundFrom,
                     s: BoundSelect, plan: QueryPlan)
    requires SqlTheorem.Analyzed(ast, catalog, from, s) && TablesOk(catalog, tables)
    requires GenerateSelect(s, catalog) == Some(plan)
    requires ast.groupBy == [] && !HasAggregate(ast.items)
    ensures from.scope == Relations(catalog, TableNames(ast)) && |ast.joins| < |from.scope|
    ensures PlainEnds(Reference(catalog, tables, plan.root, 1, limit, f),
                      Fits(ast, from.scope, tables, limit, |ast.joins|),
                      AllFiniteOrder(from.scope, ast.orderBy, Selected(ast, from.scope, tables)))
  {
    FromSettingHolds(ast, catalog, tables, from, s);
    var tree, filter, items, keys := SelectPlanned(catalog, s, from.scope);
    ClausesArePlanned(ast, catalog, from, s, filter, items, keys);
    RootIsPlain(ast, from.scope, s, plan, tree, filter, items, keys);
    RootEnds(catalog, tables, ast, from.scope, s, plan.root, tree, filter, keys, limit, f);
  }

  /** The outcome of a SELECT without grouping, told from the stored data. */
  ghost predicate Outcome(r: Result<seq<Row>, ExecError>, fits: bool, finite: bool) {
    if !fits then r == Err(TooManyRows) else if !finite then r == Err(NonFiniteSortKey) else r.Ok?
  }

  /**
   A SELECT without grouping whose plan is accepted is answered exactly when each of its tables and each of its joins
   is within the row limit and no selected tuple has an infinity or a NaN at a name it is sorted by. Otherwise the
   error says which it was.
   */
  lemma PlainSelectEnds(ast: SelectAst, catalog: Catalog, tables: Tables, limit: nat, f: Floats)
    requires AnalyzedSelect(ast, catalog) && TablesOk(catalog, tables) && PlanHeight(ast) < MAX_PLAN_DEPTH
    requires ast.groupBy == [] && !HasAggregate(ast.items)
    ensures Compile(ast, catalog).Some?
    ensures var from := Relations(catalog, TableNames(ast));
            && |ast.joins| < |from|
            && Outcome(Answer(catalog, tables, Compile(ast, catalog).value, limit, f),
                       Fits(ast, from, tables, limit, |ast.joins|),
                       AllFiniteOrder(from, ast.orderBy, Selected(ast, from, tables)))
  {
    SelectRunsSoundly(ast, catalog, tables, limit, f);
    FromShape(catalog, ast.table, ast.joins);
    CompiledEnds(ast, catalog, tables, limit, f, BindFrom(catalog, ast.table, ast.joins).value,
                 OptimizeSelect(AnalyzeSelect(ast, catalog).value), Compile(ast, catalog).value);
  }
}
