/** Optimization leaves the answer of every SELECT unchanged. */
module SelectOptimized {
  import opened Common
  import opened Values
  import opened Expressions
  import opened Optimizer
  import opened Binding
  import opened Pipeline
  import opened Aggregates
  import opened Plans
  import opened PlanRows
  import opened Select
  import opened SelectAnalysis
  import opened SelectPlans
  import opened SelectAccepted
  import opened Execution
  import opened Executor

  // ---------------------------------------------------------------- one predicate on one row

  /** The column values a row of the typed shape holds. */
  ghost function EnvOf(row: SlotRow, scope: Scope): BoundColumn -> Value {
    b => if InScope(b, scope) &&
        FirstBinding(row, SlotIn(scope, 0, b)).Some? then FirstBinding(row, SlotIn(scope, 0, b)).value else Null
  }

  lemma RowHoldsEnv(row: SlotRow, scope: Scope)
    requires DistinctIds(scope) && Conforms(row, FullRow(scope))
    ensures RowHolds(row, scope, 0, EnvOf(row, scope)) && EnvOk(EnvOf(row, scope), Types(scope))
  {
    var env := EnvOf(row, scope);
    forall b | InScope(b, scope)
      ensures Lookup(row, SlotIn(scope, 0, b)) == Ok(env(b)) && HasType(env(b), TypeIn(scope, b))
    {
      ColumnInRow(scope, b);
      LookupSound(row, FullRow(scope), SlotIn(scope, 0, b));
    }
  }

  lemma PlainPredicate(e: Expr<BoundColumn>, scope: Scope, row: SlotRow, env: BoundColumn -> Value)
    requires GoodPredicate(e, scope) && DistinctIds(scope) && RowHolds(row, scope, 0, env) && EnvOk(env, Types(scope))
    ensures GenerateExpr(e, BuildBindings(scope, 0)).Some?
    ensures EvaluatePredicate(GenerateExpr(e, BuildBindings(scope, 0)).value, row) ==
      Ok(Meaning(e, env) == Ok(Bool(true)))
  {
    MeaningTyped(e, env, Types(scope));
    GenerateKeepsMeaning(e, scope, 0, row, env, 0);
  }

  /** The planned predicate and the planned rewritten predicate agree on every row of the typed shape. */
  lemma SamePredicate(e: Expr<BoundColumn>, scope: Scope, row: SlotRow)
    requires GoodPredicate(e, scope) && DistinctIds(scope) && Conforms(row, FullRow(scope))
    ensures GenerateExpr(e, BuildBindings(scope, 0)).Some? &&
      GenerateExpr(Optimize(e).expr, BuildBindings(scope, 0)).Some?
    ensures EvaluatePredicate(GenerateExpr(e, BuildBindings(scope, 0)).value, row) ==
            EvaluatePredicate(GenerateExpr(Optimize(e).expr, BuildBindings(scope, 0)).value, row)
    ensures Optimize(e).constant == Some(True) ==>
      EvaluatePredicate(GenerateExpr(e, BuildBindings(scope, 0)).value, row) == Ok(true)
  {
    var env := EnvOf(row, scope);
    RowHoldsEnv(row, scope);
    PlainPredicate(e, scope, row, env);
    OptimizedPredicateIsSound(e, scope, 0, row, env);
    OptimizeAgrees(e, env, Types(scope));
  }

  // ---------------------------------------------------------------- filters and joins

  lemma {:induction false} SameFilter(p: Expr<nat>, q: Expr<nat>, rows: Rows)
    requires forall i :: 0 <= i < |rows| ==> EvaluatePredicate(p, rows[i]) == EvaluatePredicate(q, rows[i])
    ensures FilterRows(p, rows) == FilterRows(q, rows)
  {
    if rows != [] {
      SameFilter(p, q, rows[..|rows| - 1]);
    }
  }

  lemma {:induction false} TrueFilter(p: Expr<nat>, rows: Rows)
    requires forall i :: 0 <= i < |rows| ==> EvaluatePredicate(p, rows[i]) == Ok(true)
    ensures FilterRows(p, rows) == Ok(rows)
  {
    if rows != [] {
      TrueFilter(p, rows[..|rows| - 1]);
      assert rows == rows[..|rows| - 1] + [rows[|rows| - 1]];
    }
  }

  lemma {:induction false} SamePushes(joined: Rows, candidates: Rows, p: Expr<nat>, q: Expr<nat>, limit: nat)
    requires forall i :: 0 <= i < |candidates| ==>
      EvaluatePredicate(p, candidates[i]) == EvaluatePredicate(q, candidates[i])
    ensures HashJoin.PushAll(joined, candidates, p, limit) == HashJoin.PushAll(joined, candidates, q, limit)
    decreases |candidates|
  {
    if candidates != [] {
      var next := HashJoin.PushMatch(joined, candidates[0], p, limit);
      if next.Ok? {
        SamePushes(next.value, candidates[1..], p, q, limit);
      }
    }
  }

  /** One join: equal inputs of the typed shapes give equal outputs under either condition. */
  lemma SameJoin(s: BoundSelect, scope: Scope, i: nat, left: Rows, right: Rows, limit: nat)
    requires GoodFrom(s, scope) && i < |s.joins|
    requires AllConform(left, TypedRow(scope, i + 1)) && AllConform(right, SelectPlans.Part(scope, i + 1))
    ensures var p := GenerateExpr(s.joins[i].condition, BuildBindings(scope, 0)[..i + 2]);
            var q := GenerateExpr(Optimize(s.joins[i].condition).expr, BuildBindings(scope, 0)[..i + 2]);
            p.Some? && q.Some? && JoinRows(left, right, p.value, limit) == JoinRows(left, right, q.value, limit)
  {
    var own, e := scope[..i + 2], s.joins[i].condition;
    BuildPrefix(scope, i + 2);
    OptimizeGoodPredicate(e, own);
    GoodPredicateValid(e, own);
    GoodPredicateValid(Optimize(e).expr, own);
    TypedRowGrows(scope, i + 1);
    TypedRowOfPrefix(scope, i + 2);
    PairsConform(left, right, TypedRow(scope, i + 1), SelectPlans.Part(scope, i + 1));
    var pairs := HashJoin.Pairs(left, right);
    var p, q := GenerateExpr(e, BuildBindings(own, 0)).value,
        GenerateExpr(Optimize(e).expr, BuildBindings(own, 0)).value;
    forall k | 0 <= k < |pairs| ensures EvaluatePredicate(p, pairs[k]) == EvaluatePredicate(q, pairs[k]) {
      SamePredicate(e, own, pairs[k]);
    }
    SamePushes([], pairs, p, q, limit);
  }

  // ---------------------------------------------------------------- the join tree

  lemma ScanRowsConform(catalog: Catalog, tables: Tables, scope: Scope, k: nat, limit: nat, f: Floats, depth: nat)
    requires CatalogOk(catalog) && InCatalog(scope, catalog) && DistinctIds(scope) && TablesOk(catalog, tables)
    requires k < |scope| && depth < MAX_PLAN_DEPTH
    ensures SoundOutcome(Reference(catalog, tables, ScanOf(scope, k), depth, limit, f), SelectPlans.Part(scope, k))
  {
    ScanValid(catalog, scope, k, depth);
    ValidPlansAreSound(catalog, tables, ScanOf(scope, k), depth, TypedRow(scope, k), limit, f);
  }

  lemma TreeRowsConform(catalog: Catalog, tables: Tables, s: BoundSelect, scope: Scope, n: nat, limit: nat, f: Floats,
                        depth: nat)
    requires CatalogOk(catalog) && InCatalog(scope, catalog) && GoodFrom(s, scope) && TablesOk(catalog, tables)
    requires n <= |s.joins| && depth + n < MAX_PLAN_DEPTH
    ensures TreeValid(catalog, s, scope, n, depth)
    ensures SoundOutcome(Reference(catalog, tables, JoinTree(s, scope, n).value, depth, limit, f),
      TypedRow(scope, n + 1))
  {
    JoinTreeValid(catalog, s, scope, n, depth);
    ValidPlansAreSound(catalog, tables, JoinTree(s, scope, n).value, depth, [], limit, f);
  }

  lemma GoodFromOptimized(s: BoundSelect, scope: Scope)
    requires GoodFrom(s, scope)
    ensures GoodFrom(OptimizeSelect(s), scope)
  {
    forall i | 0 <= i < |s.joins| ensures GoodPredicate(Optimize(s.joins[i].condition).expr, scope[..i + 2]) {
      OptimizeGoodPredicate(s.joins[i].condition, scope[..i + 2]);
    }
  }

  /** Two join nodes over equal inputs agree when their conditions give the same join. */
  lemma SameJoinNodes(catalog: Catalog, tables: Tables, a: Node, b: Node, depth: nat, depth': nat, limit: nat,
                      f: Floats)
    requires a.Join? && b.Join? && depth < MAX_PLAN_DEPTH && depth' < MAX_PLAN_DEPTH
    requires Reference(catalog, tables, a.left, depth + 1, limit, f) ==
      Reference(catalog, tables, b.left, depth' + 1, limit, f)
    requires Reference(catalog, tables, a.right, depth + 1, limit, f) ==
      Reference(catalog, tables, b.right, depth' + 1, limit, f)
    requires var l, r := Reference(catalog, tables, a.left, depth + 1, limit, f),
      Reference(catalog, tables, a.right, depth + 1, limit, f);
             l.Ok? && r.Ok? ==>
                 JoinRows(l.value, r.value, a.condition, limit) ==
                 JoinRows(l.value, r.value, b.condition, limit)
    ensures Reference(catalog, tables, a, depth, limit, f) == Reference(catalog, tables, b, depth', limit, f)
  {
  }

  lemma ScanAnywhere(catalog: Catalog, tables: Tables, node: Node, depth: nat, depth': nat, limit: nat, f: Floats)
    requires node.Scan? && depth < MAX_PLAN_DEPTH && depth' < MAX_PLAN_DEPTH
    ensures Reference(catalog, tables, node, depth, limit, f) == Reference(catalog, tables, node, depth', limit, f)
  {
  }

  ghost function TreeRows(catalog: Catalog, tables: Tables, s: BoundSelect, scope: Scope, n: nat, limit: nat,
                          f: Floats, depth: nat): Result<Rows, ExecError>
    requires n <= |s.joins| < |scope| && JoinTree(s, scope, n).Some?
  {
    Reference(catalog, tables, JoinTree(s, scope, n).value, depth, limit, f)
  }

  lemma SameTreeStep(catalog: Catalog, tables: Tables, s: BoundSelect, scope: Scope, n: nat, limit: nat, f: Floats,
                     depth: nat, depth': nat)
    requires CatalogOk(catalog) && InCatalog(scope, catalog) && GoodFrom(s, scope) &&
      GoodFrom(OptimizeSelect(s), scope) && TablesOk(catalog, tables)
    requires 0 < n <= |s.joins| && depth + n < MAX_PLAN_DEPTH && depth' + n < MAX_PLAN_DEPTH
    requires JoinTree(s, scope, n - 1).Some? && JoinTree(OptimizeSelect(s), scope, n - 1).Some?
    requires TreeRows(catalog, tables, s, scope, n - 1, limit, f, depth + 1) ==
             TreeRows(catalog, tables, OptimizeSelect(s), scope, n - 1, limit, f, depth' + 1)
    ensures JoinTree(s, scope, n).Some? && JoinTree(OptimizeSelect(s), scope, n).Some?
    ensures TreeRows(catalog, tables, s, scope, n, limit, f, depth) ==
      TreeRows(catalog, tables, OptimizeSelect(s), scope, n, limit, f, depth')
  {
    var o := OptimizeSelect(s);
    JoinTreeStep(s, scope, n);
    JoinTreeStep(o, scope, n);
    SameInputs(catalog, tables, s, scope, n, limit, f, depth);
    ScanAnywhere(catalog, tables, ScanOf(scope, n), depth + 1, depth' + 1, limit, f);
    SameJoinNodes(catalog, tables, JoinTree(s, scope, n).value, JoinTree(o, scope, n).value, depth, depth', limit, f);
  }

  lemma InputsConform(catalog: Catalog, tables: Tables, s: BoundSelect, scope: Scope, n: nat, limit: nat, f: Floats,
                      depth: nat)
    requires CatalogOk(catalog) && InCatalog(scope, catalog) && GoodFrom(s, scope) && TablesOk(catalog, tables)
    requires 0 < n <= |s.joins| && depth + n < MAX_PLAN_DEPTH && JoinTree(s, scope, n - 1).Some?
    ensures var l := TreeRows(catalog, tables, s, scope, n - 1, limit, f, depth + 1);
            var r := Reference(catalog, tables, ScanOf(scope, n), depth + 1, limit, f);
            && (l.Ok? ==> AllConform(l.value, TypedRow(scope, n)))
            && (r.Ok? ==> AllConform(r.value, SelectPlans.Part(scope, n)))
  {
    TreeRowsConform(catalog, tables, s, scope, n - 1, limit, f, depth + 1);
    ScanRowsConform(catalog, tables, scope, n, limit, f, depth + 1);
  }

  /** The inputs of join n have the typed shapes, so both conditions join them alike. */
  lemma SameInputs(catalog: Catalog, tables: Tables, s: BoundSelect, scope: Scope, n: nat, limit: nat, f: Floats,
                   depth: nat)
    requires CatalogOk(catalog) && InCatalog(scope, catalog) && GoodFrom(s, scope) && TablesOk(catalog, tables)
    requires 0 < n <= |s.joins| && depth + n < MAX_PLAN_DEPTH && JoinTree(s, scope, n - 1).Some?
    ensures var l := TreeRows(catalog, tables, s, scope, n - 1, limit, f, depth + 1);
            var r := Reference(catalog, tables, ScanOf(scope, n), depth + 1, limit, f);
            var p := GenerateExpr(s.joins[n - 1].condition, BuildBindings(scope, 0)[..n + 1]);
            var q := GenerateExpr(Optimize(s.joins[n - 1].condition).expr, BuildBindings(scope, 0)[..n + 1]);
            l.Ok? && r.Ok? ==>
                p.Some? && q.Some? &&
                JoinRows(l.value, r.value, p.value, limit) == JoinRows(l.value, r.value, q.value, limit)
  {
    InputsConform(catalog, tables, s, scope, n, limit, f, depth);
    var l := TreeRows(catalog, tables, s, scope, n - 1, limit, f, depth + 1);
    var r := Reference(catalog, tables, ScanOf(scope, n), depth + 1, limit, f);
    if l.Ok? && r.Ok? {
      SameJoin(s, scope, n - 1, l.value, r.value, limit);
    }
  }

  lemma {:induction false} SameTree(catalog: Catalog, tables: Tables, s: BoundSelect, scope: Scope, n: nat, limit: nat,
                                    f: Floats, depth: nat, depth': nat)
    requires CatalogOk(catalog) && InCatalog(scope, catalog) && GoodFrom(s, scope) && TablesOk(catalog, tables)
    requires n <= |s.joins| && depth + n < MAX_PLAN_DEPTH && depth' + n < MAX_PLAN_DEPTH
    ensures JoinTree(s, scope, n).Some? && JoinTree(OptimizeSelect(s), scope, n).Some?
    ensures TreeRows(catalog, tables, s, scope, n, limit, f, depth) ==
      TreeRows(catalog, tables, OptimizeSelect(s), scope, n, limit, f, depth')
    decreases n
  {
    GoodFromOptimized(s, scope);
    if n == 0 {
      FirstTree(s, scope);
      FirstTree(OptimizeSelect(s), scope);
    } else {
      SameTree(catalog, tables, s, scope, n - 1, limit, f, depth + 1, depth' + 1);
      SameTreeStep(catalog, tables, s, scope, n, limit, f, depth, depth');
    }
  }

  // ---------------------------------------------------------------- the filter

  /** Filtering by the original predicate, by the rewritten one, or by none once it is dropped, is the same. */
  lemma SameFilterNode(s: BoundSelect, scope: Scope, rows: Rows)
    requires GoodSelect(s, scope) && s.filter.Some? && AllConform(rows, FullRow(scope))
    ensures GenerateExpr(s.filter.value, BuildBindings(scope, 0)).Some?
    ensures var o := OptimizePredicate(s.filter);
            var kept := FilterRows(GenerateExpr(s.filter.value, BuildBindings(scope, 0)).value, rows);
            if o.None? then kept == Ok(rows)
            else
              && GenerateExpr(o.value, BuildBindings(scope, 0)).Some?
              && FilterRows(GenerateExpr(o.value, BuildBindings(scope, 0)).value, rows) == kept
  {
    var e, bindings := s.filter.value, BuildBindings(scope, 0);
    GoodPredicateValid(e, scope);
    OptimizeGoodPredicate(e, scope);
    GoodPredicateValid(Optimize(e).expr, scope);
    forall i | 0 <= i < |rows|
      ensures EvaluatePredicate(GenerateExpr(e, bindings).value, rows[i]) ==
        EvaluatePredicate(GenerateExpr(Optimize(e).expr, bindings).value, rows[i])
      ensures Optimize(e).constant == Some(True) ==>
        EvaluatePredicate(GenerateExpr(e, bindings).value, rows[i]) == Ok(true)
    {
      SamePredicate(e, scope, rows[i]);
    }
    if Optimize(e).constant == Some(True) {
      TrueFilter(GenerateExpr(e, bindings).value, rows);
    } else {
      SameFilter(GenerateExpr(e, bindings).value, GenerateExpr(Optimize(e).expr, bindings).value, rows);
    }
  }

  lemma FilterReference(catalog: Catalog, tables: Tables, filter: Option<Expr<nat>>, tree: Node, depth: nat,
                        limit: nat, f: Floats)
    requires filter.Some? ==> depth < MAX_PLAN_DEPTH
    ensures var rows := Reference(catalog, tables, tree, if filter.None? then depth else depth + 1, limit, f);
            Reference(catalog, tables, AddFilter(filter, tree), depth, limit, f) ==
            if rows.Err? || filter.None? then rows else FilterRows(filter.value, rows.value)
  {
  }

  lemma SameInner(catalog: Catalog, tables: Tables, s: BoundSelect, scope: Scope, limit: nat, f: Floats, depth: nat,
                  filter: Option<Expr<nat>>, filter': Option<Expr<nat>>)
    requires CatalogOk(catalog) && InCatalog(scope, catalog) && GoodSelect(s, scope) && TablesOk(catalog, tables)
    requires (if filter.None? then depth else depth + 1) + |s.joins| < MAX_PLAN_DEPTH
    requires PlanFilter(s.filter, BuildBindings(scope, 0)) == Some(filter)
    requires PlanFilter(OptimizePredicate(s.filter), BuildBindings(scope, 0)) == Some(filter')
    ensures JoinTree(s, scope, |s.joins|).Some? && JoinTree(OptimizeSelect(s), scope, |s.joins|).Some?
    ensures Reference(catalog, tables, AddFilter(filter, JoinTree(s, scope, |s.joins|).value), depth, limit, f) ==
            Reference(catalog, tables, AddFilter(filter', JoinTree(OptimizeSelect(s), scope, |s.joins|).value), depth,
                limit, f)
  {
    var n := |s.joins|;
    var d := if filter.None? then depth else depth + 1;
    var d' := if filter'.None? then depth else depth + 1;
    SameTree(catalog, tables, s, scope, n, limit, f, d, d');
    FilterReference(catalog, tables, filter, JoinTree(s, scope, n).value, depth, limit, f);
    FilterReference(catalog, tables, filter', JoinTree(OptimizeSelect(s), scope, n).value, depth, limit, f);
    TreeRowsConform(catalog, tables, s, scope, n, limit, f, d);
    FullRowIs(scope);
    var rows := TreeRows(catalog, tables, s, scope, n, limit, f, d);
    if s.filter.Some? && rows.Ok? {
      SameFilterNode(s, scope, rows.value);
    }
  }

  // ---------------------------------------------------------------- the whole query

  lemma SameUnderAggregate(catalog: Catalog, tables: Tables, groupKeys: seq<nat>, calls: seq<AggregateCall>, a: Node,
                           b: Node, depth: nat, limit: nat, f: Floats)
    requires var d := if groupKeys == [] && calls == [] then depth else depth + 1;
             Reference(catalog, tables, a, d, limit, f) == Reference(catalog, tables, b, d, limit, f)
    ensures Reference(catalog, tables, AddAggregate(groupKeys, calls, a), depth, limit, f) ==
      Reference(catalog, tables, AddAggregate(groupKeys, calls, b), depth, limit, f)
  {
  }

  lemma SameUnderSort(catalog: Catalog, tables: Tables, keys: seq<SortKey>, a: Node, b: Node, depth: nat, limit: nat,
                      f: Floats)
    requires var d := if keys == [] then depth else depth + 1;
             Reference(catalog, tables, a, d, limit, f) == Reference(catalog, tables, b, d, limit, f)
    ensures Reference(catalog, tables, AddSort(keys, a), depth, limit, f) ==
      Reference(catalog, tables, AddSort(keys, b), depth, limit, f)
  {
  }

  lemma PlansAlike(catalog: Catalog, s: BoundSelect, scope: Scope)
    returns (filter: Option<Expr<nat>>, filter': Option<Expr<nat>>, items: ItemPlan, keys: seq<SortKey>)
    requires CatalogOk(catalog) && InCatalog(scope, catalog) && GoodSelect(s, scope)
    ensures PlanFilter(s.filter, BuildBindings(scope, 0)) == Some(filter)
    ensures PlanFilter(OptimizePredicate(s.filter), BuildBindings(scope, 0)) == Some(filter')
    ensures JoinTree(s, scope, |s.joins|).Some? && JoinTree(OptimizeSelect(s), scope, |s.joins|).Some?
    ensures GenerateSelect(s, catalog) ==
            Some(QueryPlan(items.outputs,
                AddSort(keys, AddAggregate(SlotsOf(s.groupBy, scope), items.calls,
                AddFilter(filter, JoinTree(s, scope, |s.joins|).value)))))
    ensures GenerateSelect(OptimizeSelect(s), catalog) ==
            Some(QueryPlan(items.outputs,
                AddSort(keys, AddAggregate(SlotsOf(s.groupBy, scope), items.calls,
                AddFilter(filter', JoinTree(OptimizeSelect(s), scope, |s.joins|).value)))))
  {
    OptimizeGood(s, scope);
    var tree, p, i, k := SelectPlanned(catalog, s, scope);
    var tree', p', i', k' := SelectPlanned(catalog, OptimizeSelect(s), scope);
    ItemsArePlanned(s.items, s, scope);
    filter, filter', items, keys := p, p', i, k;
    PlanScopeIs(catalog, s, scope);
    PlanScopeIs(catalog, OptimizeSelect(s), scope);
  }

  lemma InnerFits(s: BoundSelect, scope: Scope, tree: Node, filter: Option<Expr<nat>>, calls: seq<AggregateCall>,
                  keys: seq<SortKey>)
    requires GoodFrom(s, scope) && JoinTree(s, scope, |s.joins|) == Some(tree)
    requires NodeHeight(AddSort(keys,
      AddAggregate(SlotsOf(s.groupBy, scope), calls, AddFilter(filter, tree)))) < MAX_PLAN_DEPTH
    ensures var depth := InnerLevel(s, calls, keys);
            (if filter.None? then depth else depth + 1) + |s.joins| < MAX_PLAN_DEPTH
  {
    LevelsFit(s, scope, calls, keys, AddFilter(filter, tree));
    JoinTreeHeight(s, scope, |s.joins|);
  }

  lemma SameRoots(catalog: Catalog, tables: Tables, groupKeys: seq<nat>, calls: seq<AggregateCall>, keys: seq<SortKey>,
                  a: Node, b: Node, limit: nat, f: Floats)
    requires var d := if groupKeys == [] && calls == [] then Level(keys) else Level(keys) + 1;
             Reference(catalog, tables, a, d, limit, f) == Reference(catalog, tables, b, d, limit, f)
    ensures Reference(catalog, tables, AddSort(keys, AddAggregate(groupKeys, calls, a)), 1, limit, f) ==
            Reference(catalog, tables, AddSort(keys, AddAggregate(groupKeys, calls, b)), 1, limit, f)
  {
    SameUnderAggregate(catalog, tables, groupKeys, calls, a, b, Level(keys), limit, f);
    SameUnderSort(catalog, tables, keys, AddAggregate(groupKeys, calls, a), AddAggregate(groupKeys, calls, b), 1,
        limit, f);
  }

  /** The answer of the optimized query is the answer of the query as analyzed, whenever the executor accepts
      the plan of the latter. */
  lemma OptimizedAnswerIsSame(catalog: Catalog, tables: Tables, s: BoundSelect, scope: Scope, limit: nat, f: Floats)
    requires CatalogOk(catalog) && InCatalog(scope, catalog) && GoodSelect(s, scope) && TablesOk(catalog, tables)
    requires GenerateSelect(s, catalog).Some? && NodeHeight(GenerateSelect(s, catalog).value.root) < MAX_PLAN_DEPTH
    ensures GenerateSelect(OptimizeSelect(s), catalog).Some?
    ensures Answer(catalog, tables, GenerateSelect(s, catalog).value, limit, f) ==
            Answer(catalog, tables, GenerateSelect(OptimizeSelect(s), catalog).value, limit, f)
  {
    var filter, filter', items, keys := PlansAlike(catalog, s, scope);
    var a, b := JoinTree(s, scope, |s.joins|).value, JoinTree(OptimizeSelect(s), scope, |s.joins|).value;
    InnerFits(s, scope, a, filter, items.calls, keys);
    SameInner(catalog, tables, s, scope, limit, f, InnerLevel(s, items.calls, keys), filter, filter');
    SameRoots(catalog, tables, SlotsOf(s.groupBy, scope), items.calls, keys, AddFilter(filter, a),
        AddFilter(filter', b), limit, f);
  }

  /** How deep the plan gets without the optimizer. */
  function UnoptimizedHeight(ast: SelectAst): nat {
    PlanHeight(ast) + if ast.filter.Some? && OptimizePredicate(ast.filter).None? then 1 else 0
  }

  lemma BoundHeight(catalog: Catalog, s: BoundSelect, scope: Scope)
    requires CatalogOk(catalog) && InCatalog(scope, catalog) && GoodSelect(s, scope)
    ensures GenerateSelect(s, catalog).Some?
    ensures NodeHeight(GenerateSelect(s, catalog).value.root) == BoundLevels(s)
  {
    var tree, filter, items, keys := SelectPlanned(catalog, s, scope);
    OrderAccepted(s, scope, items);
    AssembledHeight(s, scope, GenerateSelect(s, catalog).value, tree, filter, items, keys);
  }

  lemma UnoptimizedLevels(ast: SelectAst, from: BoundFrom)
    requires from.scope != [] && DistinctIds(from.scope) && BindClauses(ast, from).Some?
    requires HasOutputs(ast) && from.scope[0].columns != [] && |from.joins| == |ast.joins|
    ensures BoundLevels(BindClauses(ast, from).value) == UnoptimizedHeight(ast)
  {
    var s := BindClauses(ast, from).value;
    ClausesHeight(ast, from);
    assert Grouped(OptimizeSelect(s)) == Grouped(s);
  }

  lemma UnoptimizedPlan(ast: SelectAst, catalog: Catalog)
    requires AnalyzedSelect(ast, catalog)
    ensures var plain := GenerateSelect(AnalyzeSelect(ast, catalog).value, catalog);
            plain.Some? && NodeHeight(plain.value.root) == UnoptimizedHeight(ast)
  {
    AnalyzeGood(ast, catalog);
    FromShape(catalog, ast.table, ast.joins);
    var from := BindFrom(catalog, ast.table, ast.joins).value;
    assert from.scope[0] in catalog;
    BoundHeight(catalog, AnalyzeSelect(ast, catalog).value, from.scope);
    UnoptimizedLevels(ast, from);
  }

  /** Compiling with the optimizer or without it makes no difference to what an analyzed SELECT answers. */
  lemma OptimizerKeepsAnswers(ast: SelectAst, catalog: Catalog, tables: Tables, limit: nat, f: Floats)
    requires AnalyzedSelect(ast, catalog) && TablesOk(catalog, tables) && UnoptimizedHeight(ast) < MAX_PLAN_DEPTH
    ensures var plain := GenerateSelect(AnalyzeSelect(ast, catalog).value, catalog);
            && plain.Some? && Compile(ast, catalog).Some?
            && Answer(catalog, tables, Compile(ast, catalog).value, limit, f) ==
                Answer(catalog, tables, plain.value, limit, f)
  {
    AnalyzeGood(ast, catalog);
    FromShape(catalog, ast.table, ast.joins);
    UnoptimizedPlan(ast, catalog);
    var scope := BindFrom(catalog, ast.table, ast.joins).value.scope;
    OptimizedAnswerIsSame(catalog, tables, AnalyzeSelect(ast, catalog).value, scope, limit, f);
  }
}
