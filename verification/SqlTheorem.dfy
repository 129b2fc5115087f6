/** Every accepted SELECT answers what the statement means. */
module SqlTheorem {
  import opened Common
  import opened Values
  import opened Expressions
  import opened Optimizer
  import opened Binding
  import opened Pipeline
  import opened Aggregates
  import opened Plans
  import opened Sorting
  import opened Select
  import opened SelectAnalysis
  import opened SelectPlans
  import opened SelectAccepted
  import opened Execution
  import opened SqlMeaning
  import opened SqlNames
  import opened SqlJoins
  import opened SqlFilters
  import opened SqlGroups
  import opened SqlRows
  import opened SqlSorting
  import opened SqlAnswers

  /** The pieces of an analyzed statement. */
  ghost predicate Analyzed(ast: SelectAst, catalog: Catalog, from: BoundFrom, s: BoundSelect) {
    && AnalyzedSelect(ast, catalog) && BindFrom(catalog, ast.table, ast.joins) == Some(from)
    && from.scope != [] && BindClauses(ast, from) == AnalyzeSelect(ast, catalog)
    && s == OptimizeSelect(AnalyzeSelect(ast, catalog).value)
  }

  lemma ConditionIsPlanned(ast: SelectAst, catalog: Catalog, from: BoundFrom, s: BoundSelect, j: nat)
    requires Analyzed(ast, catalog, from, s) && DistinctIds(from.scope) && ConditionsBound(ast.joins, from)
    requires j < |ast.joins| == |s.joins| && |from.scope| == |s.joins| + 1
    requires Nodes(ast.joins[j].condition) <= MAX_EXPRESSION_DEPTH
    ensures ConditionPlanned(ast, from.scope, s, j)
  {
    assert ConditionBound(ast.joins[j].condition, from.scope[..j + 2], from.joins[j].condition);
    assert s.joins[j].condition == Optimize(from.joins[j].condition).expr;
  }

  lemma StatementIsGood(ast: SelectAst, catalog: Catalog, from: BoundFrom, s: BoundSelect)
    requires Analyzed(ast, catalog, from, s)
    ensures GoodSelect(s, from.scope) && |s.joins| == |ast.joins| && ConditionsBound(ast.joins, from)
    ensures Sane(from.scope) && InCatalog(from.scope, catalog) && from.scope == Relations(catalog, TableNames(ast))
  {
    FromShape(catalog, ast.table, ast.joins);
    FromIsSane(catalog, ast);
    AnalyzeGood(ast, catalog);
    OptimizeGood(AnalyzeSelect(ast, catalog).value, from.scope);
    ConditionsAreBound(catalog, ast.table, ast.joins);
  }

  lemma FromSettingHolds(ast: SelectAst, catalog: Catalog, tables: Tables, from: BoundFrom, s: BoundSelect)
    requires Analyzed(ast, catalog, from, s) && TablesOk(catalog, tables)
    ensures FromSetting(catalog, tables, ast, from.scope, s) && GoodSelect(s, from.scope)
    ensures from.scope == Relations(catalog, TableNames(ast))
  {
    StatementIsGood(ast, catalog, from, s);
    ReadWithinBudget(ast);
    forall j | 0 <= j < |ast.joins| ensures ConditionPlanned(ast, from.scope, s, j) {
      ConditionIsPlanned(ast, catalog, from, s, j);
    }
  }

  lemma WhereIsPlanned(ast: SelectAst, catalog: Catalog, from: BoundFrom, s: BoundSelect, filter: Option<Expr<nat>>)
    requires Analyzed(ast, catalog, from, s) && DistinctIds(from.scope)
    requires PlanFilter(s.filter, BuildBindings(from.scope, 0)) == Some(filter)
    ensures FilterPlannedAs(ast, from.scope, filter)
  {
    ReadWithinBudget(ast);
    if ast.filter.Some? {
      var e := ast.filter.value;
      assert AnalyzePredicate(e, from.scope).Some?;
      assert AnalyzeSelect(ast, catalog).value.filter == Some(Analyze(e, from.scope).value.expr);
    }
  }

  lemma KeysArePlanned(ast: SelectAst, catalog: Catalog, from: BoundFrom, s: BoundSelect, grouped: bool,
                       keys: seq<SortKey>)
    requires Analyzed(ast, catalog, from, s) && DistinctIds(from.scope)
    requires PlanOrder(s.orderBy, BuildBindings(from.scope, 0)) == Some(keys)
    requires grouped == (HasAggregate(ast.items) || s.groupBy != [])
    ensures KeysPlanned(from.scope, grouped, s.groupBy, ast.orderBy, keys)
  {
    forall k | 0 <= k < |s.orderBy|
      ensures BindColumn(ast.orderBy[k].name, from.scope, grouped, s.groupBy) == Some(s.orderBy[k].column) &&
              s.orderBy[k].ascending == ast.orderBy[k].ascending && InScope(s.orderBy[k].column, from.scope)
    {
      ColumnGood(ast.orderBy[k].name, from.scope, grouped, s.groupBy);
    }
    OrderPlanned(s.orderBy, from.scope);
    forall k | 0 <= k < |keys|
      ensures KeyPlanned(from.scope, grouped, s.groupBy, ast.orderBy[k], keys[k])
    {
      assert BindColumn(ast.orderBy[k].name, from.scope, grouped, s.groupBy) == Some(s.orderBy[k].column);
    }
  }

  lemma ItemsAreBound(ast: SelectAst, catalog: Catalog, from: BoundFrom, s: BoundSelect, items: ItemPlan)
    requires Analyzed(ast, catalog, from, s) && DistinctIds(from.scope)
    requires ItemsPlanned(s.items, items, from.scope)
    ensures items.calls != [] <==> HasAggregate(ast.items)
    ensures ItemsBound(ast, from.scope, s.groupBy, items.calls, s.items)
  {
    var grouped := HasAggregate(ast.items) || s.groupBy != [];
    if ast.selectAll {
      StarIsColumns(from.scope);
    } else {
      ItemsGood(ast, from.scope, grouped, s.groupBy);
    }
  }

  lemma ClausesArePlanned(ast: SelectAst, catalog: Catalog, from: BoundFrom, s: BoundSelect,
                          filter: Option<Expr<nat>>, items: ItemPlan, keys: seq<SortKey>)
    requires Analyzed(ast, catalog, from, s) && GoodSelect(s, from.scope) && ItemsPlanned(s.items, items, from.scope)
    requires PlanItems(s.items, BuildBindings(from.scope, 0), Width(from.scope)) == Some(items)
    requires PlanFilter(s.filter, BuildBindings(from.scope, 0)) == Some(filter)
    requires PlanOrder(s.orderBy, BuildBindings(from.scope, 0)) == Some(keys)
    ensures ClausesPlanned(ast, from.scope, s, filter, items, keys)
  {
    WhereIsPlanned(ast, catalog, from, s, filter);
    GroupColumnsBound(from.scope, ast.groupBy);
    GroupBound(ast.groupBy, from.scope);
    ItemsAreBound(ast, catalog, from, s, items);
    ItemsGetSlots(s.items, s, from.scope);
    KeysArePlanned(ast, catalog, from, s, s.groupBy != [] || items.calls != [], keys);
  }

  lemma CompiledFromAst(ast: SelectAst, catalog: Catalog, tables: Tables, limit: nat, f: Floats, from: BoundFrom,
                        s: BoundSelect, plan: QueryPlan)
    requires Analyzed(ast, catalog, from, s) && TablesOk(catalog, tables) && GenerateSelect(s, catalog) == Some(plan)
    requires Answer(catalog, tables, plan, limit, f).Ok?
    ensures Answer(catalog, tables, plan, limit, f) == Ok(SqlAnswer(f, ast, catalog, tables))
  {
    FromSettingHolds(ast, catalog, tables, from, s);
    var tree, filter, items, keys := SelectPlanned(catalog, s, from.scope);
    ClausesArePlanned(ast, catalog, from, s, filter, items, keys);
    RootDelivers(catalog, tables, ast, from.scope, s, plan, tree, filter, items, keys, limit, f);
    var us := InSortOrder(from.scope, ast.orderBy, Units(ast, from.scope, Selected(ast, from.scope, tables)));
    ProjectionsTell(f, ast, from.scope, s.groupBy, s.items, items, us,
                    Reference(catalog, tables, plan.root, 1, limit, f).value);
  }

  /**
   Analysis, optimization, planning and execution of a SELECT give the answer that the statement means: the tuples of
   its tables on which every ON and the WHERE are true, grouped by the named columns, sorted by the named keys, and
   from each the items in their positions. This holds of every answer; the other outcomes are errors.
   */
  lemma SelectAnswersTheStatement(ast: SelectAst, catalog: Catalog, tables: Tables, limit: nat, f: Floats)
    requires AnalyzedSelect(ast, catalog) && TablesOk(catalog, tables)
    ensures Compile(ast, catalog).Some?
    ensures var r := Answer(catalog, tables, Compile(ast, catalog).value, limit, f);
            if r.Ok? then r.value == SqlAnswer(f, ast, catalog, tables)
            else PlanHeight(ast) < MAX_PLAN_DEPTH ==> Expected(r.error)
  {
    SelectIsAccepted(ast, catalog);
    if PlanHeight(ast) < MAX_PLAN_DEPTH {
      SelectRunsSoundly(ast, catalog, tables, limit, f);
    }
    if Answer(catalog, tables, Compile(ast, catalog).value, limit, f).Ok? {
      FromShape(catalog, ast.table, ast.joins);
      CompiledFromAst(ast, catalog, tables, limit, f, BindFrom(catalog, ast.table, ast.joins).value,
                      OptimizeSelect(AnalyzeSelect(ast, catalog).value), Compile(ast, catalog).value);
    }
  }
}
