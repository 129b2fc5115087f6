/** What a SELECT that passed analysis satisfies, and that optimization keeps it. */
module SelectAnalysis {
  import opened Common
  import opened Expressions
  import opened Optimizer
  import opened Binding
  import opened Pipeline
  import opened Aggregates
  import opened Plans
  import opened Select
  import Parser

  // ---------------------------------------------------------------- what analysis establishes

  /** A predicate bound and typed in the scope, within the core's depth limit. */
  ghost predicate GoodPredicate(e: Expr<BoundColumn>, scope: Scope) {
    && Bound(e, scope) && Height(e) <= MAX_EXPRESSION_DEPTH
    && TypeOf(e, Types(scope)).Ok? && Truthy(TypeOf(e, Types(scope)).value)
  }

  predicate Grouped(s: BoundSelect) {
    s.groupBy != [] || exists i :: 0 <= i < |s.items| && s.items[i].BoundAggregate?
  }

  /** A column a clause after grouping may use. */
  ghost predicate GoodColumn(c: BoundColumn, s: BoundSelect, scope: Scope) {
    InScope(c, scope) && (Grouped(s) ==> c in s.groupBy)
  }

  /** The type contract of a bound aggregate. */
  ghost predicate GoodAggregate(item: BoundItem, scope: Scope)
    requires item.BoundAggregate?
  {
    && (item.argument.Some? ==> InScope(item.argument.value, scope))
    && CallOk(AggregateCall(item.kind, None, 0, item.outputType, item.nullable),
              if item.argument.Some? then Some(TypeIn(scope, item.argument.value)) else None)
  }

  ghost predicate GoodItem(item: BoundItem, s: BoundSelect, scope: Scope) {
    if item.BoundOutput? then GoodColumn(item.column, s, scope) else GoodAggregate(item, scope)
  }

  ghost predicate GoodFrom(s: BoundSelect, scope: Scope) {
    && |scope| == |s.joins| + 1 && DistinctIds(scope) && s.table == scope[0].id
    && (forall i :: 0 <= i < |s.joins| ==>
        s.joins[i].table == scope[i + 1].id && GoodPredicate(s.joins[i].condition, scope[..i + 2]))
  }

  ghost predicate NoRepeats(columns: seq<BoundColumn>) {
    forall i, j :: 0 <= i < j < |columns| ==> columns[i] != columns[j]
  }

  ghost predicate GoodGroup(groupBy: seq<BoundColumn>, scope: Scope) {
    NoRepeats(groupBy) && forall i :: 0 <= i < |groupBy| ==> InScope(groupBy[i], scope)
  }

  ghost predicate GoodSelect(s: BoundSelect, scope: Scope) {
    && GoodFrom(s, scope)
    && (s.filter.Some? ==> GoodPredicate(s.filter.value, scope))
    && GoodGroup(s.groupBy, scope)
    && s.items != [] && (forall i :: 0 <= i < |s.items| ==> GoodItem(s.items[i], s, scope))
    && (forall i :: 0 <= i < |s.orderBy| ==> GoodColumn(s.orderBy[i].column, s, scope))
  }

  function JoinConditions(joins: seq<AstJoin>): (r: seq<Expr<Name>>)
    ensures |r| == |joins| && forall i :: 0 <= i < |r| ==> r[i] == joins[i].condition
  {
    seq(|joins|, i requires 0 <= i < |joins| => joins[i].condition)
  }

  /** The expressions of the statement, in the order in which the parser reads them. */
  function ExpressionsOf(ast: SelectAst): seq<Expr<Name>> {
    JoinConditions(ast.joins) + if ast.filter.None? then [] else [ast.filter.value]
  }

  /** The parser read all expressions of the statement, one after the other, with its one budget. */
  ghost predicate ReadByParser(ast: SelectAst) {
    exists sources :: Parser.ParsedInOrder(ExpressionsOf(ast), sources, Parser.MAX_EXPRESSION_COMPLEXITY)
  }

  /** So each of them is within the core's depth limit. */
  lemma ReadWithinBudget(ast: SelectAst)
    requires ReadByParser(ast)
    ensures forall i :: 0 <= i < |ast.joins| ==> Nodes(ast.joins[i].condition) <= MAX_EXPRESSION_DEPTH
    ensures ast.filter.Some? ==> Nodes(ast.filter.value) <= MAX_EXPRESSION_DEPTH
  {
    var all := ExpressionsOf(ast);
    var sources :| Parser.ParsedInOrder(all, sources, Parser.MAX_EXPRESSION_COMPLEXITY);
    Parser.StatementWithinBudget(all, sources, Parser.MAX_EXPRESSION_COMPLEXITY);
    forall i | 0 <= i < |ast.joins| ensures Nodes(ast.joins[i].condition) <= MAX_EXPRESSION_DEPTH {
      assert all[i] == ast.joins[i].condition;
    }
    assert ast.filter.Some? ==> all[|ast.joins|] == ast.filter.value;
  }

  /** The parser accepts a star or at least one item. */
  predicate HasOutputs(ast: SelectAst) {
    ast.selectAll || ast.items != []
  }

  /** The catalog an open database holds: valid metadata, no id twice. */
  ghost predicate CatalogOk(catalog: Catalog) {
    DistinctIds(catalog) && forall t :: t in catalog ==> MetadataOk(t)
  }

  ghost predicate DistinctNames(catalog: Catalog) {
    forall i, j :: 0 <= i < j < |catalog| ==> catalog[i].name != catalog[j].name
  }

  lemma PredicateGood(e: Expr<Name>, scope: Scope)
    requires AnalyzePredicate(e, scope).Some? && DistinctIds(scope) && Nodes(e) <= MAX_EXPRESSION_DEPTH
    ensures GoodPredicate(AnalyzePredicate(e, scope).value, scope)
  {
    AnalyzeTyped(e, scope);
    HeightWithinNodes(e);
  }

  lemma {:induction false} FromGood(catalog: Catalog, table: string, joins: seq<AstJoin>)
    requires BindFrom(catalog, table, joins).Some?
    requires forall i :: 0 <= i < |joins| ==> Nodes(joins[i].condition) <= MAX_EXPRESSION_DEPTH
    ensures var from := BindFrom(catalog, table, joins).value;
            && |from.scope| == |joins| + 1 && |from.joins| == |joins| && DistinctIds(from.scope)
            && forall i :: 0 <= i < |joins| ==>
                 from.joins[i].table == from.scope[i + 1].id &&
                     GoodPredicate(from.joins[i].condition, from.scope[..i + 2])
  {
    FromShape(catalog, table, joins);
    if joins != [] {
      var n := |joins| - 1;
      FromShape(catalog, table, joins[..n]);
      FromGood(catalog, table, joins[..n]);
      var before, from := BindFrom(catalog, table, joins[..n]).value, BindFrom(catalog, table, joins).value;
      PredicateGood(joins[n].condition, from.scope);
      assert from.scope[..n + 2] == from.scope;
      forall i | 0 <= i < n
        ensures from.joins[i] == before.joins[i] && from.scope[i + 1] == before.scope[i + 1] &&
        from.scope[..i + 2] == before.scope[..i + 2] {
      }
    }
  }

  lemma {:induction false} GroupGood(names: seq<Name>, scope: Scope)
    requires BindGroup(names, scope).Some? && DistinctIds(scope)
    ensures GoodGroup(BindGroup(names, scope).value, scope)
  {
    if names != [] {
      GroupGood(names[..|names| - 1], scope);
      ResolvedType(scope, Resolve(scope, names[|names| - 1]).value);
    }
  }

  lemma AggregateGood(kind: AggregateKind, argument: Option<Name>, scope: Scope)
    requires AnalyzeAggregate(kind, argument, scope).Some? && DistinctIds(scope)
    ensures AnalyzeAggregate(kind, argument, scope).value.BoundAggregate? &&
      GoodAggregate(AnalyzeAggregate(kind, argument, scope).value, scope)
  {
    if argument.Some? {
      ResolvedType(scope, Resolve(scope, argument.value).value);
    }
  }

  lemma {:induction false} AllColumnsGood(scope: Scope, whole: Scope)
    requires |scope| <= |whole| && scope == whole[..|scope|]
    ensures forall i :: 0 <= i < |AllColumns(scope)| ==>
      AllColumns(scope)[i].BoundOutput? && InScope(AllColumns(scope)[i].column, whole)
    ensures scope != [] && scope[0].columns != [] ==> AllColumns(scope) != []
  {
    if scope != [] {
      var n := |scope| - 1;
      AllColumnsGood(scope[..n], whole);
      assert scope[n] in whole;
    }
  }

  lemma ColumnGood(name: Name, scope: Scope, grouped: bool, groupBy: seq<BoundColumn>)
    requires BindColumn(name, scope, grouped, groupBy).Some? && DistinctIds(scope)
    ensures InScope(BindColumn(name, scope, grouped, groupBy).value, scope)
    ensures grouped ==> BindColumn(name, scope, grouped, groupBy).value in groupBy
  {
    ResolvedType(scope, Resolve(scope, name).value);
  }

  /** An item bound with the query's own grouping flag. */
  ghost predicate GoodBound(item: BoundItem, scope: Scope, grouped: bool, groupBy: seq<BoundColumn>) {
    if item.BoundOutput? then InScope(item.column, scope) &&
        (grouped ==> item.column in groupBy) else GoodAggregate(item, scope)
  }

  lemma ItemsGood(ast: SelectAst, scope: Scope, grouped: bool, groupBy: seq<BoundColumn>)
    requires DistinctIds(scope) && BindItems(ast.items, scope, grouped, groupBy).Some?
    ensures var items := BindItems(ast.items, scope, grouped, groupBy).value;
            && (forall i :: 0 <= i < |items| ==> GoodBound(items[i], scope, grouped, groupBy))
            && (HasAggregate(ast.items) <==> exists i :: 0 <= i < |items| && items[i].BoundAggregate?)
  {
    var items := BindItems(ast.items, scope, grouped, groupBy).value;
    forall i | 0 <= i < |items|
      ensures GoodBound(items[i], scope, grouped, groupBy) && (items[i].BoundAggregate? <==> ast.items[i].AstAggregate?)
    {
      match ast.items[i]
      case AstColumn(name) => ColumnGood(name, scope, grouped, groupBy);
      case AstAggregate(kind, argument) => AggregateGood(kind, argument, scope);
    }
  }

  lemma OrderGood(keys: seq<AstSort>, scope: Scope, grouped: bool, groupBy: seq<BoundColumn>)
    requires DistinctIds(scope) && BindOrder(keys, scope, grouped, groupBy).Some?
    ensures var order := BindOrder(keys, scope, grouped, groupBy).value;
            forall i :: 0 <= i < |order| ==> InScope(order[i].column, scope) && (grouped ==> order[i].column in groupBy)
  {
    var order := BindOrder(keys, scope, grouped, groupBy).value;
    forall i | 0 <= i < |order| ensures InScope(order[i].column, scope) && (grouped ==> order[i].column in groupBy) {
      ColumnGood(keys[i].name, scope, grouped, groupBy);
    }
  }

  lemma ClausesItems(ast: SelectAst, from: BoundFrom)
    requires from.scope != [] && DistinctIds(from.scope) && BindClauses(ast, from).Some?
    requires HasOutputs(ast) && from.scope[0].columns != []
    ensures var s := BindClauses(ast, from).value;
            && s.items != []
            && (Grouped(s) <==> (HasAggregate(ast.items) || s.groupBy != []))
            && (forall i :: 0 <= i < |s.items| ==> GoodBound(s.items[i], from.scope, Grouped(s), s.groupBy))
  {
    var s := BindClauses(ast, from).value;
    var grouped := HasAggregate(ast.items) || s.groupBy != [];
    if ast.selectAll {
      assert from.scope[..|from.scope|] == from.scope;
      AllColumnsGood(from.scope, from.scope);
    } else {
      ItemsGood(ast, from.scope, grouped, s.groupBy);
    }
  }

  lemma ClausesGood(ast: SelectAst, from: BoundFrom)
    requires from.scope != [] && DistinctIds(from.scope) && BindClauses(ast, from).Some?
    requires HasOutputs(ast) && from.scope[0].columns != []
    requires ast.filter.Some? ==> Nodes(ast.filter.value) <= MAX_EXPRESSION_DEPTH
    ensures var s := BindClauses(ast, from).value;
            && GoodGroup(s.groupBy, from.scope) && (s.filter.Some? ==> GoodPredicate(s.filter.value, from.scope))
            && s.items != [] && (forall i :: 0 <= i < |s.items| ==> GoodItem(s.items[i], s, from.scope))
            && (forall i :: 0 <= i < |s.orderBy| ==> GoodColumn(s.orderBy[i].column, s, from.scope))
  {
    var s := BindClauses(ast, from).value;
    GroupGood(ast.groupBy, from.scope);
    ClausesItems(ast, from);
    OrderGood(ast.orderBy, from.scope, HasAggregate(ast.items) || s.groupBy != [], s.groupBy);
    if ast.filter.Some? {
      PredicateGood(ast.filter.value, from.scope);
    }
  }

  /** Whatever passes analysis is well formed in the scope of its FROM list. */
  lemma AnalyzeGood(ast: SelectAst, catalog: Catalog)
    requires AnalyzeSelect(ast, catalog).Some? && ReadByParser(ast) && HasOutputs(ast) && CatalogOk(catalog)
    ensures BindFrom(catalog, ast.table, ast.joins).Some?
    ensures GoodSelect(AnalyzeSelect(ast, catalog).value, BindFrom(catalog, ast.table, ast.joins).value.scope)
  {
    ReadWithinBudget(ast);
    FromShape(catalog, ast.table, ast.joins);
    FromGood(catalog, ast.table, ast.joins);
    var from := BindFrom(catalog, ast.table, ast.joins).value;
    assert from.scope[0] in catalog;
    ClausesGood(ast, from);
  }

  // ---------------------------------------------------------------- optimization keeps it

  lemma OptimizeGoodPredicate(e: Expr<BoundColumn>, scope: Scope)
    requires GoodPredicate(e, scope)
    ensures GoodPredicate(Optimize(e).expr, scope)
  {
    OptimizeShrinks(e);
    OptimizeBound(e, scope);
    DeclaredEnvOk(scope);
    OptimizeAgrees(e, Declared(scope), Types(scope));
  }

  lemma OptimizeGood(s: BoundSelect, scope: Scope)
    requires GoodSelect(s, scope)
    ensures GoodSelect(OptimizeSelect(s), scope)
  {
    var o := OptimizeSelect(s);
    forall i | 0 <= i < |s.joins| ensures GoodPredicate(o.joins[i].condition, scope[..i + 2]) {
      OptimizeGoodPredicate(s.joins[i].condition, scope[..i + 2]);
    }
    if s.filter.Some? {
      OptimizeGoodPredicate(s.filter.value, scope);
    }
    assert Grouped(o) == Grouped(s);
    assert forall i :: 0 <= i < |s.items| ==> GoodItem(s.items[i], s, scope) ==> GoodItem(s.items[i], o, scope);
  }
}
