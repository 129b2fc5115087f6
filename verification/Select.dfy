/** SELECT statements: analysis (src/compiler/semantic.cpp), optimization and planning (src/compiler/planner.cpp). */
module Select {
  import opened Common
  import opened Values
  import opened Expressions
  import opened Optimizer
  import opened Binding
  import opened Aggregates
  import opened Plans

  // ---------------------------------------------------------------- the parsed statement

  datatype AstItem = AstColumn(name: Name) | AstAggregate(kind: AggregateKind, argument: Option<Name>)

  datatype AstJoin = AstJoin(table: string, condition: Expr<Name>)

  datatype AstSort = AstSort(name: Name, ascending: bool)

  datatype SelectAst = SelectAst(
    table: string,
    joins: seq<AstJoin>,
    selectAll: bool,
    items: seq<AstItem>,
    filter: Option<Expr<Name>>,
    groupBy: seq<Name>,
    orderBy: seq<AstSort>)

  // ---------------------------------------------------------------- the bound statement

  datatype BoundItem =
    | BoundOutput(column: BoundColumn)
    | BoundAggregate(kind: AggregateKind, argument: Option<BoundColumn>, outputType: Type, nullable: bool)

  datatype BoundJoin = BoundJoin(table: nat, condition: Expr<BoundColumn>)

  datatype BoundSort = BoundSort(column: BoundColumn, ascending: bool)

  datatype BoundSelect = BoundSelect(
    table: nat,
    joins: seq<BoundJoin>,
    items: seq<BoundItem>,
    filter: Option<Expr<BoundColumn>>,
    groupBy: seq<BoundColumn>,
    orderBy: seq<BoundSort>)

  // ---------------------------------------------------------------- analyze_select

  /** A predicate of the statement: analyzed in its scope and of boolean or NULL type. */
  function AnalyzePredicate(e: Expr<Name>, scope: Scope): Option<Expr<BoundColumn>> {
    match Analyze(e, scope)
    case None => None
    case Some(a) => if Truthy(a.ty) then Some(a.expr) else None
  }

  predicate HasId(scope: Scope, id: nat) {
    exists i :: 0 <= i < |scope| && scope[i].id == id
  }

  datatype BoundFrom = BoundFrom(scope: Scope, joins: seq<BoundJoin>)

  /** FROM and JOIN clauses: each condition sees the relations up to its own. */
  function BindFrom(catalog: Catalog, table: string, joins: seq<AstJoin>): Option<BoundFrom> {
    if joins == [] then
      match FindRelation(catalog, table)
      case None => None
      case Some(t) => Some(BoundFrom([t], []))
    else
      var n := |joins| - 1;
      match BindFrom(catalog, table, joins[..n])
      case None => None
      case Some(before) =>
        match FindRelation(catalog, joins[n].table)
        case None => None
        case Some(t) =>
          if HasId(before.scope, t.id) then None
          else
            match AnalyzePredicate(joins[n].condition, before.scope + [t])
            case None => None
            case Some(e) => Some(BoundFrom(before.scope + [t], before.joins + [BoundJoin(t.id, e)]))
  }

  /** GROUP BY: repeated columns are kept once. */
  function BindGroup(names: seq<Name>, scope: Scope): Option<seq<BoundColumn>> {
    if names == [] then Some([])
    else
      var n := |names| - 1;
      match BindGroup(names[..n], scope)
      case None => None
      case Some(before) =>
        match Resolve(scope, names[n])
        case None => None
        case Some(c) => Some(if c.ref in before then before else before + [c.ref])
  }

  function TypeOfDeclared(t: ExprType): Option<Type> {
    match t
    case TInt => Some(IntType)
    case TBigInt => Some(BigIntType)
    case TDouble => Some(DoubleType)
    case TBool => Some(BooleanType)
    case TVarchar => Some(VarcharType)
    case TNull => None
  }

  /** analyze_aggregate. */
  function AnalyzeAggregate(kind: AggregateKind, argument: Option<Name>, scope: Scope): Option<BoundItem> {
    if argument.None? then Some(BoundAggregate(Count, None, BigIntType, false))
    else
      match Resolve(scope, argument.value)
      case None => None
      case Some(c) =>
        match kind
        case Count => Some(BoundAggregate(Count, Some(c.ref), BigIntType, false))
        case Sum =>
          if !Numeric(c.ty) then None
          else Some(BoundAggregate(Sum, Some(c.ref), if c.ty.TDouble? then DoubleType else BigIntType, true))
        case Avg => if !Numeric(c.ty) then None else Some(BoundAggregate(Avg, Some(c.ref), DoubleType, true))
        case Min => Extreme(Min, c)
        case Max => Extreme(Max, c)
  }

  function Extreme(kind: AggregateKind, c: Resolved): Option<BoundItem> {
    match TypeOfDeclared(c.ty)
    case None => None
    case Some(t) => if !Numeric(c.ty) && !c.ty.TVarchar? then None else Some(BoundAggregate(kind, Some(c.ref), t, true))
  }

  /** A plain column of an aggregate query must be grouped. */
  function BindColumn(name: Name, scope: Scope, grouped: bool, groupBy: seq<BoundColumn>): Option<BoundColumn> {
    match Resolve(scope, name)
    case None => None
    case Some(c) => if grouped && c.ref !in groupBy then None else Some(c.ref)
  }

  function BindItem(item: AstItem, scope: Scope, grouped: bool, groupBy: seq<BoundColumn>): Option<BoundItem> {
    match item
    case AstColumn(name) =>
      (match BindColumn(name, scope, grouped, groupBy)
       case None => None
       case Some(c) => Some(BoundOutput(c)))
    case AstAggregate(kind, argument) => AnalyzeAggregate(kind, argument, scope)
  }

  function BindItems(items: seq<AstItem>, scope: Scope, grouped: bool,
                     groupBy: seq<BoundColumn>): (r: Option<seq<BoundItem>>)
    ensures r.Some? ==> |r.value| == |items|
    ensures r.Some? ==> forall i :: 0 <= i < |items| ==> BindItem(items[i], scope, grouped, groupBy) == Some(r.value[i])
  {
    if items == [] then Some([])
    else
      var n := |items| - 1;
      match BindItems(items[..n], scope, grouped, groupBy)
      case None => None
      case Some(before) =>
        match BindItem(items[n], scope, grouped, groupBy)
        case None => None
        case Some(item) => Some(before + [item])
  }

  function RelationColumns(id: nat, count: nat): (r: seq<BoundItem>)
    ensures |r| == count && forall i :: 0 <= i < count ==> r[i] == BoundOutput(BoundColumn(id, i))
  {
    seq(count, i requires 0 <= i < count => BoundOutput(BoundColumn(id, i)))
  }

  /** SELECT *. */
  function AllColumns(scope: Scope): seq<BoundItem> {
    if scope == [] then []
    else AllColumns(scope[..|scope| - 1]) + RelationColumns(scope[|scope| - 1].id, |scope[|scope| - 1].columns|)
  }

  function BindOrder(keys: seq<AstSort>, scope: Scope, grouped: bool,
                     groupBy: seq<BoundColumn>): (r: Option<seq<BoundSort>>)
    ensures r.Some? ==> |r.value| == |keys|
    ensures r.Some? ==> forall i :: 0 <= i < |keys| ==>
      BindColumn(keys[i].name, scope, grouped, groupBy) == Some(r.value[i].column) &&
          r.value[i].ascending == keys[i].ascending
  {
    if keys == [] then Some([])
    else
      var n := |keys| - 1;
      match BindOrder(keys[..n], scope, grouped, groupBy)
      case None => None
      case Some(before) =>
        match BindColumn(keys[n].name, scope, grouped, groupBy)
        case None => None
        case Some(c) => Some(before + [BoundSort(c, keys[n].ascending)])
  }

  predicate HasAggregate(items: seq<AstItem>) {
    exists i :: 0 <= i < |items| && items[i].AstAggregate?
  }

  /** The clauses after FROM, bound in the scope of all relations. */
  function BindClauses(ast: SelectAst, from: BoundFrom): Option<BoundSelect>
    requires from.scope != []
  {
    match BindGroup(ast.groupBy, from.scope)
    case None => None
    case Some(groupBy) =>
      var grouped := HasAggregate(ast.items) || groupBy != [];
      if ast.selectAll && grouped then None
      else
        var items := if ast.selectAll then Some(AllColumns(from.scope))
            else BindItems(ast.items, from.scope, grouped, groupBy);
        match items
        case None => None
        case Some(bound) =>
          var filter := if ast.filter.None? then Some(None) else Wrap(AnalyzePredicate(ast.filter.value, from.scope));
          match filter
          case None => None
          case Some(condition) =>
            match BindOrder(ast.orderBy, from.scope, grouped, groupBy)
            case None => None
            case Some(orderBy) => Some(BoundSelect(from.scope[0].id, from.joins, bound, condition, groupBy, orderBy))
  }

  function Wrap<T>(o: Option<T>): Option<Option<T>> {
    if o.None? then None else Some(o)
  }

  lemma {:induction false} FromShape(catalog: Catalog, table: string, joins: seq<AstJoin>)
    requires BindFrom(catalog, table, joins).Some?
    ensures var from := BindFrom(catalog, table, joins).value;
            && |from.scope| == |joins| + 1 && |from.joins| == |joins|
            && DistinctIds(from.scope) && forall i :: 0 <= i < |from.scope| ==> from.scope[i] in catalog
  {
    if joins != [] {
      FromShape(catalog, table, joins[..|joins| - 1]);
    }
  }

  /** analyze_select. */
  function AnalyzeSelect(ast: SelectAst, catalog: Catalog): Option<BoundSelect> {
    match BindFrom(catalog, ast.table, ast.joins)
    case None => None
    case Some(from) =>
      FromShape(catalog, ast.table, ast.joins);
      BindClauses(ast, from)
  }

  // ---------------------------------------------------------------- optimization

  function OptimizeJoins(joins: seq<BoundJoin>): (r: seq<BoundJoin>)
    ensures |r| == |joins| &&
      forall i :: 0 <= i < |r| ==> r[i] == BoundJoin(joins[i].table, Optimize(joins[i].condition).expr)
  {
    seq(|joins|, i requires 0 <= i < |joins| => BoundJoin(joins[i].table, Optimize(joins[i].condition).expr))
  }

  function OptimizeSelect(s: BoundSelect): BoundSelect {
    s.(joins := OptimizeJoins(s.joins), filter := OptimizePredicate(s.filter))
  }

  // ---------------------------------------------------------------- generate_plan

  /** The projection and the plan below it. */
  datatype QueryPlan = QueryPlan(outputs: seq<nat>, root: Node)

  function PlanScope(catalog: Catalog, table: nat, joins: seq<BoundJoin>): Option<Scope> {
    if joins == [] then
      match FindTable(catalog, table)
      case None => None
      case Some(t) => Some([t])
    else
      var n := |joins| - 1;
      match PlanScope(catalog, table, joins[..n])
      case None => None
      case Some(before) =>
        match FindTable(catalog, joins[n].table)
        case None => None
        case Some(t) => Some(before + [t])
  }

  function FindSlots(columns: seq<BoundColumn>, bindings: seq<SlotBinding>): Option<seq<nat>> {
    if columns == [] then Some([])
    else
      var n := |columns| - 1;
      match FindSlots(columns[..n], bindings)
      case None => None
      case Some(before) =>
        match FindSlot(bindings, columns[n])
        case None => None
        case Some(slot) => Some(before + [slot])
  }

  datatype ItemPlan = ItemPlan(outputs: seq<nat>, calls: seq<AggregateCall>)

  function PlanItem(item: BoundItem, bindings: seq<SlotBinding>, next: nat, before: ItemPlan): Option<ItemPlan> {
    match item
    case BoundOutput(c) =>
      (match FindSlot(bindings, c)
       case None => None
       case Some(slot) => Some(before.(outputs := before.outputs + [slot])))
    case BoundAggregate(kind, argument, outputType, nullable) =>
      var input := if argument.None? then Some(None) else Wrap(FindSlot(bindings, argument.value));
      match input
      case None => None
      case Some(slot) =>
        var call := AggregateCall(kind, slot, next + |before.calls|, outputType, nullable);
        Some(ItemPlan(before.outputs + [call.output], before.calls + [call]))
  }

  /** Aggregate outputs take the slots from `next` on. */
  function PlanItems(items: seq<BoundItem>, bindings: seq<SlotBinding>, next: nat): Option<ItemPlan> {
    if items == [] then Some(ItemPlan([], []))
    else
      var n := |items| - 1;
      match PlanItems(items[..n], bindings, next)
      case None => None
      case Some(before) => PlanItem(items[n], bindings, next, before)
  }

  function PlanOrder(keys: seq<BoundSort>, bindings: seq<SlotBinding>): Option<seq<SortKey>> {
    if keys == [] then Some([])
    else
      var n := |keys| - 1;
      match PlanOrder(keys[..n], bindings)
      case None => None
      case Some(before) =>
        match FindSlot(bindings, keys[n].column)
        case None => None
        case Some(slot) => Some(before + [SortKey(slot, keys[n].ascending)])
  }

  /** The left-deep tree over the first |joins| + 1 relations; condition i sees the bindings up to its relation. */
  function PlanJoins(joins: seq<BoundJoin>, bindings: seq<SlotBinding>): Option<Node>
    requires |bindings| > |joins|
  {
    if joins == [] then Some(Scan(bindings[0].table.id, bindings[0].columns))
    else
      var n := |joins| - 1;
      match PlanJoins(joins[..n], bindings)
      case None => None
      case Some(left) =>
        match GenerateExpr(joins[n].condition, bindings[..n + 2])
        case None => None
        case Some(condition) =>
          Some(Join(condition, left, Scan(bindings[n + 1].table.id, bindings[n + 1].columns)))
  }

  function AddFilter(filter: Option<Expr<nat>>, child: Node): Node {
    if filter.None? then child else Filter(filter.value, child)
  }

  function AddAggregate(groupKeys: seq<nat>, calls: seq<AggregateCall>, child: Node): Node {
    if groupKeys == [] && calls == [] then child else Aggregate(groupKeys, calls, child)
  }

  function AddSort(keys: seq<SortKey>, child: Node): Node {
    if keys == [] then child else Sort(keys, child)
  }

  lemma {:induction false} PlanScopeSize(catalog: Catalog, table: nat, joins: seq<BoundJoin>)
    requires PlanScope(catalog, table, joins).Some?
    ensures |PlanScope(catalog, table, joins).value| == |joins| + 1
  {
    if joins != [] {
      PlanScopeSize(catalog, table, joins[..|joins| - 1]);
    }
  }

  function PlanFilter(filter: Option<Expr<BoundColumn>>, bindings: seq<SlotBinding>): Option<Option<Expr<nat>>> {
    if filter.None? then Some(None) else Wrap(GenerateExpr(filter.value, bindings))
  }

  /** generate_plan for a SELECT. */
  function GenerateSelect(s: BoundSelect, catalog: Catalog): Option<QueryPlan> {
    match PlanScope(catalog, s.table, s.joins)
    case None => None
    case Some(scope) =>
      PlanScopeSize(catalog, s.table, s.joins);
      var bindings := BuildBindings(scope, 0);
      match FindSlots(s.groupBy, bindings)
      case None => None
      case Some(groupKeys) =>
        match PlanItems(s.items, bindings, Width(scope))
        case None => None
        case Some(items) =>
          match PlanFilter(s.filter, bindings)
          case None => None
          case Some(filter) =>
            match PlanOrder(s.orderBy, bindings)
            case None => None
            case Some(sortKeys) =>
              match PlanJoins(s.joins, bindings)
              case None => None
              case Some(joins) =>
                Some(QueryPlan(items.outputs,
                               AddSort(sortKeys, AddAggregate(groupKeys, items.calls, AddFilter(filter, joins)))))
  }

  // ---------------------------------------------------------------- validate_query_plan

  predicate OutputsOk(outputs: seq<nat>, row: SlotRow) {
    outputs != [] && forall i :: 0 <= i < |outputs| ==> Lookup(row, outputs[i]).Ok?
  }

  /** validate_query_plan. The project node has depth 0, its input depth 1. */
  function ValidateQuery(catalog: Catalog, plan: QueryPlan): Result<Checked, PlanError> {
    if plan.outputs == [] then Err(BadOutputs)
    else
      match ValidateNode(catalog, plan.root, 1, [])
      case Err(error) => Err(error)
      case Ok(c) => if OutputsOk(plan.outputs, c.row) then Ok(c) else Err(BadOutputs)
  }
}
