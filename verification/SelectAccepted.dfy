/** The whole SELECT: planned, accepted exactly when its plan is not too deep, and run without internal error. */
module SelectAccepted {
  import opened Common
  import opened Values
  import opened Expressions
  import opened Optimizer
  import opened Binding
  import opened Pipeline
  import opened Aggregates
  import opened Plans
  import opened PlanRows
  import opened Select
  import opened SelectAnalysis
  import opened SelectPlans
  import JoinKeys
  import HashJoin
  import opened Execution
  import opened FiniteData
  import opened Executor

  // ---------------------------------------------------------------- columns in the joined row

  ghost function FullRow(scope: Scope): SlotRow {
    RowOf(scope, 0, Declared(scope))
  }

  lemma FullRowIs(scope: Scope)
    ensures TypedRow(scope, |scope|) == FullRow(scope)
  {
    assert scope[..|scope|] == scope;
  }

  lemma ColumnInRow(scope: Scope, b: BoundColumn)
    requires DistinctIds(scope) && InScope(b, scope)
    ensures FindSlot(BuildBindings(scope, 0), b) == Some(SlotIn(scope, 0, b)) && SlotIn(scope, 0, b) < Width(scope)
    ensures Lookup(FullRow(scope), SlotIn(scope, 0, b)).Ok?
    ensures TypeOfValue(Lookup(FullRow(scope), SlotIn(scope, 0, b)).value) == TypeIn(scope, b)
  {
    SlotHoldsColumn(scope, 0, Declared(scope), b);
    SlotInRange(scope, 0, b);
    ValidationTypes(scope, b);
  }

  /** Distinct columns have distinct slots. */
  lemma SlotsDiffer(scope: Scope, a: BoundColumn, b: BoundColumn)
    requires DistinctIds(scope) && InScope(a, scope) && InScope(b, scope) && a != b
    ensures SlotIn(scope, 0, a) != SlotIn(scope, 0, b)
  {
    var env := (c: BoundColumn) => Bool(c == a);
    SlotHoldsColumn(scope, 0, env, a);
    SlotHoldsColumn(scope, 0, env, b);
  }

  // ---------------------------------------------------------------- GROUP BY

  ghost function SlotsOf(columns: seq<BoundColumn>, scope: Scope): (r: seq<nat>)
    ensures |r| == |columns| && forall i :: 0 <= i < |r| ==> r[i] == SlotIn(scope, 0, columns[i])
  {
    seq(|columns|, i requires 0 <= i < |columns| => SlotIn(scope, 0, columns[i]))
  }

  lemma SlotsOfInit(columns: seq<BoundColumn>, scope: Scope)
    requires columns != []
    ensures SlotsOf(columns, scope) ==
      SlotsOf(columns[..|columns| - 1], scope) + [SlotIn(scope, 0, columns[|columns| - 1])]
  {
  }

  lemma {:induction false} GroupSlots(columns: seq<BoundColumn>, scope: Scope)
    requires DistinctIds(scope) && forall i :: 0 <= i < |columns| ==> InScope(columns[i], scope)
    ensures FindSlots(columns, BuildBindings(scope, 0)) == Some(SlotsOf(columns, scope))
  {
    if columns != [] {
      var n := |columns| - 1;
      GroupSlots(columns[..n], scope);
      ColumnInRow(scope, columns[n]);
      SlotsOfInit(columns, scope);
    }
  }

  lemma FullRowTyped(scope: Scope)
    requires DistinctIds(scope)
    ensures Typed(FullRow(scope))
    decreases |scope|
  {
    FullTyped(scope, |scope|);
    FullRowIs(scope);
  }

  lemma {:induction false} FullTyped(scope: Scope, k: nat)
    requires DistinctIds(scope) && k <= |scope|
    ensures Typed(TypedRow(scope, k))
    decreases k
  {
    if k > 0 {
      FullTyped(scope, k - 1);
      TypedRowGrows(scope, k - 1);
      var t := scope[k - 1];
      forall c | 0 <= c < |t.columns| ensures !Declared(scope)(BoundColumn(t.id, c)).Null? {
        DeclaredAt(scope, k - 1, c);
      }
    } else {
      assert TypedRow(scope, 0) == [];
    }
  }

  lemma {:induction false} GroupAccepted(columns: seq<BoundColumn>, scope: Scope)
    requires DistinctIds(scope) && GoodGroup(columns, scope)
    ensures GroupOutputs(FullRow(scope), SlotsOf(columns, scope)).Ok?
  {
    if columns != [] {
      var n := |columns| - 1;
      GroupAccepted(columns[..n], scope);
      var keys := SlotsOf(columns, scope);
      assert keys[..n] == SlotsOf(columns[..n], scope);
      FullRowTyped(scope);
      GroupOutputsShape(FullRow(scope), keys[..n]);
      ColumnInRow(scope, columns[n]);
      forall i | 0 <= i < n ensures keys[i] != keys[n] { SlotsDiffer(scope, columns[i], columns[n]); }
      NotBound(GroupOutputs(FullRow(scope), keys[..n]).value, keys[n]);
    }
  }

  // ---------------------------------------------------------------- items

  /** Calls write the slots from `next` on, in order, and keep their type contracts. */
  ghost predicate CallsPlanned(calls: seq<AggregateCall>, scope: Scope) {
    forall a :: 0 <= a < |calls| ==> calls[a].output == Width(scope) + a && CallSound(calls[a], FullRow(scope))
  }

  ghost predicate OutputPlanned(item: BoundItem, output: nat, scope: Scope, calls: nat) {
    if item.BoundOutput? then InScope(item.column, scope) && output == SlotIn(scope, 0, item.column)
    else Width(scope) <= output < Width(scope) + calls
  }

  ghost predicate ItemsPlanned(items: seq<BoundItem>, plan: ItemPlan, scope: Scope) {
    && |plan.outputs| == |items| && CallsPlanned(plan.calls, scope)
    && (forall i :: 0 <= i < |items| ==> OutputPlanned(items[i], plan.outputs[i], scope, |plan.calls|))
    && (plan.calls != [] <==> exists i :: 0 <= i < |items| && items[i].BoundAggregate?)
  }

  lemma ItemPlanned(item: BoundItem, s: BoundSelect, scope: Scope, before: ItemPlan)
    requires DistinctIds(scope) && GoodItem(item, s, scope) && CallsPlanned(before.calls, scope)
    ensures var r := PlanItem(item, BuildBindings(scope, 0), Width(scope), before);
            && r.Some? && CallsPlanned(r.value.calls, scope)
            && r.value.outputs == before.outputs + [r.value.outputs[|before.outputs|]]
            && |r.value.calls| == |before.calls| + (if item.BoundAggregate? then 1 else 0)
            && OutputPlanned(item, r.value.outputs[|before.outputs|], scope, |r.value.calls|)
  {
    match item
    case BoundOutput(c) => ColumnInRow(scope, c);
    case BoundAggregate(_, argument, _, _) =>
      if argument.Some? {
        ColumnInRow(scope, argument.value);
      }
  }

  lemma {:induction false} ItemsArePlanned(items: seq<BoundItem>, s: BoundSelect, scope: Scope)
    requires DistinctIds(scope) && forall i :: 0 <= i < |items| ==> GoodItem(items[i], s, scope)
    ensures PlanItems(items, BuildBindings(scope, 0), Width(scope)).Some?
    ensures ItemsPlanned(items, PlanItems(items, BuildBindings(scope, 0), Width(scope)).value, scope)
  {
    if items != [] {
      var n := |items| - 1;
      ItemsArePlanned(items[..n], s, scope);
      var before := PlanItems(items[..n], BuildBindings(scope, 0), Width(scope)).value;
      ItemPlanned(items[n], s, scope, before);
      var plan := PlanItems(items, BuildBindings(scope, 0), Width(scope)).value;
      forall i | 0 <= i < |items| ensures OutputPlanned(items[i], plan.outputs[i], scope, |plan.calls|) {
        if i < n {
          assert items[..n][i] == items[i] && OutputPlanned(items[..n][i], before.outputs[i], scope, |before.calls|);
        }
      }
      assert before.calls != [] ==> exists i :: 0 <= i < n && items[..n][i].BoundAggregate? && items[i].BoundAggregate?;
      assert forall i :: 0 <= i < n && items[i].BoundAggregate? ==> items[..n][i].BoundAggregate?;
    }
  }

  /** The output slot of the last call is none of those before it. */
  lemma CallSlotIsNew(scope: Scope, calls: seq<AggregateCall>, before: SlotRow, output: SlotRow)
    requires calls != [] && CallsPlanned(calls, scope)
    requires forall i :: 0 <= i < |before| ==> before[i].slot < Width(scope)
    requires |output| == |before| + |calls| - 1 && output[..|before|] == before
    requires forall i :: 0 <= i < |calls| - 1 ==> output[|before| + i].slot == calls[i].output
    ensures Bindings(output, calls[|calls| - 1].output) == 0
  {
    var slot := calls[|calls| - 1].output;
    forall i | 0 <= i < |output| ensures output[i].slot != slot {
      if i < |before| {
        assert output[i] == output[..|before|][i];
      } else {
        assert output[|before| + (i - |before|)].slot == calls[i - |before|].output;
      }
    }
    NotBound(output, slot);
  }

  lemma {:induction false} NextCallAccepted(scope: Scope, calls: seq<AggregateCall>, before: SlotRow)
    requires DistinctIds(scope) && calls != [] && CallsPlanned(calls, scope) && Unique(before) && Typed(before)
    requires forall i :: 0 <= i < |before| ==> before[i].slot < Width(scope)
    requires CallOutputs(FullRow(scope), calls[..|calls| - 1], before).Ok?
    ensures CallOutputs(FullRow(scope), calls, before).Ok?
  {
    var n := |calls| - 1;
    CallOutputsShape(FullRow(scope), calls[..n], before);
    var output := CallOutputs(FullRow(scope), calls[..n], before).value;
    RowBindings(scope, 0, Declared(scope), calls[n].output);
    CallSlotIsNew(scope, calls, before, output);
    assert CallSound(calls[n], FullRow(scope));
  }

  lemma {:induction false} CallsAccepted(scope: Scope, calls: seq<AggregateCall>, before: SlotRow)
    requires DistinctIds(scope) && CallsPlanned(calls, scope) && Unique(before) && Typed(before)
    requires forall i :: 0 <= i < |before| ==> before[i].slot < Width(scope)
    ensures CallOutputs(FullRow(scope), calls, before).Ok?
  {
    if calls != [] {
      CallsAccepted(scope, calls[..|calls| - 1], before);
      NextCallAccepted(scope, calls, before);
    }
  }

  ghost function AggregateOutput(scope: Scope, groupKeys: seq<nat>, calls: seq<AggregateCall>): SlotRow
    requires GroupOutputs(FullRow(scope), groupKeys).Ok?
    requires CallOutputs(FullRow(scope), calls, GroupOutputs(FullRow(scope), groupKeys).value).Ok?
  {
    CallOutputs(FullRow(scope), calls, GroupOutputs(FullRow(scope), groupKeys).value).value
  }

  /** The aggregate node's contracts hold. */
  lemma AggregateAccepted(s: BoundSelect, scope: Scope, calls: seq<AggregateCall>)
    requires DistinctIds(scope) && GoodGroup(s.groupBy, scope) && CallsPlanned(calls, scope)
    ensures var keys := SlotsOf(s.groupBy, scope);
            && GroupOutputs(FullRow(scope), keys).Ok? &&
                CallOutputs(FullRow(scope), calls, GroupOutputs(FullRow(scope), keys).value).Ok?
            && Unique(AggregateOutput(scope, keys, calls))
            && OutputShape(AggregateOutput(scope, keys, calls), keys, calls, FullRow(scope))
  {
    var keys := SlotsOf(s.groupBy, scope);
    GroupAccepted(s.groupBy, scope);
    FullRowTyped(scope);
    GroupOutputsShape(FullRow(scope), keys);
    var groups := GroupOutputs(FullRow(scope), keys).value;
    forall i | 0 <= i < |groups| ensures groups[i].slot < Width(scope) { ColumnInRow(scope, s.groupBy[i]); }
    CallsAccepted(scope, calls, groups);
    AggregateShape(FullRow(scope), keys, calls);
    AggregateValid(FullRow(scope), keys, calls);
  }

  // ---------------------------------------------------------------- the row under the projection

  lemma EntryFound(row: SlotRow, i: nat)
    requires Unique(row) && i < |row|
    ensures Lookup(row, row[i].slot).Ok?
  {
    HashJoin.IdsBound(row, row[i].slot);
    assert JoinKeys.SlotIds(row)[i] == row[i].slot;
  }

  /** The typed row that sorting and projection see. */
  ghost function TopRow(s: BoundSelect, scope: Scope, calls: seq<AggregateCall>): SlotRow
    requires DistinctIds(scope) && GoodGroup(s.groupBy, scope) && CallsPlanned(calls, scope)
  {
    AggregateAccepted(s, scope, calls);
    if s.groupBy == [] && calls == [] then FullRow(scope) else AggregateOutput(scope, SlotsOf(s.groupBy, scope), calls)
  }

  lemma ColumnOnTop(s: BoundSelect, scope: Scope, calls: seq<AggregateCall>, c: BoundColumn)
    requires DistinctIds(scope) && GoodGroup(s.groupBy, scope) && CallsPlanned(calls, scope)
    requires InScope(c, scope) && (s.groupBy != [] || calls != [] ==> c in s.groupBy)
    ensures Lookup(TopRow(s, scope, calls), SlotIn(scope, 0, c)).Ok?
  {
    if s.groupBy == [] && calls == [] {
      ColumnInRow(scope, c);
    } else {
      var i :| 0 <= i < |s.groupBy| && s.groupBy[i] == c;
      AggregateAccepted(s, scope, calls);
      var keys := SlotsOf(s.groupBy, scope);
      assert keys[i] == SlotIn(scope, 0, c);
      EntryFound(AggregateOutput(scope, keys, calls), i);
    }
  }

  lemma CallOnTop(s: BoundSelect, scope: Scope, calls: seq<AggregateCall>, a: nat)
    requires DistinctIds(scope) && GoodGroup(s.groupBy, scope) && CallsPlanned(calls, scope) && a < |calls|
    ensures Lookup(TopRow(s, scope, calls), Width(scope) + a).Ok?
  {
    AggregateAccepted(s, scope, calls);
    var keys := SlotsOf(s.groupBy, scope);
    assert calls[a].output == Width(scope) + a;
    assert AggregateOutput(scope, keys, calls)[|keys| + a].slot == calls[a].output;
    EntryFound(AggregateOutput(scope, keys, calls), |keys| + a);
  }

  /** Every projected slot is bound in the row. */
  lemma OutputsAccepted(s: BoundSelect, scope: Scope, plan: ItemPlan)
    requires GoodSelect(s, scope) && ItemsPlanned(s.items, plan, scope)
    ensures OutputsOk(plan.outputs, TopRow(s, scope, plan.calls))
  {
    assert Grouped(s) <==> s.groupBy != [] || plan.calls != [];
    forall i | 0 <= i < |plan.outputs| ensures Lookup(TopRow(s, scope, plan.calls), plan.outputs[i]).Ok? {
      assert OutputPlanned(s.items[i], plan.outputs[i], scope, |plan.calls|) && GoodItem(s.items[i], s, scope);
      if s.items[i].BoundOutput? {
        ColumnOnTop(s, scope, plan.calls, s.items[i].column);
      } else {
        CallOnTop(s, scope, plan.calls, plan.outputs[i] - Width(scope));
      }
    }
  }

  lemma {:induction false} OrderPlanned(keys: seq<BoundSort>, scope: Scope)
    requires DistinctIds(scope) && forall i :: 0 <= i < |keys| ==> InScope(keys[i].column, scope)
    ensures var r := PlanOrder(keys, BuildBindings(scope, 0));
            r.Some? && |r.value| == |keys| &&
                forall i :: 0 <= i < |keys| ==>
                r.value[i] == SortKey(SlotIn(scope, 0, keys[i].column), keys[i].ascending)
  {
    if keys != [] {
      OrderPlanned(keys[..|keys| - 1], scope);
      ColumnInRow(scope, keys[|keys| - 1].column);
    }
  }

  lemma OrderAccepted(s: BoundSelect, scope: Scope, plan: ItemPlan)
    requires GoodSelect(s, scope) && ItemsPlanned(s.items, plan, scope)
    ensures PlanOrder(s.orderBy, BuildBindings(scope, 0)).Some?
    ensures |PlanOrder(s.orderBy, BuildBindings(scope, 0)).value| == |s.orderBy|
    ensures SortKeysOk(TopRow(s, scope, plan.calls), PlanOrder(s.orderBy, BuildBindings(scope, 0)).value)
  {
    assert Grouped(s) <==> s.groupBy != [] || plan.calls != [];
    assert forall i :: 0 <= i < |s.orderBy| ==> GoodColumn(s.orderBy[i].column, s, scope);
    OrderPlanned(s.orderBy, scope);
    var keys := PlanOrder(s.orderBy, BuildBindings(scope, 0)).value;
    forall i | 0 <= i < |keys| ensures Lookup(TopRow(s, scope, plan.calls), keys[i].slot).Ok? {
      ColumnOnTop(s, scope, plan.calls, s.orderBy[i].column);
    }
  }

  // ---------------------------------------------------------------- the plan

  function NodeHeight(node: Node): (h: nat)
    ensures h > 0
  {
    match node
    case Scan(_, _) => 1
    case Filter(_, child) => 1 + NodeHeight(child)
    case Sort(_, child) => 1 + NodeHeight(child)
    case Join(_, left, right) => 1 + Expressions.Max(NodeHeight(left), NodeHeight(right))
    case Aggregate(_, _, child) => 1 + NodeHeight(child)
  }

  /** The validator rejects every plan that reaches the depth limit. */
  lemma {:induction false} DeepPlansRejected(catalog: Catalog, node: Node, depth: nat, types: SlotRow)
    requires depth <= MAX_PLAN_DEPTH < depth + NodeHeight(node)
    ensures ValidateNode(catalog, node, depth, types).Err?
    decreases node
  {
    if depth < MAX_PLAN_DEPTH {
      match node
      case Scan(_, _) =>
      case Filter(_, child) => DeepPlansRejected(catalog, child, depth + 1, types);
      case Sort(_, child) => DeepPlansRejected(catalog, child, depth + 1, types);
      case Join(_, left, right) =>
        if NodeHeight(left) >= NodeHeight(right) {
          DeepPlansRejected(catalog, left, depth + 1, types);
        } else if ValidateNode(catalog, left, depth + 1, types).Ok? {
          DeepPlansRejected(catalog, right, depth + 1, ValidateNode(catalog, left, depth + 1, types).value.types);
        }
      case Aggregate(_, _, child) => DeepPlansRejected(catalog, child, depth + 1, types);
    }
  }

  lemma {:induction false} JoinTreeHeight(s: BoundSelect, scope: Scope, n: nat)
    requires GoodFrom(s, scope) && n <= |s.joins|
    ensures JoinTree(s, scope, n).Some? && NodeHeight(JoinTree(s, scope, n).value) == n + 1
  {
    if n == 0 {
      FirstTree(s, scope);
    } else {
      JoinTreeHeight(s, scope, n - 1);
      JoinTreeStep(s, scope, n);
    }
  }

  /** The pieces generate_plan puts together. */
  ghost predicate Assembled(s: BoundSelect, scope: Scope, plan: QueryPlan, tree: Node, filter: Option<Expr<nat>>,
                            items: ItemPlan, keys: seq<SortKey>) {
    && |scope| == |s.joins| + 1 && JoinTree(s, scope, |s.joins|) == Some(tree)
    && ItemsPlanned(s.items, items, scope)
    && PlanFilter(s.filter, BuildBindings(scope, 0)) == Some(filter)
    && PlanOrder(s.orderBy, BuildBindings(scope, 0)) == Some(keys)
    && plan == QueryPlan(items.outputs,
        AddSort(keys, AddAggregate(SlotsOf(s.groupBy, scope), items.calls, AddFilter(filter, tree))))
  }

  /** Planning a well-formed SELECT never fails. */
  lemma SelectPlanned(catalog: Catalog, s: BoundSelect, scope: Scope)
    returns (tree: Node, filter: Option<Expr<nat>>, items: ItemPlan, keys: seq<SortKey>)
    requires CatalogOk(catalog) && InCatalog(scope, catalog) && GoodSelect(s, scope)
    ensures GenerateSelect(s, catalog).Some?
    ensures Assembled(s, scope, GenerateSelect(s, catalog).value, tree, filter, items, keys)
    ensures PlanItems(s.items, BuildBindings(scope, 0), Width(scope)) == Some(items)
  {
    PlanScopeIs(catalog, s, scope);
    PiecesPlanned(s, scope);
    items := PlanItems(s.items, BuildBindings(scope, 0), Width(scope)).value;
    keys := PlanOrder(s.orderBy, BuildBindings(scope, 0)).value;
    filter := PlanFilter(s.filter, BuildBindings(scope, 0)).value;
    tree := JoinTree(s, scope, |s.joins|).value;
  }

  /** The bindings give every clause its part of the plan. */
  lemma PiecesPlanned(s: BoundSelect, scope: Scope)
    requires GoodSelect(s, scope)
    ensures FindSlots(s.groupBy, BuildBindings(scope, 0)) == Some(SlotsOf(s.groupBy, scope))
    ensures var items := PlanItems(s.items, BuildBindings(scope, 0), Width(scope));
            items.Some? && ItemsPlanned(s.items, items.value, scope)
    ensures PlanFilter(s.filter, BuildBindings(scope, 0)).Some? && PlanOrder(s.orderBy, BuildBindings(scope, 0)).Some?
    ensures JoinTree(s, scope, |s.joins|).Some?
    ensures JoinTree(s, scope, |s.joins|) == PlanJoins(s.joins, BuildBindings(scope, 0))
  {
    GroupSlots(s.groupBy, scope);
    ItemsArePlanned(s.items, s, scope);
    OrderAccepted(s, scope, PlanItems(s.items, BuildBindings(scope, 0), Width(scope)).value);
    FilterPlanned(s, scope);
    JoinTreePlanned(s, scope, |s.joins|);
    assert s.joins[..|s.joins|] == s.joins;
  }

  lemma FilterPlanned(s: BoundSelect, scope: Scope)
    requires GoodSelect(s, scope)
    ensures PlanFilter(s.filter, BuildBindings(scope, 0)).Some?
  {
    if s.filter.Some? {
      GoodPredicateValid(s.filter.value, scope);
    }
  }

  lemma FilterAccepted(catalog: Catalog, s: BoundSelect, scope: Scope, tree: Node, filter: Option<Expr<nat>>,
                       depth: nat)
    requires CatalogOk(catalog) && InCatalog(scope, catalog) && GoodSelect(s, scope)
    requires JoinTree(s, scope, |s.joins|) == Some(tree) &&
      PlanFilter(s.filter, BuildBindings(scope, 0)) == Some(filter)
    requires depth + NodeHeight(AddFilter(filter, tree)) <= MAX_PLAN_DEPTH
    ensures ValidateNode(catalog, AddFilter(filter, tree), depth, []) == Ok(Checked(FullRow(scope), FullRow(scope)))
  {
    JoinTreeHeight(s, scope, |s.joins|);
    JoinTreeValid(catalog, s, scope, |s.joins|, if filter.None? then depth else depth + 1);
    FullRowIs(scope);
    if s.filter.Some? {
      GoodPredicateValid(s.filter.value, scope);
    }
  }

  /** The types known after the whole plan: the joined columns, then the aggregate outputs. */
  ghost function TopTypes(s: BoundSelect, scope: Scope, calls: seq<AggregateCall>): SlotRow
    requires DistinctIds(scope) && GoodGroup(s.groupBy, scope) && CallsPlanned(calls, scope)
  {
    if s.groupBy == [] && calls == [] then FullRow(scope) else AppendTypes(FullRow(scope), TopRow(s, scope, calls))
  }

  lemma AggregateNodeAccepted(catalog: Catalog, s: BoundSelect, scope: Scope, calls: seq<AggregateCall>, child: Node,
                              depth: nat)
    requires DistinctIds(scope) && GoodGroup(s.groupBy, scope) && CallsPlanned(calls, scope) && depth < MAX_PLAN_DEPTH
    requires ValidateNode(catalog, child, if s.groupBy == [] && calls == [] then depth else depth + 1, []) ==
      Ok(Checked(FullRow(scope), FullRow(scope)))
    ensures ValidateNode(catalog, AddAggregate(SlotsOf(s.groupBy, scope), calls, child), depth, []) ==
            Ok(Checked(TopRow(s, scope, calls), TopTypes(s, scope, calls)))
  {
    if s.groupBy != [] || calls != [] {
      AggregateAccepted(s, scope, calls);
    }
  }

  lemma SortNodeAccepted(catalog: Catalog, keys: seq<SortKey>, child: Node, depth: nat, c: Checked)
    requires depth < MAX_PLAN_DEPTH && SortKeysOk(c.row, keys)
    requires ValidateNode(catalog, child, if keys == [] then depth else depth + 1, []) == Ok(c)
    ensures ValidateNode(catalog, AddSort(keys, child), depth, []) == Ok(c)
  {
  }

  /** Depth of the aggregate level, and of the filter level below it. */
  function Level(keys: seq<SortKey>): nat {
    if keys == [] then 1 else 2
  }

  function InnerLevel(s: BoundSelect, calls: seq<AggregateCall>, keys: seq<SortKey>): nat {
    if s.groupBy == [] && calls == [] then Level(keys) else Level(keys) + 1
  }

  lemma LevelsFit(s: BoundSelect, scope: Scope, calls: seq<AggregateCall>, keys: seq<SortKey>, inner: Node)
    requires NodeHeight(AddSort(keys, AddAggregate(SlotsOf(s.groupBy, scope), calls, inner))) < MAX_PLAN_DEPTH
    ensures InnerLevel(s, calls, keys) + NodeHeight(inner) <= MAX_PLAN_DEPTH
  {
  }

  lemma RootAccepted(catalog: Catalog, s: BoundSelect, scope: Scope, tree: Node, filter: Option<Expr<nat>>,
                     items: ItemPlan, keys: seq<SortKey>)
    requires CatalogOk(catalog) && InCatalog(scope, catalog) && GoodSelect(s, scope) &&
      ItemsPlanned(s.items, items, scope)
    requires JoinTree(s, scope, |s.joins|) == Some(tree) &&
      PlanFilter(s.filter, BuildBindings(scope, 0)) == Some(filter)
    requires InnerLevel(s, items.calls, keys) + NodeHeight(AddFilter(filter, tree)) <= MAX_PLAN_DEPTH
    requires SortKeysOk(TopRow(s, scope, items.calls), keys)
    ensures ValidateNode(catalog,
      AddSort(keys, AddAggregate(SlotsOf(s.groupBy, scope), items.calls, AddFilter(filter, tree))), 1, []) ==
            Ok(Checked(TopRow(s, scope, items.calls), TopTypes(s, scope, items.calls)))
  {
    var inner := AddFilter(filter, tree);
    FilterAccepted(catalog, s, scope, tree, filter, InnerLevel(s, items.calls, keys));
    AggregateNodeAccepted(catalog, s, scope, items.calls, inner, Level(keys));
    SortNodeAccepted(catalog, keys, AddAggregate(SlotsOf(s.groupBy, scope), items.calls, inner), 1,
                     Checked(TopRow(s, scope, items.calls), TopTypes(s, scope, items.calls)));
  }

  lemma AssembledAccepted(catalog: Catalog, s: BoundSelect, scope: Scope, plan: QueryPlan, tree: Node,
                          filter: Option<Expr<nat>>, items: ItemPlan, keys: seq<SortKey>)
    requires CatalogOk(catalog) && InCatalog(scope, catalog) && GoodSelect(s, scope) &&
      NodeHeight(plan.root) < MAX_PLAN_DEPTH
    requires Assembled(s, scope, plan, tree, filter, items, keys)
    ensures ValidateNode(catalog, plan.root, 1, []) ==
      Ok(Checked(TopRow(s, scope, items.calls), TopTypes(s, scope, items.calls)))
    ensures ValidateQuery(catalog, plan).Ok?
  {
    LevelsFit(s, scope, items.calls, keys, AddFilter(filter, tree));
    OrderAccepted(s, scope, items);
    RootAccepted(catalog, s, scope, tree, filter, items, keys);
    OutputsAccepted(s, scope, items);
  }

  // ---------------------------------------------------------------- slot types at the joins

  /** Every slot of the joined row has its declared type in the collected types. */
  ghost predicate Covers(types: SlotRow, row: SlotRow) {
    forall slot :: Bindings(row, slot) > 0 ==> FirstBinding(types, slot) == FirstBinding(row, slot)
  }

  lemma TopTypesCover(s: BoundSelect, scope: Scope, calls: seq<AggregateCall>)
    requires DistinctIds(scope) && GoodGroup(s.groupBy, scope) && CallsPlanned(calls, scope)
    ensures Covers(TopTypes(s, scope, calls), FullRow(scope))
  {
    forall slot | Bindings(FullRow(scope), slot) > 0
      ensures FirstBinding(TopTypes(s, scope, calls), slot) == FirstBinding(FullRow(scope), slot)
    {
      AppendKeeps(FullRow(scope), TopRow(s, scope, calls), slot);
    }
  }

  lemma {:induction false} CoversPrefix(types: SlotRow, scope: Scope, k: nat, n: nat)
    requires k <= n <= |scope| && Covers(types, TypedRow(scope, n))
    ensures Covers(types, TypedRow(scope, k))
    decreases n
  {
    if k < n {
      TypedRowGrows(scope, n - 1);
      forall slot | Bindings(TypedRow(scope, n - 1), slot) > 0
        ensures FirstBinding(types, slot) == FirstBinding(TypedRow(scope, n - 1), slot)
      {
        BindingsConcat(TypedRow(scope, n - 1), SelectPlans.Part(scope, n - 1), slot);
      }
      CoversPrefix(types, scope, k, n - 1);
    }
  }

  lemma JoinsAgreeStep(catalog: Catalog, node: Node, depth: nat, types: SlotRow, slotTypes: SlotRow, l: Checked,
                       row: SlotRow)
    requires node.Join? && node.right.Scan? && ValidateNode(catalog, node, depth, types).Ok?
    requires ValidateNode(catalog, node.left, depth + 1, types) == Ok(l) &&
      ValidateNode(catalog, node, depth, types).value.row == row
    requires JoinsAgree(catalog, node.left, depth + 1, types, slotTypes) && Covers(slotTypes, row)
    ensures JoinsAgree(catalog, node, depth, types, slotTypes)
  {
  }

  ghost predicate TreeAgrees(catalog: Catalog, s: BoundSelect, scope: Scope, n: nat, depth: nat, slotTypes: SlotRow)
    requires n <= |s.joins| < |scope|
  {
    TreeValid(catalog, s, scope, n, depth) && JoinsAgree(catalog, JoinTree(s, scope, n).value, depth, [], slotTypes)
  }

  lemma TreeAgreesStep(catalog: Catalog, s: BoundSelect, scope: Scope, n: nat, depth: nat, slotTypes: SlotRow)
    requires GoodFrom(s, scope) && 0 < n <= |s.joins| && Covers(slotTypes, TypedRow(scope, n + 1))
    requires TreeAgrees(catalog, s, scope, n - 1, depth + 1, slotTypes) && TreeValid(catalog, s, scope, n, depth)
    ensures TreeAgrees(catalog, s, scope, n, depth, slotTypes)
  {
    JoinTreeStep(s, scope, n);
    var before := Checked(TypedRow(scope, n), TypedRow(scope, n));
    JoinsAgreeStep(catalog, JoinTree(s, scope, n).value, depth, [], slotTypes, before, TypedRow(scope, n + 1));
  }

  lemma {:induction false} JoinTreeAgrees(catalog: Catalog, s: BoundSelect, scope: Scope, n: nat, depth: nat,
                                          slotTypes: SlotRow)
    requires CatalogOk(catalog) && GoodFrom(s, scope) && InCatalog(scope, catalog) && n <= |s.joins| &&
      depth + n < MAX_PLAN_DEPTH
    requires Covers(slotTypes, TypedRow(scope, n + 1))
    ensures TreeAgrees(catalog, s, scope, n, depth, slotTypes)
    decreases n
  {
    JoinTreeValid(catalog, s, scope, n, depth);
    if n == 0 {
      FirstTree(s, scope);
    } else {
      CoversPrefix(slotTypes, scope, n, n + 1);
      JoinTreeAgrees(catalog, s, scope, n - 1, depth + 1, slotTypes);
      TreeAgreesStep(catalog, s, scope, n, depth, slotTypes);
    }
  }

  lemma FilterAgrees(catalog: Catalog, s: BoundSelect, scope: Scope, tree: Node, filter: Option<Expr<nat>>, depth: nat,
                     slotTypes: SlotRow)
    requires CatalogOk(catalog) && InCatalog(scope, catalog) && GoodSelect(s, scope) &&
      Covers(slotTypes, FullRow(scope))
    requires JoinTree(s, scope, |s.joins|) == Some(tree) &&
      depth + NodeHeight(AddFilter(filter, tree)) <= MAX_PLAN_DEPTH
    requires ValidateNode(catalog, AddFilter(filter, tree), depth, []).Ok?
    ensures JoinsAgree(catalog, AddFilter(filter, tree), depth, [], slotTypes)
  {
    JoinTreeHeight(s, scope, |s.joins|);
    FullRowIs(scope);
    JoinTreeAgrees(catalog, s, scope, |s.joins|, if filter.None? then depth else depth + 1, slotTypes);
  }

  lemma UpperAgrees(catalog: Catalog, s: BoundSelect, scope: Scope, calls: seq<AggregateCall>, keys: seq<SortKey>,
                    inner: Node, slotTypes: SlotRow)
    requires ValidateNode(catalog, inner, InnerLevel(s, calls, keys), []).Ok?
    requires JoinsAgree(catalog, inner, InnerLevel(s, calls, keys), [], slotTypes)
    requires ValidateNode(catalog, AddSort(keys, AddAggregate(SlotsOf(s.groupBy, scope), calls, inner)), 1, []).Ok?
    ensures JoinsAgree(catalog, AddSort(keys, AddAggregate(SlotsOf(s.groupBy, scope), calls, inner)), 1, [], slotTypes)
  {
  }

  lemma AssembledAgrees(catalog: Catalog, s: BoundSelect, scope: Scope, plan: QueryPlan, tree: Node,
                        filter: Option<Expr<nat>>, items: ItemPlan, keys: seq<SortKey>)
    requires CatalogOk(catalog) && InCatalog(scope, catalog) && GoodSelect(s, scope) &&
      NodeHeight(plan.root) < MAX_PLAN_DEPTH
    requires Assembled(s, scope, plan, tree, filter, items, keys)
    ensures ValidateNode(catalog, plan.root, 1, []).Ok?
    ensures JoinsAgree(catalog, plan.root, 1, [], ValidateNode(catalog, plan.root, 1, []).value.types)
  {
    AssembledAccepted(catalog, s, scope, plan, tree, filter, items, keys);
    var types := TopTypes(s, scope, items.calls);
    TopTypesCover(s, scope, items.calls);
    var inner, level := AddFilter(filter, tree), InnerLevel(s, items.calls, keys);
    LevelsFit(s, scope, items.calls, keys, inner);
    FilterAccepted(catalog, s, scope, tree, filter, level);
    FilterAgrees(catalog, s, scope, tree, filter, level, types);
    UpperAgrees(catalog, s, scope, items.calls, keys, inner, types);
  }

  // ---------------------------------------------------------------- end to end

  /** A statement that passed parsing and analysis over an open database's catalog. */
  ghost predicate AnalyzedSelect(ast: SelectAst, catalog: Catalog) {
    CatalogOk(catalog) && ReadByParser(ast) && HasOutputs(ast) && AnalyzeSelect(ast, catalog).Some?
  }

  function Compile(ast: SelectAst, catalog: Catalog): Option<QueryPlan>
    requires AnalyzeSelect(ast, catalog).Some?
  {
    GenerateSelect(OptimizeSelect(AnalyzeSelect(ast, catalog).value), catalog)
  }

  /** How deep the plan of a statement gets: a scan, a level for each join, and one each for a WHERE clause that
      is not constant, for grouping or aggregates, and for ORDER BY. */
  function PlanHeight(ast: SelectAst): nat {
    1 + |ast.joins|
    + (if OptimizePredicate(ast.filter).Some? then 1 else 0)
    + (if HasAggregate(ast.items) || ast.groupBy != [] then 1 else 0)
    + (if ast.orderBy != [] then 1 else 0)
  }

  lemma GroupBound(names: seq<Name>, scope: Scope)
    requires BindGroup(names, scope).Some?
    ensures BindGroup(names, scope).value == [] <==> names == []
  {
  }

  lemma ClausesHeight(ast: SelectAst, from: BoundFrom)
    requires from.scope != [] && DistinctIds(from.scope) && BindClauses(ast, from).Some?
    requires HasOutputs(ast) && from.scope[0].columns != []
    ensures var s := OptimizeSelect(BindClauses(ast, from).value);
            && (s.filter.Some? <==> OptimizePredicate(ast.filter).Some?)
            && (Grouped(s) <==> HasAggregate(ast.items) || ast.groupBy != [])
            && (s.orderBy == [] <==> ast.orderBy == []) && |s.joins| == |from.joins|
  {
    var s := BindClauses(ast, from).value;
    ClausesItems(ast, from);
    GroupBound(ast.groupBy, from.scope);
    assert Grouped(OptimizeSelect(s)) == Grouped(s);
    if ast.filter.Some? {
      AnalyzeKeepsShape(ast.filter.value, from.scope);
      OptimizeKeepsShape(ast.filter.value, s.filter.value);
    }
  }

  ghost function BoundLevels(s: BoundSelect): nat {
    1 + |s.joins| + (if s.filter.Some? then 1 else 0) + (if Grouped(s) then 1 else 0) +
        (if s.orderBy != [] then 1 else 0)
  }

  lemma AssembledHeight(s: BoundSelect, scope: Scope, plan: QueryPlan, tree: Node, filter: Option<Expr<nat>>,
                        items: ItemPlan, keys: seq<SortKey>)
    requires GoodFrom(s, scope) && Assembled(s, scope, plan, tree, filter, items, keys)
    requires |keys| == |s.orderBy|
    ensures NodeHeight(plan.root) == BoundLevels(s)
  {
    JoinTreeHeight(s, scope, |s.joins|);
    var inner := AddFilter(filter, tree);
    assert NodeHeight(inner) == 1 + |s.joins| + if s.filter.Some? then 1 else 0;
    var groupKeys := SlotsOf(s.groupBy, scope);
    assert Grouped(s) <==> groupKeys != [] || items.calls != [];
    var upper := AddAggregate(groupKeys, items.calls, inner);
    assert NodeHeight(upper) == NodeHeight(inner) + if Grouped(s) then 1 else 0;
    assert plan.root == AddSort(keys, upper);
  }

  /** Every analyzed SELECT is planned, as deep as the statement says; the executor accepts the plan exactly when
      that is less than MAX_PLAN_DEPTH, and then every join has the slot types it needs. */
  lemma SelectIsAccepted(ast: SelectAst, catalog: Catalog)
    requires AnalyzedSelect(ast, catalog)
    ensures Compile(ast, catalog).Some? && NodeHeight(Compile(ast, catalog).value.root) == PlanHeight(ast)
    ensures ValidateQuery(catalog, Compile(ast, catalog).value).Ok? <==> PlanHeight(ast) < MAX_PLAN_DEPTH
    ensures var plan := Compile(ast, catalog).value;
            PlanHeight(ast) < MAX_PLAN_DEPTH ==>
              && ValidateNode(catalog, plan.root, 1, []).Ok?
              && JoinsAgree(catalog, plan.root, 1, [], ValidateNode(catalog, plan.root, 1, []).value.types)
  {
    AnalyzeGood(ast, catalog);
    FromShape(catalog, ast.table, ast.joins);
    var scope := BindFrom(catalog, ast.table, ast.joins).value.scope;
    var s := OptimizeSelect(AnalyzeSelect(ast, catalog).value);
    OptimizeGood(AnalyzeSelect(ast, catalog).value, scope);
    var tree, filter, items, keys := SelectPlanned(catalog, s, scope);
    var plan := GenerateSelect(s, catalog).value;
    assert scope[0] in catalog;
    ClausesHeight(ast, BindFrom(catalog, ast.table, ast.joins).value);
    OrderAccepted(s, scope, items);
    AssembledHeight(s, scope, plan, tree, filter, items, keys);
    if NodeHeight(plan.root) < MAX_PLAN_DEPTH {
      AssembledAccepted(catalog, s, scope, plan, tree, filter, items, keys);
      AssembledAgrees(catalog, s, scope, plan, tree, filter, items, keys);
    } else {
      DeepPlansRejected(catalog, plan.root, 1, []);
    }
  }

  // ---------------------------------------------------------------- running it

  /** The projected values of one row. */
  function ProjectRow(row: SlotRow, outputs: seq<nat>): Result<Row, ExecError> {
    if outputs == [] then Ok([])
    else
      match ProjectRow(row, outputs[..|outputs| - 1])
      case Err(error) => Err(error)
      case Ok(done) =>
        match Lookup(row, outputs[|outputs| - 1])
        case Err(_) => Err(Invalid)
        case Ok(v) => Ok(done + [v])
  }

  function ProjectRows(rows: Rows, outputs: seq<nat>): Result<seq<Row>, ExecError> {
    if rows == [] then Ok([])
    else
      match ProjectRows(rows[..|rows| - 1], outputs)
      case Err(error) => Err(error)
      case Ok(done) =>
        match ProjectRow(rows[|rows| - 1], outputs)
        case Err(error) => Err(error)
        case Ok(row) => Ok(done + [row])
  }

  function Answer(catalog: Catalog, tables: Tables, plan: QueryPlan, limit: nat,
                  f: Floats): Result<seq<Row>, ExecError> {
    match Reference(catalog, tables, plan.root, 1, limit, f)
    case Err(error) => Err(error)
    case Ok(rows) => ProjectRows(rows, plan.outputs)
  }

  lemma {:induction false} ProjectRowSound(row: SlotRow, outputs: seq<nat>, declared: SlotRow)
    requires Conforms(row, declared) && forall i :: 0 <= i < |outputs| ==> Lookup(declared, outputs[i]).Ok?
    ensures ProjectRow(row, outputs).Ok? && |ProjectRow(row, outputs).value| == |outputs|
    ensures forall i :: 0 <= i < |outputs| ==>
      HasType(ProjectRow(row, outputs).value[i], TypeOfValue(Lookup(declared, outputs[i]).value))
  {
    if outputs != [] {
      ProjectRowSound(row, outputs[..|outputs| - 1], declared);
      LookupSound(row, declared, outputs[|outputs| - 1]);
    }
  }

  lemma {:induction false} ProjectSound(rows: Rows, outputs: seq<nat>, declared: SlotRow)
    requires AllConform(rows, declared) && OutputsOk(outputs, declared)
    ensures ProjectRows(rows, outputs).Ok? && |ProjectRows(rows, outputs).value| == |rows|
    ensures forall i :: 0 <= i < |rows| ==> ProjectRow(rows[i], outputs) == Ok(ProjectRows(rows, outputs).value[i])
  {
    if rows != [] {
      ProjectSound(rows[..|rows| - 1], outputs, declared);
      ProjectRowSound(rows[|rows| - 1], outputs, declared);
    }
  }

  /** An accepted SELECT answers with one projected row per input row, or stops at the row limit, an overflow or a
      number that is not finite: the result of an aggregate, or, if such numbers are stored, a sort key. */
  lemma SelectRunsSoundly(ast: SelectAst, catalog: Catalog, tables: Tables, limit: nat, f: Floats)
    requires AnalyzedSelect(ast, catalog) && TablesOk(catalog, tables)
    requires PlanHeight(ast) < MAX_PLAN_DEPTH
    ensures Compile(ast, catalog).Some?
    ensures var plan := Compile(ast, catalog).value;
            match Reference(catalog, tables, plan.root, 1, limit, f)
            case Ok(rows) => ProjectRows(rows, plan.outputs).Ok? && |ProjectRows(rows, plan.outputs).value| == |rows|
            case Err(error) => Expected(error) && (StoredFinite(tables) ==> !error.NonFiniteSortKey?)
  {
    SelectIsAccepted(ast, catalog);
    var plan := Compile(ast, catalog).value;
    if StoredFinite(tables) {
      FiniteDataStaysFinite(catalog, tables, plan.root, 1, limit, f);
    }
    ValidPlansAreSound(catalog, tables, plan.root, 1, [], limit, f);
    var rows := Reference(catalog, tables, plan.root, 1, limit, f);
    if rows.Ok? {
      ProjectSound(rows.value, plan.outputs, ValidateNode(catalog, plan.root, 1, []).value.row);
    }
  }

  /** execute_query on a compiled SELECT: the hashing executor gives the reference answer. */
  method ExecuteSelect(ast: SelectAst, catalog: Catalog, tables: Tables, limit: nat, f: Floats, prim: Value -> bv64)
    returns (r: Result<seq<Row>, ExecError>)
    requires AnalyzedSelect(ast, catalog) && TablesOk(catalog, tables)
    ensures Compile(ast, catalog).Some?
    ensures if PlanHeight(ast) < MAX_PLAN_DEPTH
            then r == Answer(catalog, tables, Compile(ast, catalog).value, limit, f)
            else r == Err(Invalid)
  {
    SelectIsAccepted(ast, catalog);
    var plan := Compile(ast, catalog).value;
    match ValidateQuery(catalog, plan)
    case Err(_) => r := Err(Invalid);
    case Ok(c) =>
      var rows := ExecuteNode(catalog, tables, plan.root, 1, limit, f, prim, c.types, []);
      match rows {
        case Err(error) => r := Err(error);
        case Ok(output) => r := ProjectRows(output, plan.outputs);
      }
  }
}
