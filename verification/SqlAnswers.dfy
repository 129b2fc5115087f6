/** The answer of a compiled SELECT is the answer of the statement. */
module SqlAnswers {
  import opened Common
  import opened Values
  import opened Expressions
  import opened Optimizer
  import opened Binding
  import opened Pipeline
  import opened Aggregates
  import opened Plans
  import opened Sorting
  import opened Select
  import opened SelectAnalysis
  import opened SelectPlans
  import opened SelectAccepted
  import opened Execution
  import opened SqlMeaning
  import opened SqlNames
  import opened SqlJoins
  import opened SqlFilters
  import opened SqlAggregates
  import opened SqlGroups
  import opened SqlRows
  import opened SqlSorting
  import Ordering

  // ---------------------------------------------------------------- items

  /** The output slot of a bound item: the column's slot, or that of a call made for it. */
  ghost predicate ItemSlot(item: BoundItem, output: nat, from: Scope, calls: seq<AggregateCall>) {
    match item
    case BoundOutput(c) => output == SlotIn(from, 0, c)
    case BoundAggregate(_, _, _, _) => exists a :: 0 <= a < |calls| && MadeFor(calls[a], item, output, from)
  }

  ghost predicate MadeFor(call: AggregateCall, item: BoundItem, output: nat, from: Scope)
    requires item.BoundAggregate?
  {
    && call.output == output && call.kind == item.kind && call.outputType == item.outputType
    && call.input == if item.argument.None? then None else Some(SlotIn(from, 0, item.argument.value))
  }

  lemma ItemGetsSlot(item: BoundItem, s: BoundSelect, from: Scope, before: ItemPlan)
    requires DistinctIds(from) && GoodItem(item, s, from)
    ensures var r := PlanItem(item, BuildBindings(from, 0), Width(from), before);
            && r.Some? && |r.value.outputs| == |before.outputs| + 1
            && r.value.outputs[..|before.outputs|] == before.outputs && before.calls <= r.value.calls
            && ItemSlot(item, r.value.outputs[|before.outputs|], from, r.value.calls)
  {
    var r := PlanItem(item, BuildBindings(from, 0), Width(from), before);
    match item
    case BoundOutput(c) => ColumnInRow(from, c);
    case BoundAggregate(_, argument, _, _) =>
      if argument.Some? {
        ColumnInRow(from, argument.value);
      }
      assert MadeFor(r.value.calls[|before.calls|], item, r.value.outputs[|before.outputs|], from);
  }

  lemma SlotStays(item: BoundItem, output: nat, from: Scope, calls: seq<AggregateCall>, more: seq<AggregateCall>)
    requires ItemSlot(item, output, from, calls) && calls <= more
    ensures ItemSlot(item, output, from, more)
  {
    if item.BoundAggregate? {
      var a :| 0 <= a < |calls| && MadeFor(calls[a], item, output, from);
      assert more[a] == calls[a];
    }
  }

  ghost predicate ItemSlots(items: seq<BoundItem>, plan: ItemPlan, from: Scope) {
    |plan.outputs| == |items| && forall i :: 0 <= i < |items| ==> ItemSlot(items[i], plan.outputs[i], from, plan.calls)
  }

  lemma {:induction false} ItemsGetSlots(items: seq<BoundItem>, s: BoundSelect, from: Scope)
    requires DistinctIds(from) && forall i :: 0 <= i < |items| ==> GoodItem(items[i], s, from)
    ensures PlanItems(items, BuildBindings(from, 0), Width(from)).Some?
    ensures ItemSlots(items, PlanItems(items, BuildBindings(from, 0), Width(from)).value, from)
  {
    if items != [] {
      var n := |items| - 1;
      ItemsGetSlots(items[..n], s, from);
      var before := PlanItems(items[..n], BuildBindings(from, 0), Width(from)).value;
      ItemGetsSlot(items[n], s, from, before);
      var plan := PlanItems(items, BuildBindings(from, 0), Width(from)).value;
      forall i | 0 <= i < |items| ensures ItemSlot(items[i], plan.outputs[i], from, plan.calls) {
        if i < n {
          assert items[..n][i] == items[i] && plan.outputs[i] == before.outputs[i];
          SlotStays(items[i], before.outputs[i], from, before.calls, plan.calls);
        }
      }
    }
  }

  /** A unit whose rows have grouped columns to show has a first tuple. */
  ghost predicate UnitOk(columns: seq<BoundColumn>, calls: seq<AggregateCall>, u: Unit) {
    u != [] || (columns == [] && calls != [])
  }

  lemma ColumnTold(f: Floats, from: Scope, columns: seq<BoundColumn>, calls: seq<AggregateCall>, name: Name, u: Unit,
                   row: SlotRow)
    requires Sane(from) && RowTells(f, from, columns, calls, u, row) && UnitOk(columns, calls, u)
    requires BindColumn(name, from, columns != [] || calls != [], columns).Some?
    ensures var c := BindColumn(name, from, columns != [] || calls != [], columns).value;
            Lookup(row, SlotIn(from, 0, c)) == Ok(ItemValue(f, from, AstColumn(name), u))
  {
    ResolvedInScope(from, name);
    if u != [] {
      NameValue(from, u[0], name);
    }
  }

  lemma StarTold(f: Floats, from: Scope, columns: seq<BoundColumn>, calls: seq<AggregateCall>, a: nat, u: Unit,
                 row: SlotRow, kind: AggregateKind)
    requires RowTells(f, from, columns, calls, u, row) && a < |calls| && calls[a].kind.Count? && calls[a].input.None?
    ensures Lookup(row, calls[a].output) == Ok(ItemValue(f, from, AstAggregate(kind, None), u))
  {
    assert CallGives(f, calls[a], from, u, Lookup(row, calls[a].output).value);
    StarAggregate(f, calls[a], from, u);
  }

  lemma ArgumentTold(f: Floats, from: Scope, columns: seq<BoundColumn>, calls: seq<AggregateCall>, a: nat, u: Unit,
                     row: SlotRow, kind: AggregateKind, name: Name, item: BoundItem)
    requires Sane(from) && RowTells(f, from, columns, calls, u, row) && a < |calls|
    requires AnalyzeAggregate(kind, Some(name), from) == Some(item) && item.BoundAggregate?
    requires MadeFor(calls[a], item, calls[a].output, from)
    ensures Lookup(row, calls[a].output) == Ok(ItemValue(f, from, AstAggregate(kind, Some(name)), u))
  {
    ResolveFindsTheName(from, name);
    var p :| OnePlace(from, name, p);
    assert Resolve(from, name).value == Entry(from, p);
    assert calls[a].kind == kind && Reads(calls[a], from, p);
    assert CallFits(calls[a], from[p.relation].columns[p.column].ty);
    assert CallGives(f, calls[a], from, u, Lookup(row, calls[a].output).value);
    ColumnAggregate(f, calls[a], from, p, u);
  }

  /** The output slot of an item holds the item's value. */
  lemma ItemTold(f: Floats, from: Scope, columns: seq<BoundColumn>, calls: seq<AggregateCall>, item: AstItem,
                 bound: BoundItem, output: nat, u: Unit, row: SlotRow)
    requires Sane(from) && RowTells(f, from, columns, calls, u, row) && UnitOk(columns, calls, u)
    requires BindItem(item, from, columns != [] || calls != [], columns) == Some(bound)
    requires ItemSlot(bound, output, from, calls)
    ensures Lookup(row, output) == Ok(ItemValue(f, from, item, u))
  {
    match item
    case AstColumn(name) => ColumnTold(f, from, columns, calls, name, u, row);
    case AstAggregate(kind, argument) =>
      AggregateGood(kind, argument, from);
      var a :| 0 <= a < |calls| && MadeFor(calls[a], bound, output, from);
      if argument.None? {
        StarTold(f, from, columns, calls, a, u, row, kind);
      } else {
        ArgumentTold(f, from, columns, calls, a, u, row, kind, argument.value, bound);
      }
  }

  // ---------------------------------------------------------------- the star

  /** The values of bound columns in a tuple. */
  ghost function BoundValues(from: Scope, t: Tuple, items: seq<BoundItem>): (r: Row)
    requires |t| == |from|
    ensures |r| == |items|
    ensures forall i :: 0 <= i < |r| && items[i].BoundOutput? ==> r[i] == BoundValue(from, t, items[i].column)
  {
    seq(|items|, i requires 0 <= i < |items| =>
      if items[i].BoundOutput? then BoundValue(from, t, items[i].column) else Null)
  }

  lemma BoundValuesConcat(from: Scope, t: Tuple, a: seq<BoundItem>, b: seq<BoundItem>)
    requires |t| == |from|
    ensures BoundValues(from, t, a + b) == BoundValues(from, t, a) + BoundValues(from, t, b)
  {
  }

  lemma RelationIsRow(from: Scope, t: Tuple, k: nat)
    requires DistinctIds(from) && TupleOk(from, t) && k < |from|
    ensures BoundValues(from, t, RelationColumns(from[k].id, |from[k].columns|)) == t[k]
  {
    assert PhysicalOk(from[k], t[k]);
    forall c | 0 <= c < |t[k]| ensures BoundValue(from, t, BoundColumn(from[k].id, c)) == t[k][c] {
      BoundValueAt(from, t, Place(k, c));
    }
  }

  lemma FlatStep(t: Tuple, from: Scope, k: nat)
    requires 0 < k <= |from| == |t|
    ensures Flat(t[..k]) == Flat(t[..k - 1]) + t[k - 1]
    ensures AllColumns(from[..k]) ==
            AllColumns(from[..k - 1]) + RelationColumns(from[k - 1].id, |from[k - 1].columns|)
  {
    assert from[..k][..k - 1] == from[..k - 1] && t[..k][..k - 1] == t[..k - 1];
  }

  lemma {:induction false} StarIsFlat(from: Scope, t: Tuple, k: nat)
    requires DistinctIds(from) && TupleOk(from, t) && k <= |from|
    ensures BoundValues(from, t, AllColumns(from[..k])) == Flat(t[..k])
    decreases k
  {
    if k > 0 {
      StarIsFlat(from, t, k - 1);
      RelationIsRow(from, t, k - 1);
      FlatStep(t, from, k);
      BoundValuesConcat(from, t, AllColumns(from[..k - 1]),
                        RelationColumns(from[k - 1].id, |from[k - 1].columns|));
    }
  }

  lemma {:induction false} StarIsColumns(from: Scope)
    ensures forall i :: 0 <= i < |AllColumns(from)| ==> AllColumns(from)[i].BoundOutput?
  {
    if from != [] {
      StarIsColumns(from[..|from| - 1]);
    }
  }

  // ---------------------------------------------------------------- projecting

  lemma {:induction false} ProjectedEach(row: SlotRow, outputs: seq<nat>)
    requires ProjectRow(row, outputs).Ok?
    ensures |ProjectRow(row, outputs).value| == |outputs|
    ensures forall i :: 0 <= i < |outputs| ==> Lookup(row, outputs[i]) == Ok(ProjectRow(row, outputs).value[i])
  {
    if outputs != [] {
      ProjectedEach(row, outputs[..|outputs| - 1]);
    }
  }

  lemma {:induction false} ProjectedRows(rows: Rows, outputs: seq<nat>)
    requires ProjectRows(rows, outputs).Ok?
    ensures |ProjectRows(rows, outputs).value| == |rows|
    ensures forall i :: 0 <= i < |rows| ==> ProjectRow(rows[i], outputs) == Ok(ProjectRows(rows, outputs).value[i])
  {
    if rows != [] {
      ProjectedRows(rows[..|rows| - 1], outputs);
    }
  }

  /** How the items of the statement were bound. */
  ghost predicate ItemsBound(ast: SelectAst, from: Scope, columns: seq<BoundColumn>, calls: seq<AggregateCall>,
                             items: seq<BoundItem>)
  {
    if ast.selectAll then items == AllColumns(from) && columns == [] && calls == []
    else
      && |items| == |ast.items|
      && forall i :: 0 <= i < |items| ==>
           BindItem(ast.items[i], from, columns != [] || calls != [], columns) == Some(items[i])
  }

  lemma StarTells(f: Floats, ast: SelectAst, from: Scope, plan: ItemPlan, u: Unit, row: SlotRow)
    requires Sane(from) && RowTells(f, from, [], [], u, row) && u != [] && ast.selectAll && plan.calls == []
    requires ItemSlots(AllColumns(from), plan, from) && ProjectRow(row, plan.outputs).Ok?
    ensures ProjectRow(row, plan.outputs) == Ok(OutputOf(f, ast, from, u))
  {
    var items, out := AllColumns(from), ProjectRow(row, plan.outputs).value;
    ProjectedEach(row, plan.outputs);
    StarIsColumns(from);
    assert from[..|from|] == from && u[0][..|from|] == u[0];
    StarIsFlat(from, u[0], |from|);
    AllColumnsGood(from, from);
    forall i | 0 <= i < |items| ensures out[i] == BoundValues(from, u[0], items)[i] {
      assert ItemSlot(items[i], plan.outputs[i], from, plan.calls);
      assert InScope(items[i].column, from);
    }
    assert out == BoundValues(from, u[0], items);
  }

  /** The projected row is the output of the unit. */
  lemma ProjectionTells(f: Floats, ast: SelectAst, from: Scope, columns: seq<BoundColumn>, items: seq<BoundItem>,
                        plan: ItemPlan, u: Unit, row: SlotRow)
    requires Sane(from) && RowTells(f, from, columns, plan.calls, u, row) && UnitOk(columns, plan.calls, u)
    requires ItemsBound(ast, from, columns, plan.calls, items) && ItemSlots(items, plan, from)
    requires ProjectRow(row, plan.outputs).Ok?
    ensures ProjectRow(row, plan.outputs) == Ok(OutputOf(f, ast, from, u))
  {
    if ast.selectAll {
      StarTells(f, ast, from, plan, u, row);
    } else {
      var out := ProjectRow(row, plan.outputs).value;
      ProjectedEach(row, plan.outputs);
      forall i | 0 <= i < |items| ensures out[i] == ItemValue(f, from, ast.items[i], u) {
        assert ItemSlot(items[i], plan.outputs[i], from, plan.calls);
        ItemTold(f, from, columns, plan.calls, ast.items[i], items[i], plan.outputs[i], u, row);
      }
      assert out == OutputOf(f, ast, from, u);
    }
  }

  lemma ProjectionsTell(f: Floats, ast: SelectAst, from: Scope, columns: seq<BoundColumn>, items: seq<BoundItem>,
                        plan: ItemPlan, us: seq<Unit>, rows: Rows)
    requires Sane(from) && RowsTell(f, from, columns, plan.calls, us, rows)
    requires forall g :: 0 <= g < |us| ==> UnitOk(columns, plan.calls, us[g])
    requires ItemsBound(ast, from, columns, plan.calls, items) && ItemSlots(items, plan, from)
    requires ProjectRows(rows, plan.outputs).Ok?
    ensures ProjectRows(rows, plan.outputs) == Ok(OutputsOf(f, ast, from, us))
  {
    ProjectedRows(rows, plan.outputs);
    forall g | 0 <= g < |us| ensures ProjectRow(rows[g], plan.outputs) == Ok(OutputOf(f, ast, from, us[g])) {
      ProjectionTells(f, ast, from, columns, items, plan, us[g], rows[g]);
    }
    assert ProjectRows(rows, plan.outputs).value == OutputsOf(f, ast, from, us);
  }

  // ---------------------------------------------------------------- the plan

  /** What planning made of the clauses after FROM. */
  ghost predicate ClausesPlanned(ast: SelectAst, from: Scope, s: BoundSelect, filter: Option<Expr<nat>>,
                                 items: ItemPlan, keys: seq<SortKey>)
  {
    && FilterPlannedAs(ast, from, filter)
    && GoodGroup(s.groupBy, from) && ColumnsOf(from, ast.groupBy, s.groupBy)
    && (s.groupBy != [] <==> ast.groupBy != []) && (items.calls != [] <==> HasAggregate(ast.items))
    && OutputsBehind(from, items.calls)
    && ItemsBound(ast, from, s.groupBy, items.calls, s.items) && ItemSlots(s.items, items, from)
    && KeysPlanned(from, s.groupBy != [] || items.calls != [], s.groupBy, ast.orderBy, keys)
  }

  ghost predicate UnitsOk(columns: seq<BoundColumn>, calls: seq<AggregateCall>, us: seq<Unit>) {
    forall g :: 0 <= g < |us| ==> UnitOk(columns, calls, us[g])
  }

  lemma GroupedReference(catalog: Catalog, tables: Tables, groupKeys: seq<nat>, calls: seq<AggregateCall>,
                         child: Node, depth: nat, limit: nat, f: Floats)
    requires Reference(catalog, tables, AddAggregate(groupKeys, calls, child), depth, limit, f).Ok?
    ensures var grouped := groupKeys != [] || calls != [];
            var rows := Reference(catalog, tables, child, if grouped then depth + 1 else depth, limit, f);
            && rows.Ok?
            && Reference(catalog, tables, AddAggregate(groupKeys, calls, child), depth, limit, f) ==
               if grouped then AggregateRows(f, rows.value, groupKeys, calls) else rows
  {
  }

  lemma SortedReference(catalog: Catalog, tables: Tables, keys: seq<SortKey>, child: Node, depth: nat, limit: nat,
                        f: Floats)
    requires Reference(catalog, tables, AddSort(keys, child), depth, limit, f).Ok?
    ensures var rows := Reference(catalog, tables, child, if keys != [] then depth + 1 else depth, limit, f);
            && rows.Ok?
            && Reference(catalog, tables, AddSort(keys, child), depth, limit, f) ==
               if keys != [] then SortRows(rows.value, keys) else rows
  {
  }

  /** Grouping delivers a row for each unit. */
  lemma UnitsDelivered(catalog: Catalog, tables: Tables, ast: SelectAst, from: Scope, s: BoundSelect, tree: Node,
                       filter: Option<Expr<nat>>, items: ItemPlan, keys: seq<SortKey>, depth: nat, limit: nat,
                       f: Floats)
    requires FromSetting(catalog, tables, ast, from, s) && JoinTree(s, from, |s.joins|) == Some(tree)
    requires ClausesPlanned(ast, from, s, filter, items, keys)
    requires Reference(catalog, tables, AddAggregate(SlotsOf(s.groupBy, from), items.calls, AddFilter(filter, tree)),
                       depth, limit, f).Ok?
    ensures var us := Units(ast, from, Selected(ast, from, tables));
            && UnitsOk(s.groupBy, items.calls, us)
            && RowsTell(f, from, s.groupBy, items.calls, us,
                        Reference(catalog, tables,
                                  AddAggregate(SlotsOf(s.groupBy, from), items.calls, AddFilter(filter, tree)),
                                  depth, limit, f).value)
  {
    var slots, child := SlotsOf(s.groupBy, from), AddFilter(filter, tree);
    var grouped := slots != [] || items.calls != [];
    GroupedReference(catalog, tables, slots, items.calls, child, depth, limit, f);
    InnerDelivers(catalog, tables, ast, from, s, tree, filter, if grouped then depth + 1 else depth, limit, f);
    var ts := Selected(ast, from, tables);
    if s.groupBy != [] {
      GroupedRowsTell(f, from, ast.groupBy, s.groupBy, items.calls, ts);
      GroupsNonEmpty(from, ast.groupBy, ts);
    } else if items.calls != [] {
      assert slots == [];
      WholeRowTells(f, from, items.calls, ts);
    } else {
      PlainRowsTell(f, from, ts);
    }
  }

  lemma {:induction false} PutAreThere(from: Scope, keys: seq<AstSort>, us: seq<Unit>, u: Unit)
    ensures forall g :: 0 <= g < |PutInOrder(from, keys, us, u)| ==>
              PutInOrder(from, keys, us, u)[g] in us || PutInOrder(from, keys, us, u)[g] == u
  {
    if us != [] {
      PutAreThere(from, keys, us[..|us| - 1], u);
    }
  }

  lemma {:induction false} SortedAreThere(from: Scope, keys: seq<AstSort>, us: seq<Unit>)
    ensures forall g :: 0 <= g < |InSortOrder(from, keys, us)| ==> InSortOrder(from, keys, us)[g] in us
  {
    if us != [] && keys != [] {
      var init := us[..|us| - 1];
      SortedAreThere(from, keys, init);
      PutAreThere(from, keys, InSortOrder(from, keys, init), us[|us| - 1]);
    }
  }

  /** A statement with ORDER BY has no unit without tuples. */
  lemma SortedUnitsNonEmpty(from: Scope, columns: seq<BoundColumn>, calls: seq<AggregateCall>, orderBy: seq<AstSort>,
                            keys: seq<SortKey>, us: seq<Unit>)
    requires KeysPlanned(from, columns != [] || calls != [], columns, orderBy, keys) && keys != []
    requires UnitsOk(columns, calls, us)
    ensures forall g :: 0 <= g < |us| ==> us[g] != []
  {
    assert KeyPlanned(from, columns != [] || calls != [], columns, orderBy[0], keys[0]);
    forall g | 0 <= g < |us| ensures us[g] != [] {
      assert UnitOk(columns, calls, us[g]);
    }
  }

  /** The rows under the projection tell the sorted units. */
  lemma RootDelivers(catalog: Catalog, tables: Tables, ast: SelectAst, from: Scope, s: BoundSelect, plan: QueryPlan,
                     tree: Node, filter: Option<Expr<nat>>, items: ItemPlan, keys: seq<SortKey>, limit: nat,
                     f: Floats)
    requires FromSetting(catalog, tables, ast, from, s) && Assembled(s, from, plan, tree, filter, items, keys)
    requires ClausesPlanned(ast, from, s, filter, items, keys)
    requires Reference(catalog, tables, plan.root, 1, limit, f).Ok?
    ensures var us := InSortOrder(from, ast.orderBy, Units(ast, from, Selected(ast, from, tables)));
            && UnitsOk(s.groupBy, items.calls, us)
            && RowsTell(f, from, s.groupBy, items.calls, us, Reference(catalog, tables, plan.root, 1, limit, f).value)
  {
    var upper := AddAggregate(SlotsOf(s.groupBy, from), items.calls, AddFilter(filter, tree));
    SortedReference(catalog, tables, keys, upper, 1, limit, f);
    var level := if keys != [] then 2 else 1;
    UnitsDelivered(catalog, tables, ast, from, s, tree, filter, items, keys, level, limit, f);
    var us := Units(ast, from, Selected(ast, from, tables));
    SortedAreThere(from, ast.orderBy, us);
    if keys != [] {
      SortedUnitsNonEmpty(from, s.groupBy, items.calls, ast.orderBy, keys, us);
      SortedRowsTell(f, from, s.groupBy, items.calls, ast.orderBy, keys, us,
                     Reference(catalog, tables, upper, level, limit, f).value);
    }
  }
}
