/** Sort keys and stored DOUBLEs: the executor reports a sort key that is not finite as its own fault, and over stored
    data without such values it never meets one (src/core/executor.cpp). */
module FiniteData {
  import opened Common
  import opened Values
  import opened Expressions
  import opened Aggregates
  import opened Plans
  import opened Sorting
  import opened Execution
  import Binding
  import Grouping
  import HashJoin

  // ---------------------------------------------------------------- finite values

  predicate FiniteValues(values: seq<Value>) {
    forall i :: 0 <= i < |values| ==> FiniteValue(values[i])
  }

  predicate FiniteRow(row: SlotRow) {
    forall i :: 0 <= i < |row| ==> FiniteValue(row[i].value)
  }

  predicate AllFinite(rows: Rows) {
    forall i :: 0 <= i < |rows| ==> FiniteRow(rows[i])
  }

  /** Every DOUBLE of every stored row is finite, as the record codec demands of the rows it reads and writes. */
  ghost predicate StoredFinite(tables: Tables) {
    forall id, i :: 0 <= i < |tables(id)| ==> FiniteValues(tables(id)[i])
  }

  lemma {:induction false} BindingFinite(row: SlotRow, slot: nat)
    requires FiniteRow(row) && FirstBinding(row, slot).Some?
    ensures FiniteValue(FirstBinding(row, slot).value)
  {
    if row[0].slot != slot {
      assert forall i :: 0 <= i < |row| - 1 ==> row[1..][i] == row[i + 1];
      BindingFinite(row[1..], slot);
    }
  }

  lemma LookupFinite(row: SlotRow, slot: nat)
    requires FiniteRow(row) && Lookup(row, slot).Ok?
    ensures FiniteValue(Lookup(row, slot).value)
  {
    BindingFinite(row, slot);
  }

  // ---------------------------------------------------------------- scans, filters, joins

  lemma {:induction false} ScanFinite(t: Binding.TableMeta, rows: seq<Row>, columns: seq<Binding.ScanColumn>,
                                      limit: nat)
    requires forall i :: 0 <= i < |rows| ==> FiniteValues(rows[i])
    ensures var r := ScanRows(t, rows, columns, limit);
            if r.Ok? then AllFinite(r.value) else !r.error.NonFiniteSortKey?
  {
    if rows != [] {
      ScanFinite(t, rows[..|rows| - 1], columns, limit);
    }
  }

  lemma {:induction false} FilterFinite(condition: Expr<nat>, rows: Rows)
    requires AllFinite(rows)
    ensures var r := FilterRows(condition, rows);
            if r.Ok? then AllFinite(r.value) else !r.error.NonFiniteSortKey?
  {
    if rows != [] {
      FilterFinite(condition, rows[..|rows| - 1]);
    }
  }

  lemma {:induction false} PairsFinite(left: Rows, right: Rows)
    requires AllFinite(left) && AllFinite(right)
    ensures AllFinite(HashJoin.Pairs(left, right))
  {
    if left != [] {
      PairsFinite(left[..|left| - 1], right);
    }
  }

  lemma {:induction false} PushFinite(joined: Rows, candidates: Rows, condition: Expr<nat>, limit: nat)
    requires AllFinite(joined) && AllFinite(candidates)
    ensures var r := HashJoin.PushAll(joined, candidates, condition, limit);
            r.Ok? ==> AllFinite(r.value)
    decreases |candidates|
  {
    if candidates != [] {
      var more := HashJoin.PushMatch(joined, candidates[0], condition, limit);
      if more.Ok? {
        PushFinite(more.value, candidates[1..], condition, limit);
      }
    }
  }

  lemma JoinFinite(left: Rows, right: Rows, condition: Expr<nat>, limit: nat)
    requires AllFinite(left) && AllFinite(right)
    ensures var r := JoinRows(left, right, condition, limit);
            if r.Ok? then AllFinite(r.value) else !r.error.NonFiniteSortKey?
  {
    PairsFinite(left, right);
    PushFinite([], HashJoin.Pairs(left, right), condition, limit);
  }

  // ---------------------------------------------------------------- sorting

  /** Preparing a row finds a key that is not finite exactly when it has one, as long as nothing else is wrong. */
  ghost predicate FiniteKeys(row: SlotRow, keys: seq<SortKey>) {
    forall k :: 0 <= k < |keys| ==> Lookup(row, keys[k].slot).Ok? ==> FiniteValue(Lookup(row, keys[k].slot).value)
  }

  lemma {:induction false} PrepareRowFinite(row: SlotRow, keys: seq<SortKey>, families: seq<Option<Family>>)
    requires |families| == |keys|
    ensures var r := PrepareRow(row, keys, families);
            && (r.Err? && r.error.NonFiniteKey? ==> !FiniteKeys(row, keys))
            && (r.Ok? ==> FiniteKeys(row, keys))
    decreases |keys|
  {
    if keys != [] {
      var n := |keys| - 1;
      PrepareRowFinite(row, keys[..n], families[..n]);
      assert forall k :: 0 <= k < n ==> keys[..n][k] == keys[k];
    }
  }

  ghost predicate AllKeysFinite(rows: Rows, keys: seq<SortKey>) {
    forall i :: 0 <= i < |rows| ==> FiniteKeys(rows[i], keys)
  }

  lemma {:induction false} PrepareFinite(rows: Rows, keys: seq<SortKey>)
    ensures var r := PrepareRows(rows, keys);
            && (r.Err? && r.error.NonFiniteKey? ==> !AllKeysFinite(rows, keys))
            && (r.Ok? ==> AllKeysFinite(rows, keys))
  {
    if rows != [] {
      var n := |rows| - 1;
      PrepareFinite(rows[..n], keys);
      var before := PrepareRows(rows[..n], keys);
      if before.Ok? {
        PrepareRowFinite(rows[n], keys, before.value.families);
      }
      assert forall i :: 0 <= i < n ==> rows[..n][i] == rows[i];
    }
  }

  /** Sorting rows of the declared shape is refused exactly when some key of some row is not finite. */
  lemma SortRefuses(rows: Rows, keys: seq<SortKey>, declared: SlotRow)
    requires AllConform(rows, declared) && SortKeysOk(declared, keys)
    ensures SortRows(rows, keys) == Err(NonFiniteSortKey) <==> !AllKeysFinite(rows, keys)
    ensures SortRows(rows, keys).Err? ==> SortRows(rows, keys) == Err(NonFiniteSortKey)
  {
    PrepareFinite(rows, keys);
    PrepareSound(rows, keys, declared);
  }

  lemma {:induction false} InsertFinite(sorted: seq<Sortable>, x: Sortable, keys: seq<SortKey>)
    requires SizesOk(sorted, keys) && |x.keys| == |keys|
    requires FiniteRow(x.row) && forall i :: 0 <= i < |sorted| ==> FiniteRow(sorted[i].row)
    ensures forall i :: 0 <= i < |Insert(sorted, x, keys)| ==> FiniteRow(Insert(sorted, x, keys)[i].row)
  {
    if sorted != [] && CompareRows(x.keys, sorted[|sorted| - 1].keys, keys) < 0 {
      InsertFinite(sorted[..|sorted| - 1], x, keys);
    }
  }

  lemma {:induction false} StableFinite(rows: seq<Sortable>, keys: seq<SortKey>)
    requires SizesOk(rows, keys) && forall i :: 0 <= i < |rows| ==> FiniteRow(rows[i].row)
    ensures forall i :: 0 <= i < |StableSort(rows, keys)| ==> FiniteRow(StableSort(rows, keys)[i].row)
  {
    if rows != [] {
      var n := |rows| - 1;
      StableFinite(rows[..n], keys);
      InsertFinite(StableSort(rows[..n], keys), rows[n], keys);
    }
  }

  lemma SortFinite(rows: Rows, keys: seq<SortKey>)
    requires AllFinite(rows)
    ensures var r := SortRows(rows, keys);
            if r.Ok? then AllFinite(r.value) else !r.error.NonFiniteSortKey?
  {
    PrepareFinite(rows, keys);
    forall i | 0 <= i < |rows| ensures FiniteKeys(rows[i], keys) {
      forall k | 0 <= k < |keys| && Lookup(rows[i], keys[k].slot).Ok?
        ensures FiniteValue(Lookup(rows[i], keys[k].slot).value)
      {
        LookupFinite(rows[i], keys[k].slot);
      }
    }
    var p := PrepareRows(rows, keys);
    if p.Ok? {
      StableFinite(p.value.rows, keys);
    }
  }

  // ---------------------------------------------------------------- aggregates

  predicate FiniteState(state: AggregateState) {
    state.value.Some? ==> FiniteValue(state.value.value)
  }

  predicate FiniteStates(states: seq<AggregateState>) {
    forall a :: 0 <= a < |states| ==> FiniteState(states[a])
  }

  predicate FiniteGroups(groups: seq<Grouping.Group>) {
    forall g :: 0 <= g < |groups| ==> FiniteValues(groups[g].key) && FiniteStates(groups[g].states)
  }

  lemma AccumulateFinite(f: Floats, call: AggregateCall, row: SlotRow, state: AggregateState)
    requires FiniteRow(row) && FiniteState(state)
    ensures var r := Accumulate(f, call, row, state); r.Ok? ==> FiniteState(r.value)
  {
    if call.input.Some? && Lookup(row, call.input.value).Ok? {
      LookupFinite(row, call.input.value);
    }
  }

  lemma {:induction false} AccumulateAllFinite(f: Floats, calls: seq<AggregateCall>, row: SlotRow,
                                               states: seq<AggregateState>)
    requires |states| == |calls| && FiniteRow(row) && FiniteStates(states)
    ensures var r := Grouping.AccumulateAll(f, calls, row, states); r.Ok? ==> FiniteStates(r.value)
    decreases |calls|
  {
    if calls != [] {
      var n := |calls| - 1;
      AccumulateAllFinite(f, calls[..n], row, states[..n]);
      AccumulateFinite(f, calls[n], row, states[n]);
    }
  }

  lemma {:induction false} GroupKeyFinite(row: SlotRow, slots: seq<nat>)
    requires FiniteRow(row) && Grouping.GroupKey(row, slots).Ok?
    ensures FiniteValues(Grouping.GroupKey(row, slots).value)
  {
    if slots != [] {
      GroupKeyFinite(row, slots[..|slots| - 1]);
      LookupFinite(row, slots[|slots| - 1]);
    }
  }

  lemma StepFinite(f: Floats, groups: seq<Grouping.Group>, row: SlotRow, slots: seq<nat>, calls: seq<AggregateCall>)
    requires Grouping.WellSized(groups, calls) && FiniteGroups(groups) && FiniteRow(row)
    ensures var r := Grouping.StepRow(f, groups, row, slots, calls); r.Ok? ==> FiniteGroups(r.value)
  {
    var k := Grouping.GroupKey(row, slots);
    if k.Ok? {
      GroupKeyFinite(row, slots);
      var grown, p := Grouping.Open(groups, k.value, calls), Grouping.Position(groups, k.value);
      assert FiniteStates(Grouping.EmptyStates(|calls|));
      assert FiniteGroups(grown);
      AccumulateAllFinite(f, calls, row, grown[p].states);
    }
  }

  lemma {:induction false} GroupsFinite(f: Floats, rows: Rows, slots: seq<nat>, calls: seq<AggregateCall>)
    requires AllFinite(rows)
    ensures var r := Grouping.GroupRows(f, rows, slots, calls); r.Ok? ==> FiniteGroups(r.value)
  {
    if rows != [] {
      var n := |rows| - 1;
      GroupsFinite(f, rows[..n], slots, calls);
      var before := Grouping.GroupRows(f, rows[..n], slots, calls);
      if before.Ok? {
        StepFinite(f, before.value, rows[n], slots, calls);
      }
    } else {
      assert FiniteStates(Grouping.EmptyStates(|calls|));
    }
  }

  lemma {:induction false} FinishFinite(f: Floats, calls: seq<AggregateCall>, states: seq<AggregateState>)
    requires |states| == |calls| && FiniteStates(states)
    ensures var r := FinishAll(f, calls, states); r.Ok? ==> FiniteRow(r.value)
    decreases |calls|
  {
    if calls != [] {
      var n := |calls| - 1;
      FinishFinite(f, calls[..n], states[..n]);
      assert FiniteState(states[n]);
    }
  }

  lemma {:induction false} OutputFinite(f: Floats, groups: seq<Grouping.Group>, groupKeys: seq<nat>,
                                        calls: seq<AggregateCall>)
    requires Grouping.WellSized(groups, calls) && KeySizes(groups, |groupKeys|) && FiniteGroups(groups)
    ensures var r := OutputRows(f, groups, groupKeys, calls); r.Ok? ==> AllFinite(r.value)
  {
    if groups != [] {
      var n := |groups| - 1;
      OutputFinite(f, groups[..n], groupKeys, calls);
      FinishFinite(f, calls, groups[n].states);
      assert FiniteRow(GroupColumns(groupKeys, groups[n].key));
    }
  }

  lemma AggregateFinite(f: Floats, rows: Rows, groupKeys: seq<nat>, calls: seq<AggregateCall>)
    requires AllFinite(rows)
    ensures var r := AggregateRows(f, rows, groupKeys, calls);
            if r.Ok? then AllFinite(r.value) else !r.error.NonFiniteSortKey?
  {
    GroupsFinite(f, rows, groupKeys, calls);
    var groups := Grouping.GroupRows(f, rows, groupKeys, calls);
    if groups.Ok? {
      GroupKeySizes(f, rows, groupKeys, calls);
      OutputFinite(f, groups.value, groupKeys, calls);
    }
  }

  // ---------------------------------------------------------------- whole plans

  predicate FiniteOutcome(r: Result<Rows, ExecError>) {
    if r.Ok? then AllFinite(r.value) else !r.error.NonFiniteSortKey?
  }

  lemma UnaryStaysFinite(catalog: Catalog, tables: Tables, node: Node, depth: nat, limit: nat, f: Floats)
    requires (node.Filter? || node.Sort? || node.Aggregate?)
    requires FiniteOutcome(Reference(catalog, tables, node.child, depth + 1, limit, f))
    ensures FiniteOutcome(Reference(catalog, tables, node, depth, limit, f))
  {
    var rows := Reference(catalog, tables, node.child, depth + 1, limit, f);
    if rows.Ok? {
      match node
      case Filter(condition, _) => FilterFinite(condition, rows.value);
      case Sort(keys, _) => SortFinite(rows.value, keys);
      case Aggregate(groupKeys, calls, _) => AggregateFinite(f, rows.value, groupKeys, calls);
    }
  }

  lemma JoinStaysFinite(catalog: Catalog, tables: Tables, node: Node, depth: nat, limit: nat, f: Floats)
    requires node.Join?
    requires FiniteOutcome(Reference(catalog, tables, node.left, depth + 1, limit, f))
    requires FiniteOutcome(Reference(catalog, tables, node.right, depth + 1, limit, f))
    ensures FiniteOutcome(Reference(catalog, tables, node, depth, limit, f))
  {
    var l, r := Reference(catalog, tables, node.left, depth + 1, limit, f),
                Reference(catalog, tables, node.right, depth + 1, limit, f);
    if l.Ok? && r.Ok? {
      JoinFinite(l.value, r.value, node.condition, limit);
    }
  }

  lemma ScanStaysFinite(catalog: Catalog, tables: Tables, node: Node, depth: nat, limit: nat, f: Floats)
    requires node.Scan? && StoredFinite(tables)
    ensures FiniteOutcome(Reference(catalog, tables, node, depth, limit, f))
  {
    var t := FindTable(catalog, node.table);
    if t.Some? {
      ScanFinite(t.value, tables(node.table), node.columns, limit);
    }
  }

  /** Over finite stored data every node of every plan delivers finite rows, and no sort key is refused. */
  lemma {:induction false} FiniteDataStaysFinite(catalog: Catalog, tables: Tables, node: Node, depth: nat, limit: nat,
                                                 f: Floats)
    requires StoredFinite(tables)
    ensures FiniteOutcome(Reference(catalog, tables, node, depth, limit, f))
    decreases node
  {
    match node
    case Scan(_, _) => ScanStaysFinite(catalog, tables, node, depth, limit, f);
    case Join(_, left, right) =>
      FiniteDataStaysFinite(catalog, tables, left, depth + 1, limit, f);
      FiniteDataStaysFinite(catalog, tables, right, depth + 1, limit, f);
      JoinStaysFinite(catalog, tables, node, depth, limit, f);
    case _ =>
      FiniteDataStaysFinite(catalog, tables, node.child, depth + 1, limit, f);
      UnaryStaysFinite(catalog, tables, node, depth, limit, f);
  }
}
