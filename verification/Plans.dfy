/** Query plans and their validation (validate_dataflow_node, src/core/executor.cpp). */
module Plans {
  import opened Common
  import opened Values
  import opened Expressions
  import opened Binding
  import opened Pipeline
  import opened Aggregates

  datatype SortKey = SortKey(slot: nat, ascending: bool)

  datatype Node =
    | Scan(table: nat, columns: seq<ScanColumn>)
    | Filter(condition: Expr<nat>, child: Node)
    | Sort(keys: seq<SortKey>, child: Node)
    | Join(condition: Expr<nat>, left: Node, right: Node)
    | Aggregate(groupKeys: seq<nat>, calls: seq<AggregateCall>, child: Node)

  type Catalog = seq<TableMeta>

  type Row = seq<Value>

  datatype PlanError =
    | PlanTooDeep
    | UnknownTable
    | BadMetadata
    | BadScan
    | BadExpression
    | BadLookup
    | NoSortKeys
    | DuplicateSlot
    | BadAggregateCall
    | BadOutputs

  const MAX_PLAN_DEPTH: nat := 256

  function FindTable(catalog: Catalog, id: nat): (r: Option<TableMeta>)
    ensures r.Some? ==> r.value in catalog && r.value.id == id
  {
    if catalog == [] then None
    else if catalog[0].id == id then Some(catalog[0])
    else FindTable(catalog[1..], id)
  }

  // ---------------------------------------------------------------- table metadata and scan mappings

  predicate Lower(c: char) {
    'a' <= c <= 'z'
  }

  predicate ValidIdentifier(s: string) {
    0 < |s| <= 64 && Lower(s[0]) && forall i :: 0 < i < |s| ==> Lower(s[i]) || '0' <= s[i] <= '9' || s[i] == '_'
  }

  /** validate_table_metadata. */
  predicate MetadataOk(t: TableMeta) {
    && ValidIdentifier(t.name) && t.columns != []
    && (forall i :: 0 <= i < |t.columns| ==> ValidIdentifier(t.columns[i].name))
    && (forall i, j :: 0 <= i < j < |t.columns| ==> t.columns[i].name != t.columns[j].name)
  }

  /** The mapping covers the schema and repeats neither a column nor a slot. */
  predicate ScanOk(t: TableMeta, columns: seq<ScanColumn>) {
    && |columns| == |t.columns|
    && (forall i :: 0 <= i < |columns| ==> columns[i].column < |t.columns|)
    && (forall i, j :: 0 <= i < j < |columns| ==>
        columns[i].column != columns[j].column && columns[i].slot != columns[j].slot)
  }

  predicate ValueMatches(v: Value, c: ColumnMeta) {
    if v.Null? then c.nullable else TypeOfValue(v) == DeclaredType(c.ty)
  }

  /** validate_physical_row. */
  predicate PhysicalOk(t: TableMeta, row: Row) {
    |row| == |t.columns| && forall i :: 0 <= i < |row| ==> ValueMatches(row[i], t.columns[i])
  }

  function Materialize(row: Row, columns: seq<ScanColumn>): (r: SlotRow)
    requires forall i :: 0 <= i < |columns| ==> columns[i].column < |row|
    ensures |r| == |columns| && forall i :: 0 <= i < |r| ==> r[i] == SlotValue(columns[i].slot, row[columns[i].column])
  {
    seq(|columns|, i requires 0 <= i < |columns| => SlotValue(columns[i].slot, row[columns[i].column]))
  }

  function ValidationRow(t: TableMeta): (r: Row)
    ensures |r| == |t.columns| && forall i :: 0 <= i < |r| ==> r[i] == ValidationValue(t.columns[i].ty)
  {
    seq(|t.columns|, i requires 0 <= i < |t.columns| => ValidationValue(t.columns[i].ty))
  }

  // ---------------------------------------------------------------- merging and collecting

  /** merge_slot_rows. */
  function Merge(merged: SlotRow, right: SlotRow): Result<SlotRow, PlanError>
    decreases |right|
  {
    if right == [] then Ok(merged)
    else if Lookup(merged, right[0].slot).Ok? then Err(DuplicateSlot)
    else Merge(merged + [right[0]], right[1..])
  }

  /** append_slot_types: a slot already known keeps its first type. */
  function AppendTypes(types: SlotRow, row: SlotRow): SlotRow
    decreases |row|
  {
    if row == [] then types
    else AppendTypes(if Bindings(types, row[0].slot) > 0 then types else types + [row[0]], row[1..])
  }

  function GroupOutputs(child: SlotRow, keys: seq<nat>): Result<SlotRow, PlanError> {
    if keys == [] then Ok([])
    else
      var slot := keys[|keys| - 1];
      match GroupOutputs(child, keys[..|keys| - 1])
      case Err(error) => Err(error)
      case Ok(output) =>
        if Lookup(child, slot).Err? then Err(BadLookup)
        else if Bindings(output, slot) > 0 then Err(DuplicateSlot)
        else Ok(output + [SlotValue(slot, Lookup(child, slot).value)])
  }

  /** The type contract of a call, given the type of its input column. */
  predicate CallOk(call: AggregateCall, input: Option<ExprType>) {
    match call.kind
    case Count => call.outputType.BigIntType? && !call.nullable
    case Sum =>
      && input.Some? && Numeric(input.value) && call.nullable
      && call.outputType == (if input.value.TDouble? then DoubleType else BigIntType)
    case Avg => input.Some? && Numeric(input.value) && call.nullable && call.outputType.DoubleType?
    case Min => input.Some? && !input.value.TBool? && !input.value.TNull? && call.nullable &&
      DeclaredType(call.outputType) == input.value
    case Max =>
      input.Some? && !input.value.TBool? && !input.value.TNull? && call.nullable &&
      DeclaredType(call.outputType) == input.value
  }

  function CallOutputs(child: SlotRow, calls: seq<AggregateCall>, before: SlotRow): Result<SlotRow, PlanError> {
    if calls == [] then Ok(before)
    else
      var call := calls[|calls| - 1];
      match CallOutputs(child, calls[..|calls| - 1], before)
      case Err(error) => Err(error)
      case Ok(output) =>
        if Lookup(child, call.output).Ok? || Bindings(output, call.output) > 0 then Err(DuplicateSlot)
        else if call.input.Some? && Lookup(child, call.input.value).Err? then Err(BadLookup)
        else if !CallOk(call, InputType(child, call)) then Err(BadAggregateCall)
        else Ok(output + [SlotValue(call.output, ValidationValue(call.outputType))])
  }

  function InputType(child: SlotRow, call: AggregateCall): Option<ExprType> {
    if call.input.None? then None
    else
      match Lookup(child, call.input.value)
      case Err(_) => None
      case Ok(v) => Some(TypeOfValue(v))
  }

  /** The call passed validation against the child's row. */
  ghost predicate CallSound(call: AggregateCall, child: SlotRow) {
    && CallOk(call, InputType(child, call))
    && (call.input.Some? ==> Lookup(child, call.input.value).Ok?)
  }

  predicate SortKeysOk(child: SlotRow, keys: seq<SortKey>) {
    forall i :: 0 <= i < |keys| ==> Lookup(child, keys[i].slot).Ok?
  }

  // ---------------------------------------------------------------- the validator

  /** The typed row a node delivers, and the slot types known after visiting it. */
  datatype Checked = Checked(row: SlotRow, types: SlotRow)

  /** validate_dataflow_node. */
  function ValidateNode(catalog: Catalog, node: Node, depth: nat, types: SlotRow): Result<Checked, PlanError>
    decreases node
  {
    if depth >= MAX_PLAN_DEPTH then Err(PlanTooDeep)
    else
      match node
      case Scan(id, columns) =>
        (match FindTable(catalog, id)
         case None => Err(UnknownTable)
         case Some(t) =>
           if !MetadataOk(t) then Err(BadMetadata)
           else if !ScanOk(t, columns) then Err(BadScan)
           else
             var row := Materialize(ValidationRow(t), columns);
             Ok(Checked(row, AppendTypes(types, row))))
      case Filter(condition, child) =>
        (match ValidateNode(catalog, child, depth + 1, types)
         case Err(error) => Err(error)
         case Ok(c) => if ValidPredicate(condition, c.row) then Ok(c) else Err(BadExpression))
      case Sort(keys, child) =>
        if keys == [] then Err(NoSortKeys)
        else
          (match ValidateNode(catalog, child, depth + 1, types)
           case Err(error) => Err(error)
           case Ok(c) => if SortKeysOk(c.row, keys) then Ok(c) else Err(BadLookup))
      case Join(condition, left, right) =>
        (match ValidateNode(catalog, left, depth + 1, types)
         case Err(error) => Err(error)
         case Ok(l) =>
           match ValidateNode(catalog, right, depth + 1, l.types)
           case Err(error) => Err(error)
           case Ok(r) =>
             match Merge(l.row, r.row)
             case Err(error) => Err(error)
             case Ok(row) => if ValidPredicate(condition, row) then Ok(Checked(row, r.types)) else Err(BadExpression))
      case Aggregate(groupKeys, calls, child) =>
        (match ValidateNode(catalog, child, depth + 1, types)
         case Err(error) => Err(error)
         case Ok(c) =>
           match GroupOutputs(c.row, groupKeys)
           case Err(error) => Err(error)
           case Ok(groups) =>
             match CallOutputs(c.row, calls, groups)
             case Err(error) => Err(error)
             case Ok(row) => Ok(Checked(row, AppendTypes(c.types, row))))
  }

  // ---------------------------------------------------------------- validated rows bind each slot once

  ghost predicate Unique(row: SlotRow) {
    forall slot :: Bindings(row, slot) <= 1
  }

  ghost predicate Typed(row: SlotRow) {
    forall i :: 0 <= i < |row| ==> !row[i].value.Null?
  }

  lemma UniqueAppend(row: SlotRow, entry: SlotValue)
    requires Unique(row) && Bindings(row, entry.slot) == 0
    ensures Unique(row + [entry])
  {
    forall slot ensures Bindings(row + [entry], slot) <= 1 {
      BindingsConcat(row, [entry], slot);
      assert Bindings([entry], slot) == (if entry.slot == slot then 1 else 0) + Bindings([entry][1..], slot);
    }
  }

  lemma {:induction false} MergeAppends(merged: SlotRow, right: SlotRow)
    requires Unique(merged) && Merge(merged, right).Ok?
    ensures Merge(merged, right).value == merged + right && Unique(merged + right)
    decreases |right|
  {
    if right == [] {
      assert merged + right == merged;
    } else {
      UniqueAppend(merged, right[0]);
      MergeAppends(merged + [right[0]], right[1..]);
      assert merged + [right[0]] + right[1..] == merged + right;
    }
  }

  lemma {:induction false} NotBound(row: SlotRow, slot: nat)
    requires forall i :: 0 <= i < |row| ==> row[i].slot != slot
    ensures Bindings(row, slot) == 0
  {
    if row != [] {
      NotBound(row[1..], slot);
    }
  }

  lemma {:induction false} DistinctSlotsUnique(row: SlotRow)
    requires forall i, j :: 0 <= i < j < |row| ==> row[i].slot != row[j].slot
    ensures Unique(row)
  {
    if row != [] {
      var n := |row| - 1;
      DistinctSlotsUnique(row[..n]);
      NotBound(row[..n], row[n].slot);
      UniqueAppend(row[..n], row[n]);
      assert row == row[..n] + [row[n]];
    }
  }

  lemma {:induction false} GroupOutputsShape(child: SlotRow, keys: seq<nat>)
    requires GroupOutputs(child, keys).Ok? && Typed(child)
    ensures var r := GroupOutputs(child, keys).value;
            && Unique(r) && Typed(r) && |r| == |keys|
            && forall i :: 0 <= i < |keys| ==>
                Lookup(child, keys[i]).Ok? && r[i] == SlotValue(keys[i], Lookup(child, keys[i]).value)
  {
    if keys != [] {
      var n := |keys| - 1;
      GroupOutputsShape(child, keys[..n]);
      var before := GroupOutputs(child, keys[..n]).value;
      UniqueAppend(before, SlotValue(keys[n], Lookup(child, keys[n]).value));
      LookupTypedValue(child, keys[n]);
    }
  }

  lemma {:induction false} FirstBindingIn(row: SlotRow, slot: nat)
    requires Bindings(row, slot) > 0
    ensures exists i :: 0 <= i < |row| && row[i].slot == slot && FirstBinding(row, slot) == Some(row[i].value)
  {
    if row[0].slot != slot {
      FirstBindingIn(row[1..], slot);
      var i :| 0 <= i < |row[1..]| && row[1..][i].slot == slot &&
          FirstBinding(row[1..], slot) == Some(row[1..][i].value);
      assert row[i + 1].slot == slot && FirstBinding(row, slot) == Some(row[i + 1].value);
    }
  }

  lemma LookupTypedValue(row: SlotRow, slot: nat)
    requires Typed(row) && Lookup(row, slot).Ok?
    ensures !Lookup(row, slot).value.Null?
  {
    FirstBindingIn(row, slot);
  }

  /** The output entry of each call, after the group columns. */
  lemma {:induction false} CallOutputsShape(child: SlotRow, calls: seq<AggregateCall>, before: SlotRow)
    requires CallOutputs(child, calls, before).Ok? && Unique(before) && Typed(before)
    ensures var r := CallOutputs(child, calls, before).value;
            && Unique(r) && Typed(r) && |r| == |before| + |calls| && r[..|before|] == before
            && forall i :: 0 <= i < |calls| ==>
                 && r[|before| + i] == SlotValue(calls[i].output, ValidationValue(calls[i].outputType))
                 && CallSound(calls[i], child)
  {
    if calls != [] {
      var n := |calls| - 1;
      CallOutputsShape(child, calls[..n], before);
      var r := CallOutputs(child, calls[..n], before).value;
      UniqueAppend(r, SlotValue(calls[n].output, ValidationValue(calls[n].outputType)));
    }
  }

  lemma ScanShape(t: TableMeta, columns: seq<ScanColumn>)
    requires ScanOk(t, columns)
    ensures Unique(Materialize(ValidationRow(t), columns)) && Typed(Materialize(ValidationRow(t), columns))
  {
    DistinctSlotsUnique(Materialize(ValidationRow(t), columns));
  }

  lemma AggregateShape(child: SlotRow, groupKeys: seq<nat>, calls: seq<AggregateCall>)
    requires Typed(child) && GroupOutputs(child, groupKeys).Ok? &&
      CallOutputs(child, calls, GroupOutputs(child, groupKeys).value).Ok?
    ensures Unique(CallOutputs(child, calls, GroupOutputs(child, groupKeys).value).value)
    ensures Typed(CallOutputs(child, calls, GroupOutputs(child, groupKeys).value).value)
  {
    GroupOutputsShape(child, groupKeys);
    CallOutputsShape(child, calls, GroupOutputs(child, groupKeys).value);
  }

  /** Every row the validator computes binds each slot at most once, to a value of a declared type. */
  lemma {:induction false} ValidRowShape(catalog: Catalog, node: Node, depth: nat, types: SlotRow)
    requires ValidateNode(catalog, node, depth, types).Ok?
    ensures var c := ValidateNode(catalog, node, depth, types).value; Unique(c.row) && Typed(c.row)
    decreases node
  {
    match node
    case Scan(id, columns) => ScanShape(FindTable(catalog, id).value, columns);
    case Filter(_, child) => ValidRowShape(catalog, child, depth + 1, types);
    case Sort(_, child) => ValidRowShape(catalog, child, depth + 1, types);
    case Join(_, left, right) =>
      ValidRowShape(catalog, left, depth + 1, types);
      var l := ValidateNode(catalog, left, depth + 1, types).value;
      ValidRowShape(catalog, right, depth + 1, l.types);
      MergeAppends(l.row, ValidateNode(catalog, right, depth + 1, l.types).value.row);
    case Aggregate(groupKeys, calls, child) =>
      ValidRowShape(catalog, child, depth + 1, types);
      AggregateShape(ValidateNode(catalog, child, depth + 1, types).value.row, groupKeys, calls);
  }
}
