/** What a plan computes on the table contents: the reference evaluation (execute_query, src/core/executor.cpp). */
module Execution {
  import opened Common
  import opened Values
  import opened Expressions
  import opened Binding
  import opened Aggregates
  import opened Plans
  import opened Sorting
  import Grouping
  import HashJoin
  import Pipeline

  type Rows = seq<SlotRow>

  /** The stored rows of each table. */
  type Tables = nat -> seq<Row>

  /** Invalid stands for every error the core reports as its own fault. */
  datatype ExecError = Invalid | TooManyRows | NonFiniteSortKey | AggregateFailure(error: AggregateError)

  /** The errors a valid query may still meet. */
  predicate Expected(e: ExecError) {
    || e.TooManyRows? || e.NonFiniteSortKey?
    || (e.AggregateFailure? && (e.error.CountOverflow? || e.error.SumOverflow? || e.error.NotFinite?))
  }

  // ---------------------------------------------------------------- operators

  function ScanRow(t: TableMeta, done: Rows, row: Row, columns: seq<ScanColumn>, limit: nat): Result<Rows, ExecError> {
    if !PhysicalOk(t, row) || !ScanOk(t, columns) then Err(Invalid)
    else if |done| >= limit then Err(TooManyRows)
    else Ok(done + [Materialize(row, columns)])
  }

  function ScanRows(t: TableMeta, rows: seq<Row>, columns: seq<ScanColumn>, limit: nat): Result<Rows, ExecError> {
    if rows == [] then Ok([])
    else
      match ScanRows(t, rows[..|rows| - 1], columns, limit)
      case Err(error) => Err(error)
      case Ok(done) => ScanRow(t, done, rows[|rows| - 1], columns, limit)
  }

  function FilterRows(condition: Expr<nat>, rows: Rows): Result<Rows, ExecError> {
    if rows == [] then Ok([])
    else
      match FilterRows(condition, rows[..|rows| - 1])
      case Err(error) => Err(error)
      case Ok(done) =>
        match EvaluatePredicate(condition, rows[|rows| - 1])
        case Err(_) => Err(Invalid)
        case Ok(keep) => Ok(if keep then done + [rows[|rows| - 1]] else done)
  }

  function RowsOf(sortable: seq<Sortable>): (r: Rows)
    ensures |r| == |sortable| && forall i :: 0 <= i < |r| ==> r[i] == sortable[i].row
  {
    seq(|sortable|, i requires 0 <= i < |sortable| => sortable[i].row)
  }

  function SortRows(rows: Rows, keys: seq<SortKey>): Result<Rows, ExecError> {
    match PrepareRows(rows, keys)
    case Err(error) => Err(if error.NonFiniteKey? then NonFiniteSortKey else Invalid)
    case Ok(p) => Ok(RowsOf(StableSort(p.rows, keys)))
  }

  function JoinRows(left: Rows, right: Rows, condition: Expr<nat>, limit: nat): Result<Rows, ExecError> {
    match HashJoin.NestedLoop(left, right, condition, limit)
    case Err(error) => Err(if error.RowLimit? then TooManyRows else Invalid)
    case Ok(rows) => Ok(rows)
  }

  function FinishAll(f: Floats, calls: seq<AggregateCall>,
                     states: seq<AggregateState>): (r: Result<SlotRow, AggregateError>)
    requires |states| == |calls|
    ensures r.Ok? ==> |r.value| == |calls|
    decreases |calls|
  {
    if calls == [] then Ok([])
    else
      var n := |calls| - 1;
      match FinishAll(f, calls[..n], states[..n])
      case Err(error) => Err(error)
      case Ok(done) =>
        match Finish(f, calls[n], states[n])
        case Err(error) => Err(error)
        case Ok(v) => Ok(done + [SlotValue(calls[n].output, v)])
  }

  function GroupColumns(groupKeys: seq<nat>, key: seq<Value>): (r: SlotRow)
    requires |key| == |groupKeys|
    ensures |r| == |key| && forall i :: 0 <= i < |r| ==> r[i] == SlotValue(groupKeys[i], key[i])
  {
    seq(|key|, i requires 0 <= i < |key| => SlotValue(groupKeys[i], key[i]))
  }

  function OutputRow(f: Floats, group: Grouping.Group, groupKeys: seq<nat>,
                     calls: seq<AggregateCall>): Result<SlotRow, AggregateError>
    requires |group.key| == |groupKeys| && |group.states| == |calls|
  {
    match FinishAll(f, calls, group.states)
    case Err(error) => Err(error)
    case Ok(done) => Ok(GroupColumns(groupKeys, group.key) + done)
  }

  predicate KeySizes(groups: seq<Grouping.Group>, n: nat) {
    forall g :: 0 <= g < |groups| ==> |groups[g].key| == n
  }

  function OutputRows(f: Floats, groups: seq<Grouping.Group>, groupKeys: seq<nat>,
                      calls: seq<AggregateCall>): Result<Rows, AggregateError>
    requires Grouping.WellSized(groups, calls) && KeySizes(groups, |groupKeys|)
  {
    if groups == [] then Ok([])
    else
      match OutputRows(f, groups[..|groups| - 1], groupKeys, calls)
      case Err(error) => Err(error)
      case Ok(done) =>
        match OutputRow(f, groups[|groups| - 1], groupKeys, calls)
        case Err(error) => Err(error)
        case Ok(row) => Ok(done + [row])
  }

  lemma {:induction false} GroupKeySizes(f: Floats, rows: Rows, groupKeys: seq<nat>, calls: seq<AggregateCall>)
    requires Grouping.GroupRows(f, rows, groupKeys, calls).Ok?
    ensures KeySizes(Grouping.GroupRows(f, rows, groupKeys, calls).value, |groupKeys|)
  {
    if rows != [] {
      GroupKeySizes(f, rows[..|rows| - 1], groupKeys, calls);
    }
  }

  function AggregateRows(f: Floats, rows: Rows, groupKeys: seq<nat>,
                         calls: seq<AggregateCall>): Result<Rows, ExecError> {
    match Grouping.GroupRows(f, rows, groupKeys, calls)
    case Err(error) => Err(AggregateFailure(error))
    case Ok(groups) =>
      GroupKeySizes(f, rows, groupKeys, calls);
      match OutputRows(f, groups, groupKeys, calls)
      case Err(error) => Err(AggregateFailure(error))
      case Ok(output) => Ok(output)
  }

  // ---------------------------------------------------------------- the plan

  /** The rows of a node, with every join a nested loop and every grouping a linear search. */
  function Reference(catalog: Catalog, tables: Tables, node: Node, depth: nat, limit: nat,
                     f: Floats): Result<Rows, ExecError>
    decreases node
  {
    if depth >= MAX_PLAN_DEPTH then Err(Invalid)
    else
      match node
      case Scan(id, columns) =>
        (match FindTable(catalog, id)
         case None => Err(Invalid)
         case Some(t) => ScanRows(t, tables(id), columns, limit))
      case Filter(condition, child) =>
        (match Reference(catalog, tables, child, depth + 1, limit, f)
         case Err(error) => Err(error)
         case Ok(rows) => FilterRows(condition, rows))
      case Sort(keys, child) =>
        (match Reference(catalog, tables, child, depth + 1, limit, f)
         case Err(error) => Err(error)
         case Ok(rows) => SortRows(rows, keys))
      case Join(condition, left, right) =>
        (match Reference(catalog, tables, left, depth + 1, limit, f)
         case Err(error) => Err(error)
         case Ok(l) =>
           match Reference(catalog, tables, right, depth + 1, limit, f)
           case Err(error) => Err(error)
           case Ok(r) => JoinRows(l, r, condition, limit))
      case Aggregate(groupKeys, calls, child) =>
        (match Reference(catalog, tables, child, depth + 1, limit, f)
         case Err(error) => Err(error)
         case Ok(rows) => AggregateRows(f, rows, groupKeys, calls))
  }

  // ---------------------------------------------------------------- stored rows

  /** Storage delivers rows that match the schema. */
  ghost predicate TablesOk(catalog: Catalog, tables: Tables) {
    forall t, i :: t in catalog && 0 <= i < |tables(t.id)| ==> PhysicalOk(t, tables(t.id)[i])
  }

  ghost predicate AllConform(rows: Rows, declared: SlotRow) {
    forall i :: 0 <= i < |rows| ==> Conforms(rows[i], declared)
  }

  /** Either rows of the declared shape, or an error a valid query may meet. */
  ghost predicate SoundOutcome(r: Result<Rows, ExecError>, declared: SlotRow) {
    match r
    case Ok(rows) => AllConform(rows, declared)
    case Err(error) => Expected(error)
  }

  lemma MaterializeConforms(t: TableMeta, row: Row, columns: seq<ScanColumn>)
    requires PhysicalOk(t, row) && ScanOk(t, columns)
    ensures Conforms(Materialize(row, columns), Materialize(ValidationRow(t), columns))
  {
    forall i | 0 <= i < |columns|
      ensures row[columns[i].column].Null? ||
        TypeOfValue(row[columns[i].column]) == DeclaredType(t.columns[columns[i].column].ty)
    {
      assert ValueMatches(row[columns[i].column], t.columns[columns[i].column]);
    }
  }

  lemma {:induction false} ScanSound(t: TableMeta, rows: seq<Row>, columns: seq<ScanColumn>, limit: nat)
    requires ScanOk(t, columns) && forall i :: 0 <= i < |rows| ==> PhysicalOk(t, rows[i])
    ensures SoundOutcome(ScanRows(t, rows, columns, limit), Materialize(ValidationRow(t), columns))
  {
    if rows != [] {
      ScanSound(t, rows[..|rows| - 1], columns, limit);
      MaterializeConforms(t, rows[|rows| - 1], columns);
    }
  }

  // ---------------------------------------------------------------- filters

  lemma {:induction false} FilterSound(condition: Expr<nat>, rows: Rows, declared: SlotRow)
    requires ValidPredicate(condition, declared) && AllConform(rows, declared)
    ensures FilterRows(condition, rows).Ok? && AllConform(FilterRows(condition, rows).value, declared)
  {
    if rows != [] {
      FilterSound(condition, rows[..|rows| - 1], declared);
      PredicateSound(condition, rows[|rows| - 1], declared);
    }
  }

  // ---------------------------------------------------------------- sorting

  lemma {:induction false} InsertFrom(sorted: seq<Sortable>, x: Sortable, keys: seq<SortKey>, declared: SlotRow)
    requires SizesOk(sorted, keys) && |x.keys| == |keys|
    requires Conforms(x.row, declared) && forall i :: 0 <= i < |sorted| ==> Conforms(sorted[i].row, declared)
    ensures forall i :: 0 <= i < |Insert(sorted, x, keys)| ==> Conforms(Insert(sorted, x, keys)[i].row, declared)
  {
    if sorted != [] && CompareRows(x.keys, sorted[|sorted| - 1].keys, keys) < 0 {
      InsertFrom(sorted[..|sorted| - 1], x, keys, declared);
    }
  }

  lemma {:induction false} SortConforms(rows: seq<Sortable>, keys: seq<SortKey>, declared: SlotRow)
    requires SizesOk(rows, keys) && forall i :: 0 <= i < |rows| ==> Conforms(rows[i].row, declared)
    ensures forall i :: 0 <= i < |StableSort(rows, keys)| ==> Conforms(StableSort(rows, keys)[i].row, declared)
  {
    if rows != [] {
      var n := |rows| - 1;
      SortConforms(rows[..n], keys, declared);
      InsertFrom(StableSort(rows[..n], keys), rows[n], keys, declared);
    }
  }

  function FamilyOfType(t: ExprType): Family {
    if Numeric(t) then NumericFamily else if t.TBool? then BooleanFamily else TextFamily
  }

  /** A family recorded for a key is the family of the key's declared type. */
  ghost predicate FamiliesOk(families: seq<Option<Family>>, keys: seq<SortKey>, declared: SlotRow) {
    && |families| == |keys|
    && (forall i :: 0 <= i < |keys| && families[i].Some? ==>
          Lookup(declared, keys[i].slot).Ok? &&
              families[i].value == FamilyOfType(TypeOfValue(Lookup(declared, keys[i].slot).value)))
  }

  lemma LookupSound(row: SlotRow, declared: SlotRow, slot: nat)
    requires Conforms(row, declared) && Lookup(declared, slot).Ok?
    ensures Lookup(row, slot).Ok? && HasType(Lookup(row, slot).value, TypeOfValue(Lookup(declared, slot).value))
  {
    LookupConforms(row, declared, slot);
  }

  lemma {:induction false} PrepareRowSound(row: SlotRow, keys: seq<SortKey>, families: seq<Option<Family>>,
                                           declared: SlotRow)
    requires Conforms(row, declared) && SortKeysOk(declared, keys) && FamiliesOk(families, keys, declared)
    ensures var r := PrepareRow(row, keys, families);
            if r.Ok? then FamiliesOk(r.value.families, keys, declared) else r.error.NonFiniteKey?
    decreases |keys|
  {
    if keys != [] {
      var n := |keys| - 1;
      PrepareRowSound(row, keys[..n], families[..n], declared);
      LookupSound(row, declared, keys[n].slot);
    }
  }

  lemma {:induction false} PrepareSound(rows: Rows, keys: seq<SortKey>, declared: SlotRow)
    requires AllConform(rows, declared) && SortKeysOk(declared, keys)
    ensures var r := PrepareRows(rows, keys);
            if r.Ok? then FamiliesOk(r.value.families, keys, declared) else r.error.NonFiniteKey?
  {
    if rows != [] {
      PrepareSound(rows[..|rows| - 1], keys, declared);
      var before := PrepareRows(rows[..|rows| - 1], keys);
      if before.Ok? {
        PrepareRowSound(rows[|rows| - 1], keys, before.value.families, declared);
      }
    }
  }

  /** Sorting rows of the declared shape can fail only on a non-finite key. */
  lemma SortSound(rows: Rows, keys: seq<SortKey>, declared: SlotRow)
    requires AllConform(rows, declared) && SortKeysOk(declared, keys)
    ensures SoundOutcome(SortRows(rows, keys), declared)
  {
    PrepareSound(rows, keys, declared);
    var p := PrepareRows(rows, keys);
    if p.Ok? {
      SortConforms(p.value.rows, keys, declared);
    }
  }

  // ---------------------------------------------------------------- joins

  lemma {:induction false} KeptConforms(candidates: Rows, condition: Expr<nat>, declared: SlotRow)
    requires AllConform(candidates, declared)
    ensures AllConform(HashJoin.Kept(candidates, condition), declared)
  {
    if candidates != [] {
      KeptConforms(candidates[..|candidates| - 1], condition, declared);
    }
  }

  lemma {:induction false} PairsConform(left: Rows, right: Rows, l: SlotRow, r: SlotRow)
    requires AllConform(left, l) && AllConform(right, r)
    ensures AllConform(HashJoin.Pairs(left, right), l + r)
  {
    if left != [] {
      PairsConform(left[..|left| - 1], right, l, r);
      forall j | 0 <= j < |right| ensures Conforms(left[|left| - 1] + right[j], l + r) {
        HashJoin.PairConforms(left[|left| - 1], right[j], l, r);
      }
    }
  }

  lemma {:induction false} PairsEvaluate(candidates: Rows, condition: Expr<nat>, declared: SlotRow)
    requires AllConform(candidates, declared) && ValidPredicate(condition, declared)
    ensures HashJoin.AllSound(candidates, condition)
  {
    forall i | 0 <= i < |candidates| ensures EvaluatePredicate(condition, candidates[i]).Ok? {
      PredicateSound(condition, candidates[i], declared);
    }
  }

  lemma JoinSound(left: Rows, right: Rows, condition: Expr<nat>, limit: nat, l: SlotRow, r: SlotRow)
    requires AllConform(left, l) && AllConform(right, r) && ValidPredicate(condition, l + r)
    ensures SoundOutcome(JoinRows(left, right, condition, limit), l + r)
  {
    var pairs := HashJoin.Pairs(left, right);
    PairsConform(left, right, l, r);
    PairsEvaluate(pairs, condition, l + r);
    HashJoin.PushAllKeeps([], pairs, condition, limit);
    KeptConforms(pairs, condition, l + r);
    assert [] + HashJoin.Kept(pairs, condition) == HashJoin.Kept(pairs, condition);
  }

  // ---------------------------------------------------------------- aggregates

  predicate ExpectedAggregate(e: AggregateError) {
    e.CountOverflow? || e.SumOverflow? || e.NotFinite?
  }

  ghost predicate StateTyped(call: AggregateCall, state: AggregateState) {
    (call.kind.Sum? || call.kind.Min? || call.kind.Max?) && state.value.Some? ==>
      TypeOfValue(state.value.value) == DeclaredType(call.outputType)
  }

  lemma AddValueSound(f: Floats, call: AggregateCall, state: AggregateState, v: Value, t: ExprType)
    requires StateTyped(call, state) && !v.Null? && (call.kind.Count? || (CallOk(call, Some(t)) && TypeOfValue(v) == t))
    ensures var r := AddValue(f, call, state, v);
            if r.Ok? then StateTyped(call, r.value) else ExpectedAggregate(r.error)
  {
  }

  lemma AccumulateSound(f: Floats, call: AggregateCall, row: SlotRow, state: AggregateState, child: SlotRow)
    requires Conforms(row, child) && CallSound(call, child) && StateTyped(call, state)
    ensures var r := Accumulate(f, call, row, state);
            if r.Ok? then StateTyped(call, r.value) else ExpectedAggregate(r.error)
  {
    if call.input.Some? {
      var slot := call.input.value;
      LookupSound(row, child, slot);
      var v := Lookup(row, slot).value;
      if !v.Null? {
        AddValueSound(f, call, state, v, TypeOfValue(Lookup(child, slot).value));
      }
    }
  }

  lemma FinishSound(f: Floats, call: AggregateCall, state: AggregateState, input: Option<ExprType>)
    requires StateTyped(call, state) && CallOk(call, input)
    ensures var r := Finish(f, call, state);
            if r.Ok? then HasType(r.value, DeclaredType(call.outputType)) else ExpectedAggregate(r.error)
  {
  }

  ghost predicate StatesTyped(calls: seq<AggregateCall>, states: seq<AggregateState>) {
    |states| == |calls| && forall a :: 0 <= a < |calls| ==> StateTyped(calls[a], states[a])
  }

  ghost predicate CallsSound(calls: seq<AggregateCall>, child: SlotRow) {
    forall a :: 0 <= a < |calls| ==> CallSound(calls[a], child)
  }

  lemma {:induction false} AccumulateAllSound(f: Floats, calls: seq<AggregateCall>, row: SlotRow,
                                              states: seq<AggregateState>, child: SlotRow)
    requires Conforms(row, child) && CallsSound(calls, child) && StatesTyped(calls, states)
    ensures var r := Grouping.AccumulateAll(f, calls, row, states);
            if r.Ok? then StatesTyped(calls, r.value) else ExpectedAggregate(r.error)
    decreases |calls|
  {
    if calls != [] {
      var n := |calls| - 1;
      assert CallSound(calls[n], child) && StateTyped(calls[n], states[n]);
      assert StatesTyped(calls[..n], states[..n]);
      AccumulateAllSound(f, calls[..n], row, states[..n], child);
      AccumulateSound(f, calls[n], row, states[n], child);
    }
  }

  /** The key values have the types of the grouped columns. */
  ghost predicate KeyTyped(key: seq<Value>, groupKeys: seq<nat>, child: SlotRow) {
    && |key| == |groupKeys|
    && (forall i :: 0 <= i < |key| ==>
          Lookup(child, groupKeys[i]).Ok? && HasType(key[i], TypeOfValue(Lookup(child, groupKeys[i]).value)))
  }

  lemma {:induction false} GroupKeySound(row: SlotRow, groupKeys: seq<nat>, child: SlotRow)
    requires Conforms(row, child) && forall i :: 0 <= i < |groupKeys| ==> Lookup(child, groupKeys[i]).Ok?
    ensures Grouping.GroupKey(row, groupKeys).Ok? && KeyTyped(Grouping.GroupKey(row, groupKeys).value, groupKeys, child)
  {
    if groupKeys != [] {
      var n := |groupKeys| - 1;
      GroupKeySound(row, groupKeys[..n], child);
      LookupSound(row, child, groupKeys[n]);
      var before := Grouping.GroupKey(row, groupKeys[..n]).value;
      forall i | 0 <= i < n ensures HasType(before[i], TypeOfValue(Lookup(child, groupKeys[i]).value)) {
        assert groupKeys[..n][i] == groupKeys[i];
      }
    }
  }

  ghost predicate GroupTyped(group: Grouping.Group, groupKeys: seq<nat>, calls: seq<AggregateCall>, child: SlotRow) {
    KeyTyped(group.key, groupKeys, child) && StatesTyped(calls, group.states)
  }

  ghost predicate GroupsTyped(groups: seq<Grouping.Group>, groupKeys: seq<nat>, calls: seq<AggregateCall>,
                              child: SlotRow) {
    forall g :: 0 <= g < |groups| ==> GroupTyped(groups[g], groupKeys, calls, child)
  }

  lemma StepSound(f: Floats, groups: seq<Grouping.Group>, row: SlotRow, groupKeys: seq<nat>, calls: seq<AggregateCall>,
                  child: SlotRow)
    requires Conforms(row, child) && CallsSound(calls, child) &&
      forall i :: 0 <= i < |groupKeys| ==> Lookup(child, groupKeys[i]).Ok?
    requires Grouping.WellSized(groups, calls) && GroupsTyped(groups, groupKeys, calls, child)
    ensures var r := Grouping.StepRow(f, groups, row, groupKeys, calls);
            if r.Ok? then GroupsTyped(r.value, groupKeys, calls, child) else ExpectedAggregate(r.error)
  {
    GroupKeySound(row, groupKeys, child);
    var key := Grouping.GroupKey(row, groupKeys).value;
    var grown, p := Grouping.Open(groups, key, calls), Grouping.Position(groups, key);
    assert StatesTyped(calls, Grouping.EmptyStates(|calls|));
    assert GroupsTyped(grown, groupKeys, calls, child);
    assert GroupTyped(grown[p], groupKeys, calls, child);
    AccumulateAllSound(f, calls, row, grown[p].states, child);
  }

  lemma {:induction false} GroupRowsSound(f: Floats, rows: Rows, groupKeys: seq<nat>, calls: seq<AggregateCall>,
                                          child: SlotRow)
    requires AllConform(rows, child) && CallsSound(calls, child) &&
      forall i :: 0 <= i < |groupKeys| ==> Lookup(child, groupKeys[i]).Ok?
    ensures var r := Grouping.GroupRows(f, rows, groupKeys, calls);
            if r.Ok? then GroupsTyped(r.value, groupKeys, calls, child) else ExpectedAggregate(r.error)
  {
    if rows != [] {
      GroupRowsSound(f, rows[..|rows| - 1], groupKeys, calls, child);
      var before := Grouping.GroupRows(f, rows[..|rows| - 1], groupKeys, calls);
      if before.Ok? {
        StepSound(f, before.value, rows[|rows| - 1], groupKeys, calls, child);
      }
    } else {
      assert StatesTyped(calls, Grouping.EmptyStates(|calls|));
    }
  }

  ghost predicate FinishedOk(done: SlotRow, calls: seq<AggregateCall>) {
    |done| == |calls| && forall a :: 0 <= a < |calls| ==>
        done[a].slot == calls[a].output && HasType(done[a].value, DeclaredType(calls[a].outputType))
  }

  lemma {:induction false} FinishAllSound(f: Floats, calls: seq<AggregateCall>, states: seq<AggregateState>,
                                          child: SlotRow)
    requires StatesTyped(calls, states) && CallsSound(calls, child)
    ensures var r := FinishAll(f, calls, states);
            if r.Ok? then FinishedOk(r.value, calls) else ExpectedAggregate(r.error)
    decreases |calls|
  {
    if calls != [] {
      var n := |calls| - 1;
      assert CallSound(calls[n], child) && StateTyped(calls[n], states[n]);
      FinishAllSound(f, calls[..n], states[..n], child);
      FinishSound(f, calls[n], states[n], InputType(child, calls[n]));
    }
  }

  /** The validated output row of an aggregate node. */
  ghost predicate OutputShape(output: SlotRow, groupKeys: seq<nat>, calls: seq<AggregateCall>, child: SlotRow) {
    && |output| == |groupKeys| + |calls|
    && (forall i :: 0 <= i < |groupKeys| ==>
        Lookup(child, groupKeys[i]).Ok? && output[i] == SlotValue(groupKeys[i], Lookup(child, groupKeys[i]).value))
    && (forall a :: 0 <= a < |calls| ==>
        output[|groupKeys| + a] == SlotValue(calls[a].output, Pipeline.ValidationValue(calls[a].outputType)))
  }

  lemma OutputRowSound(f: Floats, group: Grouping.Group, groupKeys: seq<nat>, calls: seq<AggregateCall>,
                       child: SlotRow, output: SlotRow)
    requires GroupTyped(group, groupKeys, calls, child) && CallsSound(calls, child) &&
      OutputShape(output, groupKeys, calls, child)
    ensures var r := OutputRow(f, group, groupKeys, calls);
            if r.Ok? then Conforms(r.value, output) else ExpectedAggregate(r.error)
  {
    FinishAllSound(f, calls, group.states, child);
    var done := FinishAll(f, calls, group.states);
    if done.Ok? {
      var row, k := GroupColumns(groupKeys, group.key) + done.value, |groupKeys|;
      forall i | 0 <= i < |row|
        ensures row[i].slot == output[i].slot && HasType(row[i].value, TypeOfValue(output[i].value)) {
        if i >= k {
          assert row[i] == done.value[i - k];
          assert output[k + (i - k)].slot == calls[i - k].output;
        }
      }
    }
  }

  lemma {:induction false} OutputRowsSound(f: Floats, groups: seq<Grouping.Group>, groupKeys: seq<nat>,
                                           calls: seq<AggregateCall>, child: SlotRow, output: SlotRow)
    requires GroupsTyped(groups, groupKeys, calls, child) && CallsSound(calls, child) &&
      OutputShape(output, groupKeys, calls, child)
    requires Grouping.WellSized(groups, calls) && KeySizes(groups, |groupKeys|)
    ensures var r := OutputRows(f, groups, groupKeys, calls);
            if r.Ok? then AllConform(r.value, output) else ExpectedAggregate(r.error)
  {
    if groups != [] {
      var n := |groups| - 1;
      OutputRowsSound(f, groups[..n], groupKeys, calls, child, output);
      assert GroupTyped(groups[n], groupKeys, calls, child);
      OutputRowSound(f, groups[n], groupKeys, calls, child, output);
    }
  }

  lemma AggregateSound(f: Floats, rows: Rows, groupKeys: seq<nat>, calls: seq<AggregateCall>, child: SlotRow,
                       output: SlotRow)
    requires AllConform(rows, child) && CallsSound(calls, child) && OutputShape(output, groupKeys, calls, child)
    ensures SoundOutcome(AggregateRows(f, rows, groupKeys, calls), output)
  {
    GroupRowsSound(f, rows, groupKeys, calls, child);
    var groups := Grouping.GroupRows(f, rows, groupKeys, calls);
    if groups.Ok? {
      GroupKeySizes(f, rows, groupKeys, calls);
      OutputRowsSound(f, groups.value, groupKeys, calls, child, output);
    }
  }

  lemma AggregateValid(child: SlotRow, groupKeys: seq<nat>, calls: seq<AggregateCall>)
    requires Typed(child) && GroupOutputs(child, groupKeys).Ok? &&
      CallOutputs(child, calls, GroupOutputs(child, groupKeys).value).Ok?
    ensures CallsSound(calls, child)
    ensures OutputShape(CallOutputs(child, calls, GroupOutputs(child, groupKeys).value).value, groupKeys, calls, child)
  {
    GroupOutputsShape(child, groupKeys);
    var groups := GroupOutputs(child, groupKeys).value;
    CallOutputsShape(child, calls, groups);
    var output := CallOutputs(child, calls, groups).value;
    forall i | 0 <= i < |groupKeys| ensures output[i] == groups[i] {
      assert output[..|groups|][i] == groups[i];
    }
  }
}
