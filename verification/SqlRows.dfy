/** The rows under the projection tell the grouped columns and the aggregates of the statement's units. */
module SqlRows {
  import opened Common
  import opened Values
  import opened Expressions
  import opened Binding
  import opened Pipeline
  import opened Aggregates
  import opened Plans
  import opened Select
  import opened SelectAnalysis
  import opened SelectAccepted
  import opened Execution
  import opened SqlMeaning
  import opened SqlNames
  import opened SqlJoins
  import opened SqlGroups
  import Keys
  import Grouping
  import GroupTheorems

  // ---------------------------------------------------------------- what a row tells

  /** The call's value over the rows of the unit. */
  ghost predicate CallGives(f: Floats, call: AggregateCall, from: Scope, u: Unit, v: Value) {
    && AllSized(|from|, u) && Fold(f, call, PlanRowsOf(from, u)).Ok?
    && Finish(f, call, Fold(f, call, PlanRowsOf(from, u)).value) == Ok(v)
  }

  ghost predicate TellsColumns(from: Scope, grouped: bool, columns: seq<BoundColumn>, u: Unit, row: SlotRow)
    requires AllSized(|from|, u)
  {
    u != [] ==>
      forall c :: InScope(c, from) && (grouped ==> c in columns) ==>
        Lookup(row, SlotIn(from, 0, c)) == Ok(BoundValue(from, u[0], c))
  }

  ghost predicate TellsCalls(f: Floats, from: Scope, calls: seq<AggregateCall>, u: Unit, row: SlotRow) {
    forall a :: 0 <= a < |calls| ==>
      && Lookup(row, calls[a].output).Ok?
      && CallGives(f, calls[a], from, u, Lookup(row, calls[a].output).value)
  }

  ghost predicate RowTells(f: Floats, from: Scope, columns: seq<BoundColumn>, calls: seq<AggregateCall>, u: Unit,
                           row: SlotRow)
  {
    && AllOk(from, u)
    && TellsColumns(from, columns != [] || calls != [], columns, u, row) && TellsCalls(f, from, calls, u, row)
  }

  ghost predicate RowsTell(f: Floats, from: Scope, columns: seq<BoundColumn>, calls: seq<AggregateCall>,
                           us: seq<Unit>, rows: Rows)
  {
    |rows| == |us| && forall g :: 0 <= g < |us| ==> RowTells(f, from, columns, calls, us[g], rows[g])
  }

  // ---------------------------------------------------------------- without grouping

  lemma PlanRowTells(f: Floats, from: Scope, t: Tuple)
    requires DistinctIds(from) && TupleOk(from, t)
    ensures RowTells(f, from, [], [], [t], PlanRow(from, t))
  {
    forall c | InScope(c, from) ensures Lookup(PlanRow(from, t), SlotIn(from, 0, c)) == Ok(BoundValue(from, t, c)) {
      SlotHoldsColumn(from, 0, BoundEnv(from, t), c);
    }
  }

  lemma PlainRowsTell(f: Floats, from: Scope, ts: seq<Tuple>)
    requires DistinctIds(from) && AllOk(from, ts)
    ensures RowsTell(f, from, [], [], Alone(ts), PlanRowsOf(from, ts))
  {
    forall i | 0 <= i < |ts| ensures RowTells(f, from, [], [], Alone(ts)[i], PlanRowsOf(from, ts)[i]) {
      PlanRowTells(f, from, ts[i]);
    }
  }

  // ---------------------------------------------------------------- one output row

  ghost predicate DistinctSlots(row: SlotRow) {
    forall i, j :: 0 <= i < j < |row| ==> row[i].slot != row[j].slot
  }

  lemma {:induction false} LookupDistinct(row: SlotRow, i: nat)
    requires DistinctSlots(row) && i < |row|
    ensures Lookup(row, row[i].slot) == Ok(row[i].value)
    decreases |row|
  {
    if i > 0 {
      LookupDistinct(row[1..], i - 1);
    } else {
      NotBound(row[1..], row[0].slot);
    }
  }

  lemma {:induction false} FinishEach(f: Floats, calls: seq<AggregateCall>, states: seq<AggregateState>)
    requires |states| == |calls| && FinishAll(f, calls, states).Ok?
    ensures forall a :: 0 <= a < |calls| ==>
              && Finish(f, calls[a], states[a]).Ok?
              && FinishAll(f, calls, states).value[a] ==
                 SlotValue(calls[a].output, Finish(f, calls[a], states[a]).value)
    decreases |calls|
  {
    if calls != [] {
      var n := |calls| - 1;
      FinishEach(f, calls[..n], states[..n]);
      forall a | 0 <= a < n ensures calls[..n][a] == calls[a] && states[..n][a] == states[a] {}
    }
  }

  lemma {:induction false} OutputEach(f: Floats, groups: seq<Grouping.Group>, groupKeys: seq<nat>,
                                      calls: seq<AggregateCall>)
    requires Grouping.WellSized(groups, calls) && KeySizes(groups, |groupKeys|)
    requires OutputRows(f, groups, groupKeys, calls).Ok?
    ensures |OutputRows(f, groups, groupKeys, calls).value| == |groups|
    ensures forall g :: 0 <= g < |groups| ==>
              OutputRow(f, groups[g], groupKeys, calls) == Ok(OutputRows(f, groups, groupKeys, calls).value[g])
  {
    if groups != [] {
      OutputEach(f, groups[..|groups| - 1], groupKeys, calls);
    }
  }

  /** Calls write the slots behind the columns. */
  ghost predicate OutputsBehind(from: Scope, calls: seq<AggregateCall>) {
    forall a :: 0 <= a < |calls| ==> calls[a].output == Width(from) + a
  }

  lemma OutputSlots(f: Floats, from: Scope, columns: seq<BoundColumn>, calls: seq<AggregateCall>,
                    group: Grouping.Group)
    requires DistinctIds(from) && GoodGroup(columns, from) && OutputsBehind(from, calls)
    requires |group.key| == |columns| && |group.states| == |calls|
    requires OutputRow(f, group, SlotsOf(columns, from), calls).Ok?
    ensures DistinctSlots(OutputRow(f, group, SlotsOf(columns, from), calls).value)
  {
    var row := OutputRow(f, group, SlotsOf(columns, from), calls).value;
    FinishEach(f, calls, group.states);
    forall i, j | 0 <= i < j < |row| ensures row[i].slot != row[j].slot {
      if j < |columns| {
        SlotsDiffer(from, columns[i], columns[j]);
      } else if i < |columns| {
        SlotInRange(from, 0, columns[i]);
      }
    }
  }

  /** The group is the unit: key and folds. */
  ghost predicate GroupIs(f: Floats, from: Scope, columns: seq<BoundColumn>, calls: seq<AggregateCall>,
                          group: Grouping.Group, u: Unit)
  {
    && AllOk(from, u) && |group.key| == |columns| && |group.states| == |calls|
    && (u != [] ==> group.key == BoundKey(from, columns, u[0]))
    && GroupTheorems.FoldAll(f, calls, PlanRowsOf(from, u)) == Ok(group.states)
  }

  lemma OutputRowTells(f: Floats, from: Scope, columns: seq<BoundColumn>, calls: seq<AggregateCall>,
                       group: Grouping.Group, u: Unit)
    requires DistinctIds(from) && GoodGroup(columns, from) && OutputsBehind(from, calls)
    requires columns != [] || calls != []
    requires GroupIs(f, from, columns, calls, group, u) && OutputRow(f, group, SlotsOf(columns, from), calls).Ok?
    ensures RowTells(f, from, columns, calls, u, OutputRow(f, group, SlotsOf(columns, from), calls).value)
  {
    var row := OutputRow(f, group, SlotsOf(columns, from), calls).value;
    OutputSlots(f, from, columns, calls, group);
    FinishEach(f, calls, group.states);
    GroupTheorems.FoldEach(f, calls, PlanRowsOf(from, u));
    if u != [] {
      forall c | InScope(c, from) && c in columns
        ensures Lookup(row, SlotIn(from, 0, c)) == Ok(BoundValue(from, u[0], c))
      {
        var i :| 0 <= i < |columns| && columns[i] == c;
        LookupDistinct(row, i);
      }
    }
    forall a | 0 <= a < |calls|
      ensures Lookup(row, calls[a].output).Ok? && CallGives(f, calls[a], from, u, Lookup(row, calls[a].output).value)
    {
      LookupDistinct(row, |columns| + a);
    }
  }

  // ---------------------------------------------------------------- all output rows

  ghost predicate GroupsAre(f: Floats, from: Scope, columns: seq<BoundColumn>, calls: seq<AggregateCall>,
                            groups: seq<Grouping.Group>, us: seq<Unit>)
  {
    |groups| == |us| && forall g :: 0 <= g < |us| ==> GroupIs(f, from, columns, calls, groups[g], us[g])
  }

  lemma AggregateParts(f: Floats, rows: Rows, slots: seq<nat>, calls: seq<AggregateCall>)
    requires AggregateRows(f, rows, slots, calls).Ok?
    ensures var groups := Grouping.GroupRows(f, rows, slots, calls);
            && groups.Ok? && Grouping.WellSized(groups.value, calls) && KeySizes(groups.value, |slots|)
            && OutputRows(f, groups.value, slots, calls) == Ok(AggregateRows(f, rows, slots, calls).value)
  {
    GroupKeySizes(f, rows, slots, calls);
  }

  lemma GroupsTell(f: Floats, from: Scope, columns: seq<BoundColumn>, calls: seq<AggregateCall>, us: seq<Unit>,
                   groups: seq<Grouping.Group>, rows: Rows)
    requires DistinctIds(from) && GoodGroup(columns, from) && OutputsBehind(from, calls)
    requires columns != [] || calls != []
    requires Grouping.WellSized(groups, calls) && KeySizes(groups, |columns|)
    requires GroupsAre(f, from, columns, calls, groups, us)
    requires OutputRows(f, groups, SlotsOf(columns, from), calls) == Ok(rows)
    ensures RowsTell(f, from, columns, calls, us, rows)
  {
    OutputEach(f, groups, SlotsOf(columns, from), calls);
    forall g | 0 <= g < |us| ensures RowTells(f, from, columns, calls, us[g], rows[g]) {
      OutputRowTells(f, from, columns, calls, groups[g], us[g]);
    }
  }

  lemma KeysAreReadable(from: Scope, columns: seq<BoundColumn>, ts: seq<Tuple>)
    requires DistinctIds(from) && ColumnsInScope(from, columns) && AllSized(|from|, ts)
    ensures GroupTheorems.KeysReadable(PlanRowsOf(from, ts), SlotsOf(columns, from))
  {
    forall i | 0 <= i < |ts| ensures Grouping.GroupKey(PlanRowsOf(from, ts)[i], SlotsOf(columns, from)).Ok? {
      GroupKeyIs(from, columns, ts[i]);
    }
  }

  lemma FoldedParts(f: Floats, from: Scope, columns: seq<BoundColumn>, calls: seq<AggregateCall>, us: seq<Unit>,
                    groups: seq<Grouping.Group>, parts: seq<GroupTheorems.Part>)
    requires PartsAre(from, columns, parts, us) && Grouping.WellSized(groups, calls) && KeySizes(groups, |columns|)
    requires GroupTheorems.FoldsOf(f, groups, parts, calls)
    ensures GroupsAre(f, from, columns, calls, groups, us)
  {
    forall g | 0 <= g < |us| ensures GroupIs(f, from, columns, calls, groups[g], us[g]) {
      assert PartIs(from, columns, parts[g], us[g]);
    }
  }

  /** GROUP BY: one output row for each group of the statement. */
  lemma GroupedRowsTell(f: Floats, from: Scope, names: seq<Name>, columns: seq<BoundColumn>,
                        calls: seq<AggregateCall>, ts: seq<Tuple>)
    requires Sane(from) && ColumnsOf(from, names, columns) && GoodGroup(columns, from) && columns != []
    requires OutputsBehind(from, calls) && AllOk(from, ts)
    requires AggregateRows(f, PlanRowsOf(from, ts), SlotsOf(columns, from), calls).Ok?
    ensures RowsTell(f, from, columns, calls, Groups(from, names, ts),
                     AggregateRows(f, PlanRowsOf(from, ts), SlotsOf(columns, from), calls).value)
  {
    var rows, slots := PlanRowsOf(from, ts), SlotsOf(columns, from);
    AggregateParts(f, rows, slots, calls);
    KeysAreReadable(from, columns, ts);
    GroupTheorems.GroupingIsFoldPerPart(f, rows, slots, calls);
    PartitionIsGroups(from, names, columns, ts);
    var groups, us := Grouping.GroupRows(f, rows, slots, calls).value, Groups(from, names, ts);
    FoldedParts(f, from, columns, calls, us, groups, PartsOf(from, columns, ts));
    GroupsTell(f, from, columns, calls, us, groups, AggregateRows(f, rows, slots, calls).value);
  }

  /** Aggregates without GROUP BY: one output row of all tuples. */
  lemma WholeRowTells(f: Floats, from: Scope, calls: seq<AggregateCall>, ts: seq<Tuple>)
    requires Sane(from) && OutputsBehind(from, calls) && AllOk(from, ts) && calls != []
    requires AggregateRows(f, PlanRowsOf(from, ts), [], calls).Ok?
    ensures RowsTell(f, from, [], calls, [ts], AggregateRows(f, PlanRowsOf(from, ts), [], calls).value)
  {
    var rows := PlanRowsOf(from, ts);
    AggregateParts(f, rows, [], calls);
    GroupTheorems.UngroupedHasOneGroup(rows);
    GroupTheorems.GroupingIsFoldPerPart(f, rows, [], calls);
    var groups := Grouping.GroupRows(f, rows, [], calls).value;
    assert SlotsOf([], from) == [];
    assert GroupTheorems.Partition(rows, [])[0].members == rows;
    assert GroupIs(f, from, [], calls, groups[0], ts);
    GroupsTell(f, from, [], calls, [ts], groups, AggregateRows(f, rows, [], calls).value);
  }
}
