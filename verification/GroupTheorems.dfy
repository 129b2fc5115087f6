/** What grouping computes: a partition of the rows by key, and one in-order fold per part. */
module GroupTheorems {
  import opened Common
  import opened Expressions
  import opened Keys
  import opened Aggregates
  import opened Grouping

  /** A group key and the rows of the group, in input order. */
  datatype Part = Part(key: Key, members: Rows)

  ghost predicate KeysReadable(rows: Rows, slots: seq<nat>) {
    forall i :: 0 <= i < |rows| ==> GroupKey(rows[i], slots).Ok?
  }

  function PartKeys(parts: seq<Part>): (r: seq<Key>)
    ensures |r| == |parts| && forall g :: 0 <= g < |parts| ==> r[g] == parts[g].key
  {
    seq(|parts|, g requires 0 <= g < |parts| => parts[g].key)
  }

  function Place(parts: seq<Part>, key: Key, row: SlotRow): seq<Part> {
    match FirstGroup(PartKeys(parts), key)
    case Some(g) => parts[g := Part(parts[g].key, parts[g].members + [row])]
    case None => parts + [Part(key, [row])]
  }

  function Partition(rows: Rows, slots: seq<nat>): seq<Part> {
    if rows == [] then (if slots == [] then [Part([], [])] else [])
    else
      match GroupKey(rows[|rows| - 1], slots)
      case Err(_) => []
      case Ok(key) => Place(Partition(rows[..|rows| - 1], slots), key, rows[|rows| - 1])
  }

  // ---------------------------------------------------------------- one fold per part

  function FoldAll(f: Floats, calls: seq<AggregateCall>, rows: Rows): (r: Result<seq<AggregateState>, AggregateError>)
    ensures r.Ok? ==> |r.value| == |calls|
  {
    if rows == [] then Ok(EmptyStates(|calls|))
    else
      match FoldAll(f, calls, rows[..|rows| - 1])
      case Err(error) => Err(error)
      case Ok(states) => AccumulateAll(f, calls, rows[|rows| - 1], states)
  }

  lemma FoldAllAppend(f: Floats, calls: seq<AggregateCall>, rows: Rows, row: SlotRow)
    ensures FoldAll(f, calls, rows + [row]) ==
            match FoldAll(f, calls, rows)
            case Err(error) => Err(error)
            case Ok(states) => AccumulateAll(f, calls, row, states)
  {
    assert (rows + [row])[..|rows|] == rows;
  }

  /** Group g has the key of part g and the fold of its members. */
  ghost predicate FoldsOf(f: Floats, groups: seq<Group>, parts: seq<Part>, calls: seq<AggregateCall>) {
    && |groups| == |parts|
    && (forall g :: 0 <= g < |parts| ==>
        groups[g].key == parts[g].key && FoldAll(f, calls, parts[g].members) == Ok(groups[g].states))
  }

  ghost predicate SomeFoldFails(f: Floats, parts: seq<Part>, calls: seq<AggregateCall>) {
    exists g :: 0 <= g < |parts| && FoldAll(f, calls, parts[g].members).Err?
  }

  lemma StepFolds(f: Floats, groups: seq<Group>, parts: seq<Part>, row: SlotRow, slots: seq<nat>,
                  calls: seq<AggregateCall>)
    requires WellSized(groups, calls) && FoldsOf(f, groups, parts, calls) && GroupKey(row, slots).Ok?
    ensures var r, parts' := StepRow(f, groups, row, slots, calls), Place(parts, GroupKey(row, slots).value, row);
            if r.Ok? then FoldsOf(f, r.value, parts', calls) else SomeFoldFails(f, parts', calls)
  {
    var key := GroupKey(row, slots).value;
    assert KeysOf(groups) == PartKeys(parts);
    var p := Position(groups, key);
    var members := if p < |parts| then parts[p].members else [];
    FoldAllAppend(f, calls, members, row);
    var parts' := Place(parts, key, row);
    assert parts'[p].members == members + [row];
    assert StepRow(f, groups, row, slots, calls).Err? ==> FoldAll(f, calls, parts'[p].members).Err?;
  }

  /** A fold that failed stays failed as rows are added. */
  lemma FailureStays(f: Floats, parts: seq<Part>, key: Key, row: SlotRow, calls: seq<AggregateCall>)
    requires SomeFoldFails(f, parts, calls)
    ensures SomeFoldFails(f, Place(parts, key, row), calls)
  {
    var g :| 0 <= g < |parts| && FoldAll(f, calls, parts[g].members).Err?;
    FoldAllAppend(f, calls, parts[g].members, row);
    assert FoldAll(f, calls, Place(parts, key, row)[g].members).Err?;
  }

  lemma FoldsExclude(f: Floats, groups: seq<Group>, parts: seq<Part>, calls: seq<AggregateCall>)
    requires FoldsOf(f, groups, parts, calls)
    ensures !SomeFoldFails(f, parts, calls)
  {
  }

  lemma {:induction false} GroupingFolds(f: Floats, rows: Rows, slots: seq<nat>, calls: seq<AggregateCall>)
    requires KeysReadable(rows, slots)
    ensures var r := GroupRows(f, rows, slots, calls);
            if r.Ok? then FoldsOf(f, r.value, Partition(rows, slots), calls)
                else SomeFoldFails(f, Partition(rows, slots), calls)
  {
    if rows != [] {
      var init, row := rows[..|rows| - 1], rows[|rows| - 1];
      GroupingFolds(f, init, slots, calls);
      var before := GroupRows(f, init, slots, calls);
      if before.Ok? {
        StepFolds(f, before.value, Partition(init, slots), row, slots, calls);
      } else {
        FailureStays(f, Partition(init, slots), GroupKey(row, slots).value, row, calls);
      }
    }
  }

  /** Grouping succeeds exactly when the in-order fold of every part does, and then gives those folds. */
  lemma GroupingIsFoldPerPart(f: Floats, rows: Rows, slots: seq<nat>, calls: seq<AggregateCall>)
    requires KeysReadable(rows, slots)
    ensures GroupRows(f, rows, slots, calls).Ok? <==> !SomeFoldFails(f, Partition(rows, slots), calls)
    ensures GroupRows(f, rows, slots, calls).Ok? ==>
      FoldsOf(f, GroupRows(f, rows, slots, calls).value, Partition(rows, slots), calls)
  {
    GroupingFolds(f, rows, slots, calls);
    var r := GroupRows(f, rows, slots, calls);
    if r.Ok? {
      FoldsExclude(f, r.value, Partition(rows, slots), calls);
    }
  }

  // ---------------------------------------------------------------- each call on its own

  lemma {:induction false} AccumulateEach(f: Floats, calls: seq<AggregateCall>, row: SlotRow,
                                          states: seq<AggregateState>)
    requires |states| == |calls|
    ensures var r := AccumulateAll(f, calls, row, states);
            && (r.Ok? ==> forall a :: 0 <= a < |calls| ==> Accumulate(f, calls[a], row, states[a]) == Ok(r.value[a]))
            && (r.Err? ==> exists a :: 0 <= a < |calls| && Accumulate(f, calls[a], row, states[a]).Err?)
    decreases |calls|
  {
    if calls != [] {
      var n := |calls| - 1;
      AccumulateEach(f, calls[..n], row, states[..n]);
      var before := AccumulateAll(f, calls[..n], row, states[..n]);
      if before.Err? {
        var a :| 0 <= a < n && Accumulate(f, calls[..n][a], row, states[..n][a]).Err?;
        assert Accumulate(f, calls[a], row, states[a]).Err?;
      } else {
        forall a | 0 <= a < n ensures Accumulate(f, calls[a], row, states[a]) == Ok(before.value[a]) {
          assert calls[..n][a] == calls[a] && states[..n][a] == states[a];
        }
      }
    }
  }

  /** Calls do not influence each other: each state is the call's own fold. */
  lemma {:induction false} FoldEach(f: Floats, calls: seq<AggregateCall>, rows: Rows)
    ensures var r := FoldAll(f, calls, rows);
            && (r.Ok? ==> forall a :: 0 <= a < |calls| ==> Fold(f, calls[a], rows) == Ok(r.value[a]))
            && (r.Err? ==> exists a :: 0 <= a < |calls| && Fold(f, calls[a], rows).Err?)
  {
    if rows != [] {
      var init := rows[..|rows| - 1];
      FoldEach(f, calls, init);
      var before := FoldAll(f, calls, init);
      if before.Ok? {
        AccumulateEach(f, calls, rows[|rows| - 1], before.value);
      } else {
        var a :| 0 <= a < |calls| && Fold(f, calls[a], init).Err?;
        assert Fold(f, calls[a], rows).Err?;
      }
    }
  }

  // ---------------------------------------------------------------- the parts are the classes of equal keys

  /** The rows whose key equals `key`, in order. */
  function WithKey(rows: Rows, slots: seq<nat>, key: Key): Rows {
    if rows == [] then []
    else
      var k := GroupKey(rows[|rows| - 1], slots);
      WithKey(rows[..|rows| - 1], slots, key) + if k.Ok? && KeysEqual(key, k.value) then [rows[|rows| - 1]] else []
  }

  ghost predicate Distinct(parts: seq<Part>) {
    forall g, h :: 0 <= g < |parts| && 0 <= h < |parts| && g != h ==> !KeysEqual(parts[g].key, parts[h].key)
  }

  /** A NaN-free part is exactly the rows with its key; a part with a NaN key is a single row. */
  ghost predicate Exact(parts: seq<Part>, rows: Rows, slots: seq<nat>) {
    forall g :: 0 <= g < |parts| ==>
      if HasNaN(parts[g].key) then |parts[g].members| == 1 else parts[g].members == WithKey(rows, slots, parts[g].key)
  }

  lemma PlaceDistinct(parts: seq<Part>, key: Key, row: SlotRow)
    requires Distinct(parts)
    ensures Distinct(Place(parts, key, row))
  {
    var parts' := Place(parts, key, row);
    if FirstGroup(PartKeys(parts), key).None? {
      forall g | 0 <= g < |parts| ensures !KeysEqual(parts[g].key, key) && !KeysEqual(key, parts[g].key) {
        assert !KeysEqual(PartKeys(parts)[g], key);
        KeysSymmetric(parts[g].key, key);
      }
    }
    assert PartKeys(parts') == if FirstGroup(PartKeys(parts), key).None? then PartKeys(parts) + [key]
        else PartKeys(parts);
  }

  lemma PlaceKeys(parts: seq<Part>, k: Key, row: SlotRow)
    ensures PartKeys(Place(parts, k, row)) ==
            PartKeys(parts) + if FirstGroup(PartKeys(parts), k).Some? then [] else [k]
  {
  }

  lemma StillUnseen(parts: seq<Part>, k: Key, row: SlotRow, key: Key)
    requires FirstGroup(PartKeys(Place(parts, k, row)), key).None?
    ensures FirstGroup(PartKeys(parts), key).None? && !KeysEqual(key, k)
  {
    var keys := PartKeys(parts);
    PlaceKeys(parts, k, row);
    KeysSymmetric(key, k);
    if FirstGroup(keys, k).Some? {
      assert keys + [] == keys;
      var g := FirstGroup(keys, k).value;
      if KeysEqual(k, key) {
        KeysTransitive(keys[g], k, key);
        assert false;
      }
    } else {
      FirstGroupAppend(keys, k, key);
    }
  }

  /** A key that equals the key of no part equals the key of no row. */
  lemma {:induction false} UnseenKey(rows: Rows, slots: seq<nat>, key: Key)
    requires KeysReadable(rows, slots) && FirstGroup(PartKeys(Partition(rows, slots)), key).None?
    ensures WithKey(rows, slots, key) == []
  {
    if rows != [] {
      var init, row := rows[..|rows| - 1], rows[|rows| - 1];
      StillUnseen(Partition(init, slots), GroupKey(row, slots).value, row, key);
      UnseenKey(init, slots, key);
    }
  }

  lemma WithKeyStep(rows: Rows, slots: seq<nat>, row: SlotRow, key: Key)
    requires GroupKey(row, slots).Ok?
    ensures WithKey(rows + [row], slots, key) ==
            WithKey(rows, slots, key) + if KeysEqual(key, GroupKey(row, slots).value) then [row] else []
  {
    assert (rows + [row])[..|rows|] == rows;
  }

  lemma PlaceExact(parts: seq<Part>, rows: Rows, slots: seq<nat>, row: SlotRow, key: Key, g: nat)
    requires Distinct(parts) && Exact(parts, rows, slots) && GroupKey(row, slots) == Ok(key)
    requires FirstGroup(PartKeys(parts), key).None? ==> WithKey(rows, slots, key) == []
    requires g < |Place(parts, key, row)|
    ensures var part := Place(parts, key, row)[g];
            if HasNaN(part.key) then |part.members| == 1 else part.members == WithKey(rows + [row], slots, part.key)
  {
    var part := Place(parts, key, row)[g];
    WithKeyStep(rows, slots, row, part.key);
    var at := FirstGroup(PartKeys(parts), key);
    if at.None? {
      if g < |parts| {
        assert !KeysEqual(PartKeys(parts)[g], key);
      } else {
        KeysReflexive(key);
      }
    } else if g == at.value {
      if HasNaN(part.key) {
        NaNNeverEqual(part.key, key);
        assert false;
      }
    } else if KeysEqual(parts[g].key, key) {
      KeysSymmetric(parts[at.value].key, key);
      KeysTransitive(parts[g].key, key, parts[at.value].key);
      assert false;
    }
  }

  lemma PlaceAllExact(parts: seq<Part>, rows: Rows, slots: seq<nat>, row: SlotRow, key: Key)
    requires Distinct(parts) && Exact(parts, rows, slots) && GroupKey(row, slots) == Ok(key)
    requires FirstGroup(PartKeys(parts), key).None? ==> WithKey(rows, slots, key) == []
    ensures Exact(Place(parts, key, row), rows + [row], slots)
  {
    forall g | 0 <= g < |Place(parts, key, row)|
      ensures var part := Place(parts, key, row)[g];
              if HasNaN(part.key) then |part.members| == 1 else part.members == WithKey(rows + [row], slots, part.key)
    {
      PlaceExact(parts, rows, slots, row, key, g);
    }
  }

  /** Two rows share a part exactly when their keys are equal and free of NaN; parts keep input order. */
  lemma {:induction false} PartitionByKey(rows: Rows, slots: seq<nat>)
    requires KeysReadable(rows, slots)
    ensures Distinct(Partition(rows, slots)) && Exact(Partition(rows, slots), rows, slots)
  {
    if rows != [] {
      var init, row := rows[..|rows| - 1], rows[|rows| - 1];
      PartitionByKey(init, slots);
      var key, before := GroupKey(row, slots).value, Partition(init, slots);
      PlaceDistinct(before, key, row);
      if FirstGroup(PartKeys(before), key).None? {
        UnseenKey(init, slots, key);
      }
      PlaceAllExact(before, init, slots, row, key);
      assert init + [row] == rows;
    }
  }

  /** Nothing is lost and nothing counted twice: the parts together hold exactly the rows. */
  function AllMembers(parts: seq<Part>): multiset<SlotRow> {
    if parts == [] then multiset{}
    else AllMembers(parts[..|parts| - 1]) + multiset(parts[|parts| - 1].members)
  }

  lemma {:induction false} MembersUpdate(parts: seq<Part>, g: nat, row: SlotRow)
    requires g < |parts|
    ensures AllMembers(parts[g := Part(parts[g].key, parts[g].members + [row])]) == AllMembers(parts) + multiset{row}
  {
    var n := |parts| - 1;
    var parts' := parts[g := Part(parts[g].key, parts[g].members + [row])];
    if g < n {
      MembersUpdate(parts[..n], g, row);
      assert parts'[..n] == parts[..n][g := parts'[g]];
    } else {
      assert parts'[..n] == parts[..n];
    }
  }

  lemma PlaceMembers(parts: seq<Part>, key: Key, row: SlotRow)
    ensures AllMembers(Place(parts, key, row)) == AllMembers(parts) + multiset{row}
  {
    match FirstGroup(PartKeys(parts), key)
    case Some(g) => MembersUpdate(parts, g, row);
    case None => assert (parts + [Part(key, [row])])[..|parts|] == parts;
  }

  lemma NoMembers(slots: seq<nat>)
    ensures AllMembers(Partition([], slots)) == multiset{}
  {
    var only := [Part([], [])];
    assert only[..0] == [];
    assert AllMembers(only) == multiset{};
  }

  lemma {:induction false} PartitionCovers(rows: Rows, slots: seq<nat>)
    requires KeysReadable(rows, slots)
    ensures AllMembers(Partition(rows, slots)) == multiset(rows)
  {
    if rows == [] {
      NoMembers(slots);
    } else {
      var init, row := rows[..|rows| - 1], rows[|rows| - 1];
      PartitionCovers(init, slots);
      PlaceMembers(Partition(init, slots), GroupKey(row, slots).value, row);
      assert rows == init + [row];
    }
  }

  /** An aggregate without group keys always has exactly one group, even over no rows. */
  lemma {:induction false} UngroupedHasOneGroup(rows: Rows)
    ensures Partition(rows, []) == [Part([], rows)] && KeysReadable(rows, [])
  {
    if rows != [] {
      var init, row := rows[..|rows| - 1], rows[|rows| - 1];
      UngroupedHasOneGroup(init);
      assert PartKeys([Part([], init)])[..0] == [];
      assert KeysEqual(PartKeys([Part([], init)])[0], []);
      assert rows == init + [row];
    }
  }

  // ---------------------------------------------------------------- COUNT(*) adds up

  function TotalCount(groups: seq<Group>, a: nat, calls: seq<AggregateCall>): int
    requires a < |calls| && WellSized(groups, calls)
  {
    if groups == [] then 0
    else TotalCount(groups[..|groups| - 1], a, calls) + groups[|groups| - 1].states[a].count
  }

  lemma CountOfPart(f: Floats, calls: seq<AggregateCall>, a: nat, rows: Rows)
    requires a < |calls| && calls[a].kind.Count? && calls[a].input.None? && FoldAll(f, calls, rows).Ok?
    ensures FoldAll(f, calls, rows).value[a].count == |rows|
  {
    FoldEach(f, calls, rows);
    CountStarSeesRows(calls[a], rows);
    FoldIsFoldOfInputs(f, calls[a], rows);
    CountIsExact(f, calls[a], Inputs(calls[a], rows));
  }

  lemma {:induction false} CountsOfParts(f: Floats, groups: seq<Group>, parts: seq<Part>, calls: seq<AggregateCall>,
                                         a: nat)
    requires a < |calls| && calls[a].kind.Count? && calls[a].input.None?
    requires WellSized(groups, calls) && FoldsOf(f, groups, parts, calls)
    ensures TotalCount(groups, a, calls) == |AllMembers(parts)|
    decreases |parts|
  {
    if parts != [] {
      var n := |parts| - 1;
      CountsOfParts(f, groups[..n], parts[..n], calls, a);
      CountOfPart(f, calls, a, parts[n].members);
    }
  }

  /** COUNT(*) over all groups adds up to the number of input rows. */
  lemma CountStarAddsUp(f: Floats, rows: Rows, slots: seq<nat>, calls: seq<AggregateCall>, a: nat)
    requires KeysReadable(rows, slots) && GroupRows(f, rows, slots, calls).Ok?
    requires a < |calls| && calls[a].kind.Count? && calls[a].input.None?
    ensures TotalCount(GroupRows(f, rows, slots, calls).value, a, calls) == |rows|
  {
    GroupingIsFoldPerPart(f, rows, slots, calls);
    CountsOfParts(f, GroupRows(f, rows, slots, calls).value, Partition(rows, slots), calls, a);
    PartitionCovers(rows, slots);
  }
}
