/** The aggregate operator of execute_query (src/core/executor.cpp): hash grouping against first-seen grouping. */
module Grouping {
  import opened Common
  import opened Values
  import opened Expressions
  import opened Keys
  import opened Aggregates

  type Rows = seq<SlotRow>

  // ---------------------------------------------------------------- group keys of a row

  function GroupKey(row: SlotRow, slots: seq<nat>): (r: Result<Key, Error>)
    ensures r.Ok? ==> |r.value| == |slots|
  {
    if slots == [] then Ok([])
    else
      match GroupKey(row, slots[..|slots| - 1])
      case Err(error) => Err(error)
      case Ok(key) =>
        match Lookup(row, slots[|slots| - 1])
        case Err(error) => Err(error)
        case Ok(v) => Ok(key + [v])
  }

  lemma {:induction false} GroupKeyStops(row: SlotRow, slots: seq<nat>, i: nat)
    requires i <= |slots| && GroupKey(row, slots[..i]).Err?
    ensures GroupKey(row, slots) == GroupKey(row, slots[..i])
    decreases |slots|
  {
    if i < |slots| {
      assert slots[..|slots| - 1][..i] == slots[..i];
      GroupKeyStops(row, slots[..|slots| - 1], i);
    } else {
      assert slots[..i] == slots;
    }
  }

  method ReadGroupKey(row: SlotRow, slots: seq<nat>) returns (r: Result<Key, Error>)
    ensures r == GroupKey(row, slots)
  {
    var key: Key := [];
    for i := 0 to |slots|
      invariant GroupKey(row, slots[..i]) == Ok(key)
    {
      assert slots[..i + 1][..i] == slots[..i];
      var v := LookupSlot(row, slots[i]);
      if v.Err? {
        GroupKeyStops(row, slots, i + 1);
        return Err(v.error);
      }
      key := key + [v.value];
    }
    assert slots[..|slots|] == slots;
    r := Ok(key);
  }

  // ---------------------------------------------------------------- first-seen grouping

  datatype Group = Group(key: Key, states: seq<AggregateState>)

  /** The first group whose key equals the key. */
  function FirstGroup(keys: seq<Key>, key: Key): (r: Option<nat>)
    ensures r.Some? ==> r.value < |keys| && KeysEqual(keys[r.value], key)
    ensures r.None? ==> forall g :: 0 <= g < |keys| ==> !KeysEqual(keys[g], key)
  {
    if keys == [] then None
    else
      match FirstGroup(keys[..|keys| - 1], key)
      case Some(g) => Some(g)
      case None => if KeysEqual(keys[|keys| - 1], key) then Some(|keys| - 1) else None
  }

  function AccumulateAll(f: Floats, calls: seq<AggregateCall>, row: SlotRow,
                         states: seq<AggregateState>): (r: Result<seq<AggregateState>, AggregateError>)
    requires |states| == |calls|
    ensures r.Ok? ==> |r.value| == |calls|
    decreases |calls|
  {
    if calls == [] then Ok([])
    else
      var n := |calls| - 1;
      match AccumulateAll(f, calls[..n], row, states[..n])
      case Err(error) => Err(error)
      case Ok(done) =>
        match Accumulate(f, calls[n], row, states[n])
        case Err(error) => Err(error)
        case Ok(state) => Ok(done + [state])
  }

  function EmptyStates(n: nat): (r: seq<AggregateState>)
    ensures |r| == n && forall i :: 0 <= i < n ==> r[i] == EMPTY_STATE
  {
    seq(n, _ => EMPTY_STATE)
  }

  function KeysOf(groups: seq<Group>): (r: seq<Key>)
    ensures |r| == |groups| && forall g :: 0 <= g < |groups| ==> r[g] == groups[g].key
  {
    seq(|groups|, g requires 0 <= g < |groups| => groups[g].key)
  }

  predicate WellSized(groups: seq<Group>, calls: seq<AggregateCall>) {
    forall g :: 0 <= g < |groups| ==> |groups[g].states| == |calls|
  }

  /** The groups with the key's group grown if it is new. */
  function Open(groups: seq<Group>, key: Key, calls: seq<AggregateCall>): (r: seq<Group>)
    requires WellSized(groups, calls)
    ensures WellSized(r, calls)
  {
    if FirstGroup(KeysOf(groups), key).Some? then groups else groups + [Group(key, EmptyStates(|calls|))]
  }

  /** Where the key's row goes in the grown groups. */
  function Position(groups: seq<Group>, key: Key): nat {
    var g := FirstGroup(KeysOf(groups), key);
    if g.Some? then g.value else |groups|
  }

  function StepRow(f: Floats, groups: seq<Group>, row: SlotRow, slots: seq<nat>,
                   calls: seq<AggregateCall>): (r: Result<seq<Group>, AggregateError>)
    requires WellSized(groups, calls)
    ensures r.Ok? ==> WellSized(r.value, calls)
  {
    match GroupKey(row, slots)
    case Err(error) => Err(BadRow(error))
    case Ok(key) =>
      var grown, p := Open(groups, key, calls), Position(groups, key);
      match AccumulateAll(f, calls, row, grown[p].states)
      case Err(error) => Err(error)
      case Ok(states) => Ok(grown[p := Group(grown[p].key, states)])
  }

  /** Without group keys there is one group from the start. */
  function InitialGroups(slots: seq<nat>, calls: seq<AggregateCall>): (r: seq<Group>)
    ensures WellSized(r, calls)
  {
    if slots == [] then [Group([], EmptyStates(|calls|))] else []
  }

  /** Reference: each row goes to the first group with an equal key, found by comparing. */
  function GroupRows(f: Floats, rows: Rows, slots: seq<nat>,
                     calls: seq<AggregateCall>): (r: Result<seq<Group>, AggregateError>)
    ensures r.Ok? ==> WellSized(r.value, calls)
  {
    if rows == [] then Ok(InitialGroups(slots, calls))
    else
      match GroupRows(f, rows[..|rows| - 1], slots, calls)
      case Err(error) => Err(error)
      case Ok(groups) => StepRow(f, groups, rows[|rows| - 1], slots, calls)
  }

  lemma {:induction false} GroupRowsStops(f: Floats, rows: Rows, slots: seq<nat>, calls: seq<AggregateCall>, i: nat)
    requires i <= |rows| && GroupRows(f, rows[..i], slots, calls).Err?
    ensures GroupRows(f, rows, slots, calls) == GroupRows(f, rows[..i], slots, calls)
    decreases |rows|
  {
    if i < |rows| {
      assert rows[..|rows| - 1][..i] == rows[..i];
      GroupRowsStops(f, rows[..|rows| - 1], slots, calls, i);
    } else {
      assert rows[..i] == rows;
    }
  }

  // ---------------------------------------------------------------- the hash index finds the first-seen group

  ghost predicate IndexOk(ix: Index<nat>, prim: Value -> bv64, keys: seq<Key>) {
    forall key :: Find<nat>(ix, prim, key) == FirstGroup(keys, key)
  }

  lemma NaNNeverEqual(a: Key, b: Key)
    requires HasNaN(a)
    ensures !KeysEqual(a, b) && !KeysEqual(b, a)
  {
    var i :| 0 <= i < |a| && NaNValue(a[i]);
    if |a| == |b| {
      assert !GroupingEqual(a[i], b[i]) && !GroupingEqual(b[i], a[i]);
    }
  }

  lemma FirstGroupAppend(keys: seq<Key>, key: Key, other: Key)
    ensures FirstGroup(keys + [key], other) ==
            if FirstGroup(keys, other).Some? then FirstGroup(keys, other)
            else if KeysEqual(key, other) then Some(|keys|) else None
  {
    assert (keys + [key])[..|keys|] == keys;
  }

  lemma NewKeyFresh(keys: seq<Key>, key: Key, other: Key)
    requires FirstGroup(keys, key).None? && KeysEqual(key, other)
    ensures FirstGroup(keys, other).None?
  {
    if FirstGroup(keys, other).Some? {
      var g := FirstGroup(keys, other).value;
      KeysSymmetric(key, other);
      KeysTransitive(keys[g], other, key);
      assert false;
    }
  }

  lemma IndexOpens(ix: Index<nat>, prim: Value -> bv64, keys: seq<Key>, key: Key)
    requires IndexOk(ix, prim, keys) && FirstGroup(keys, key).None?
    ensures HasNaN(key) ==> IndexOk(ix, prim, keys + [key])
    ensures !HasNaN(key) ==> IndexOk(Put<nat>(ix, prim, key, |keys|), prim, keys + [key])
  {
    forall other
      ensures HasNaN(key) ==> Find<nat>(ix, prim, other) == FirstGroup(keys + [key], other)
      ensures Find<nat>(Put<nat>(ix, prim, key, |keys|), prim, other) == FirstGroup(keys + [key], other)
    {
      assert Find<nat>(ix, prim, other) == FirstGroup(keys, other);
      FirstGroupAppend(keys, key, other);
      FindPut<nat>(ix, prim, key, |keys|, other);
      if HasNaN(key) {
        NaNNeverEqual(key, other);
      }
      if KeysEqual(key, other) {
        NewKeyFresh(keys, key, other);
      }
    }
  }

  lemma NaNFindsNothing(keys: seq<Key>, key: Key)
    requires HasNaN(key)
    ensures FirstGroup(keys, key).None?
  {
    if FirstGroup(keys, key).Some? {
      NaNNeverEqual(key, keys[FirstGroup(keys, key).value]);
      assert false;
    }
  }

  method AccumulateRow(f: Floats, calls: seq<AggregateCall>, row: SlotRow, states: seq<AggregateState>)
    returns (r: Result<seq<AggregateState>, AggregateError>)
    requires |states| == |calls|
    ensures r == AccumulateAll(f, calls, row, states)
  {
    var done: seq<AggregateState> := [];
    for i := 0 to |calls|
      invariant AccumulateAll(f, calls[..i], row, states[..i]) == Ok(done)
    {
      assert calls[..i + 1][..i] == calls[..i] && states[..i + 1][..i] == states[..i];
      var next := Accumulate(f, calls[i], row, states[i]);
      if next.Err? {
        AccumulateStops(f, calls, row, states, i + 1);
        return Err(next.error);
      }
      done := done + [next.value];
    }
    assert calls[..|calls|] == calls && states[..|calls|] == states;
    r := Ok(done);
  }

  lemma {:induction false} AccumulateStops(f: Floats, calls: seq<AggregateCall>, row: SlotRow,
                                           states: seq<AggregateState>, i: nat)
    requires |states| == |calls| && i <= |calls| && AccumulateAll(f, calls[..i], row, states[..i]).Err?
    ensures AccumulateAll(f, calls, row, states) == AccumulateAll(f, calls[..i], row, states[..i])
    decreases |calls|
  {
    if i < |calls| {
      var n := |calls| - 1;
      assert calls[..n][..i] == calls[..i] && states[..n][..i] == states[..i];
      AccumulateStops(f, calls[..n], row, states[..n], i);
    } else {
      assert calls[..i] == calls && states[..i] == states;
    }
  }

  /** Finds or opens the row's group: by the index, a NaN key always opens a group of its own. */
  method Locate(groups: seq<Group>, ix: Index<nat>, prim: Value -> bv64, key: Key, calls: seq<AggregateCall>)
    returns (grown: seq<Group>, ix': Index<nat>, p: nat)
    requires WellSized(groups, calls) && IndexOk(ix, prim, KeysOf(groups))
    ensures grown == Open(groups, key, calls) && p == Position(groups, key)
    ensures IndexOk(ix', prim, KeysOf(grown))
  {
    var isolated := ContainsNaN(key);
    var found := if isolated then None else Find<nat>(ix, prim, key);
    assert Find<nat>(ix, prim, key) == FirstGroup(KeysOf(groups), key);
    if isolated {
      NaNFindsNothing(KeysOf(groups), key);
    }
    match found
    case Some(g) =>
      grown, ix', p := groups, ix, g;
    case None =>
      IndexOpens(ix, prim, KeysOf(groups), key);
      grown, p := groups + [Group(key, EmptyStates(|calls|))], |groups|;
      assert KeysOf(grown) == KeysOf(groups) + [key];
      ix' := ix;
      if !isolated {
        ix' := Put<nat>(ix, prim, key, |groups|);
      }
  }

  /** The row loop of the aggregate branch, for any std::hash. */
  method GroupByHash(f: Floats, rows: Rows, slots: seq<nat>, calls: seq<AggregateCall>, prim: Value -> bv64)
    returns (r: Result<seq<Group>, AggregateError>)
    ensures r == GroupRows(f, rows, slots, calls)
  {
    var groups := InitialGroups(slots, calls);
    var ix: Index<nat> := map[];
    var i := 0;
    assert slots != [] ==> IndexOk(ix, prim, KeysOf(groups));
    while i < |rows|
      invariant 0 <= i <= |rows|
      invariant GroupRows(f, rows[..i], slots, calls) == Ok(groups) && WellSized(groups, calls)
      invariant slots != [] ==> IndexOk(ix, prim, KeysOf(groups))
      invariant slots == [] ==> KeysOf(groups) == [[]]
    {
      assert rows[..i + 1][..i] == rows[..i];
      var p := 0;
      var grown := groups;
      if slots != [] {
        var key := ReadGroupKey(rows[i], slots);
        if key.Err? {
          GroupRowsStops(f, rows, slots, calls, i + 1);
          return Err(BadRow(key.error));
        }
        grown, ix, p := Locate(groups, ix, prim, key.value, calls);
      } else {
        OnlyGroup(groups, calls);
      }
      var states := AccumulateRow(f, calls, rows[i], grown[p].states);
      if states.Err? {
        GroupRowsStops(f, rows, slots, calls, i + 1);
        return Err(states.error);
      }
      groups := grown[p := Group(grown[p].key, states.value)];
      assert KeysOf(groups) == KeysOf(grown);
      i := i + 1;
    }
    assert rows[..i] == rows;
    r := Ok(groups);
  }

  lemma OnlyGroup(groups: seq<Group>, calls: seq<AggregateCall>)
    requires KeysOf(groups) == [[]] && WellSized(groups, calls)
    ensures Open(groups, [], calls) == groups && Position(groups, []) == 0
  {
    assert KeysOf(groups)[..0] == [];
    assert KeysEqual(KeysOf(groups)[0], []);
  }
}
