/** Grouping by the named columns: the groups of the statement are the groups of the executor, in the same order. */
module SqlGroups {
  import opened Common
  import opened Values
  import opened Expressions
  import opened Binding
  import opened Pipeline
  import opened Aggregates
  import opened Plans
  import opened Select
  import opened SelectAccepted
  import opened Execution
  import opened SqlMeaning
  import opened SqlNames
  import opened SqlJoins
  import Keys
  import Grouping
  import GroupTheorems

  // ---------------------------------------------------------------- groups, one tuple at a time

  ghost predicate NonEmpty(us: seq<Unit>) {
    forall g :: 0 <= g < |us| ==> us[g] != []
  }

  /** The tuple joins the first unit whose first tuple it agrees with, or starts a unit. */
  ghost function PlaceTuple(from: Scope, names: seq<Name>, us: seq<Unit>, t: Tuple): seq<Unit>
    requires NonEmpty(us)
    decreases |us|
  {
    if us == [] then [[t]]
    else if SameGroup(from, names, us[0][0], t) then [us[0] + [t]] + us[1..]
    else [us[0]] + PlaceTuple(from, names, us[1..], t)
  }

  lemma KeepAppend<T(!new)>(ts: seq<T>, t: T, p: T -> bool)
    ensures Keep(ts + [t], p) == Keep(ts, p) + if p(t) then [t] else []
  {
    assert (ts + [t])[..|ts|] == ts;
  }

  lemma GroupsStep(from: Scope, names: seq<Name>, ts: seq<Tuple>)
    requires ts != []
    ensures |Keep(ts[1..], Without1(from, names, ts[0]))| < |ts|
    ensures Groups(from, names, ts) ==
            [[ts[0]] + Keep(ts[1..], With1(from, names, ts[0]))] +
            Groups(from, names, Keep(ts[1..], Without1(from, names, ts[0])))
  {
    KeepShorter(ts[1..], Without1(from, names, ts[0]));
  }

  lemma {:induction false} GroupsNonEmpty(from: Scope, names: seq<Name>, ts: seq<Tuple>)
    ensures NonEmpty(Groups(from, names, ts))
    decreases |ts|
  {
    if ts != [] {
      GroupsStep(from, names, ts);
      GroupsNonEmpty(from, names, Keep(ts[1..], Without1(from, names, ts[0])));
    }
  }

  lemma GroupsOfOne(from: Scope, names: seq<Name>, t: Tuple)
    ensures Groups(from, names, [t]) == [[t]]
  {
    GroupsStep(from, names, [t]);
    assert [t][1..] == [];
    assert [t] + Keep([], With1(from, names, t)) == [t];
    assert Groups(from, names, Keep([], Without1(from, names, t))) == [];
  }

  /** One tuple more goes to the first group it agrees with. */
  lemma {:induction false} GroupsAppend(from: Scope, names: seq<Name>, ts: seq<Tuple>, t: Tuple)
    ensures NonEmpty(Groups(from, names, ts))
    ensures Groups(from, names, ts + [t]) == PlaceTuple(from, names, Groups(from, names, ts), t)
    decreases |ts|
  {
    GroupsNonEmpty(from, names, ts);
    if ts == [] {
      assert ts + [t] == [t];
      GroupsOfOne(from, names, t);
    } else {
      GroupsAppendMore(from, names, ts, t);
    }
  }

  lemma {:induction false} GroupsAppendMore(from: Scope, names: seq<Name>, ts: seq<Tuple>, t: Tuple)
    requires ts != [] && NonEmpty(Groups(from, names, ts))
    ensures Groups(from, names, ts + [t]) == PlaceTuple(from, names, Groups(from, names, ts), t)
    decreases |ts|, 0
  {
    var head, tail := ts[0], ts[1..];
    var same, other := With1(from, names, head), Without1(from, names, head);
    GroupsStep(from, names, ts);
    GroupsStep(from, names, ts + [t]);
    assert (ts + [t])[1..] == tail + [t];
    KeepAppend(tail, t, same);
    KeepAppend(tail, t, other);
    if SameGroup(from, names, head, t) {
      assert Keep(tail, other) + [] == Keep(tail, other);
      assert [head] + (Keep(tail, same) + [t]) == ([head] + Keep(tail, same)) + [t];
      assert Groups(from, names, ts)[1..] == Groups(from, names, Keep(tail, other));
    } else {
      assert Keep(tail, same) + [] == Keep(tail, same);
      GroupsAppend(from, names, Keep(tail, other), t);
      assert Groups(from, names, ts)[1..] == Groups(from, names, Keep(tail, other));
    }
  }

  // ---------------------------------------------------------------- by position

  ghost predicate FirstMatch(from: Scope, names: seq<Name>, us: seq<Unit>, t: Tuple, g: nat)
    requires NonEmpty(us)
  {
    g <= |us| && (forall h :: 0 <= h < g ==> !SameGroup(from, names, us[h][0], t))
    && (g < |us| ==> SameGroup(from, names, us[g][0], t))
  }

  lemma LaterMatch(from: Scope, names: seq<Name>, us: seq<Unit>, rest: seq<Unit>, t: Tuple, g: nat)
    requires NonEmpty(us) && FirstMatch(from, names, us, t, g) && 0 < g && rest == us[1..]
    ensures NonEmpty(rest) && FirstMatch(from, names, rest, t, g - 1) && !SameGroup(from, names, us[0][0], t)
  {
    assert forall h :: 0 <= h < |rest| ==> rest[h] == us[h + 1];
  }

  lemma PlacedLater(us: seq<Unit>, rest: seq<Unit>, t: Tuple, g: nat)
    requires 0 < g <= |us| && rest == us[1..]
    ensures g < |us| ==> us[g := us[g] + [t]] == [us[0]] + rest[g - 1 := rest[g - 1] + [t]]
    ensures us + [[t]] == [us[0]] + (rest + [[t]])
  {
    assert us == [us[0]] + rest;
  }

  lemma {:induction false} PlacedAt(from: Scope, names: seq<Name>, us: seq<Unit>, t: Tuple, g: nat)
    requires NonEmpty(us) && FirstMatch(from, names, us, t, g)
    ensures PlaceTuple(from, names, us, t) == if g < |us| then us[g := us[g] + [t]] else us + [[t]]
    decreases |us|
  {
    if us == [] {
      assert us + [[t]] == [[t]];
    } else if g > 0 {
      var rest := us[1..];
      LaterMatch(from, names, us, rest, t, g);
      PlacedAt(from, names, rest, t, g - 1);
      PlacedLater(us, rest, t, g);
    }
  }

  lemma {:induction false} FirstGroupIsFirst(keys: seq<Keys.Key>, key: Keys.Key)
    ensures Grouping.FirstGroup(keys, key).Some? ==>
              forall h :: 0 <= h < Grouping.FirstGroup(keys, key).value ==> !Keys.KeysEqual(keys[h], key)
  {
    if keys != [] {
      FirstGroupIsFirst(keys[..|keys| - 1], key);
    }
  }

  // ---------------------------------------------------------------- keys

  ghost function BoundKey(from: Scope, columns: seq<BoundColumn>, t: Tuple): (r: Keys.Key)
    requires |t| == |from|
    ensures |r| == |columns| && forall i :: 0 <= i < |r| ==> r[i] == BoundValue(from, t, columns[i])
  {
    seq(|columns|, i requires 0 <= i < |columns| => BoundValue(from, t, columns[i]))
  }

  ghost predicate ColumnsInScope(from: Scope, columns: seq<BoundColumn>) {
    forall i :: 0 <= i < |columns| ==> InScope(columns[i], from)
  }

  lemma GroupKeyAppend(row: SlotRow, slots: seq<nat>, slot: nat, key: Keys.Key, v: Value)
    requires Grouping.GroupKey(row, slots) == Ok(key) && Lookup(row, slot) == Ok(v)
    ensures Grouping.GroupKey(row, slots + [slot]) == Ok(key + [v])
  {
    assert (slots + [slot])[..|slots|] == slots;
  }

  lemma GroupKeyStep(from: Scope, columns: seq<BoundColumn>, t: Tuple)
    requires DistinctIds(from) && |t| == |from| && columns != [] && ColumnsInScope(from, columns)
    requires Grouping.GroupKey(PlanRow(from, t), SlotsOf(columns[..|columns| - 1], from)) ==
             Ok(BoundKey(from, columns[..|columns| - 1], t))
    ensures Grouping.GroupKey(PlanRow(from, t), SlotsOf(columns, from)) == Ok(BoundKey(from, columns, t))
  {
    var n := |columns| - 1;
    SlotsOfInit(columns, from);
    SlotHoldsColumn(from, 0, BoundEnv(from, t), columns[n]);
    GroupKeyAppend(PlanRow(from, t), SlotsOf(columns[..n], from), SlotIn(from, 0, columns[n]),
                   BoundKey(from, columns[..n], t), BoundValue(from, t, columns[n]));
    assert BoundKey(from, columns, t) == BoundKey(from, columns[..n], t) + [BoundValue(from, t, columns[n])];
  }

  lemma {:induction false} GroupKeyIs(from: Scope, columns: seq<BoundColumn>, t: Tuple)
    requires DistinctIds(from) && |t| == |from| && ColumnsInScope(from, columns)
    ensures Grouping.GroupKey(PlanRow(from, t), SlotsOf(columns, from)) == Ok(BoundKey(from, columns, t))
  {
    if columns != [] {
      GroupKeyIs(from, columns[..|columns| - 1], t);
      GroupKeyStep(from, columns, t);
    }
  }

  /** The grouped columns are those of the names, without repetitions. */
  ghost predicate ColumnsOf(from: Scope, names: seq<Name>, columns: seq<BoundColumn>) {
    && (forall j :: 0 <= j < |names| ==> Resolve(from, names[j]).Some? && Resolve(from, names[j]).value.ref in columns)
    && (forall i :: 0 <= i < |columns| ==> NamedBy(from, names, columns[i]))
  }

  ghost predicate NamedBy(from: Scope, names: seq<Name>, c: BoundColumn) {
    exists j :: 0 <= j < |names| && Resolve(from, names[j]).Some? && Resolve(from, names[j]).value.ref == c
  }

  lemma NamedByMore(from: Scope, names: seq<Name>, c: BoundColumn)
    requires names != [] && NamedBy(from, names[..|names| - 1], c)
    ensures NamedBy(from, names, c)
  {
    var j :| 0 <= j < |names| - 1 && Resolve(from, names[..|names| - 1][j]).Some? &&
             Resolve(from, names[..|names| - 1][j]).value.ref == c;
    assert names[j] == names[..|names| - 1][j];
  }

  lemma {:induction false} GroupColumnsBound(from: Scope, names: seq<Name>)
    requires BindGroup(names, from).Some?
    ensures ColumnsOf(from, names, BindGroup(names, from).value)
  {
    if names != [] {
      var n := |names| - 1;
      GroupColumnsBound(from, names[..n]);
      var before, columns := BindGroup(names[..n], from).value, BindGroup(names, from).value;
      forall i | 0 <= i < |columns| ensures NamedBy(from, names, columns[i]) {
        if i < |before| {
          NamedByMore(from, names, columns[i]);
        } else {
          assert Resolve(from, names[n]).value.ref == columns[i];
        }
      }
      forall j | 0 <= j < |names|
        ensures Resolve(from, names[j]).Some? && Resolve(from, names[j]).value.ref in columns
      {
        assert j < n ==> names[j] == names[..n][j];
      }
    }
  }

  lemma KeysOfSameGroup(from: Scope, names: seq<Name>, columns: seq<BoundColumn>, a: Tuple, b: Tuple)
    requires Sane(from) && ColumnsOf(from, names, columns) && TupleOk(from, a) && TupleOk(from, b)
    requires SameGroup(from, names, a, b)
    ensures Keys.KeysEqual(BoundKey(from, columns, a), BoundKey(from, columns, b))
  {
    forall i | 0 <= i < |columns|
      ensures Keys.GroupingEqual(BoundValue(from, a, columns[i]), BoundValue(from, b, columns[i]))
    {
      assert NamedBy(from, names, columns[i]);
      var j :| 0 <= j < |names| && Resolve(from, names[j]).Some? && Resolve(from, names[j]).value.ref == columns[i];
      NameValue(from, a, names[j]);
      NameValue(from, b, names[j]);
      assert Keys.GroupingEqual(ValuesOf(from, a, names)[j], ValuesOf(from, b, names)[j]);
    }
  }

  lemma SameGroupOfKeys(from: Scope, names: seq<Name>, columns: seq<BoundColumn>, a: Tuple, b: Tuple)
    requires Sane(from) && ColumnsOf(from, names, columns) && TupleOk(from, a) && TupleOk(from, b)
    requires Keys.KeysEqual(BoundKey(from, columns, a), BoundKey(from, columns, b))
    ensures SameGroup(from, names, a, b)
  {
    forall j | 0 <= j < |names|
      ensures Keys.GroupingEqual(ValuesOf(from, a, names)[j], ValuesOf(from, b, names)[j])
    {
      var i :| 0 <= i < |columns| && columns[i] == Resolve(from, names[j]).value.ref;
      NameValue(from, a, names[j]);
      NameValue(from, b, names[j]);
      assert Keys.GroupingEqual(BoundKey(from, columns, a)[i], BoundKey(from, columns, b)[i]);
    }
  }

  // ---------------------------------------------------------------- the executor's parts

  /** Part g is unit g: the key of its first tuple, the rows of its tuples. */
  ghost predicate PartIs(from: Scope, columns: seq<BoundColumn>, part: GroupTheorems.Part, u: Unit)
  {
    && u != [] && AllOk(from, u)
    && part.key == BoundKey(from, columns, u[0]) && part.members == PlanRowsOf(from, u)
  }

  ghost predicate PartsAre(from: Scope, columns: seq<BoundColumn>, parts: seq<GroupTheorems.Part>, us: seq<Unit>) {
    |parts| == |us| && forall g :: 0 <= g < |us| ==> PartIs(from, columns, parts[g], us[g])
  }

  lemma PartGrows(from: Scope, columns: seq<BoundColumn>, part: GroupTheorems.Part, u: Unit, t: Tuple)
    requires PartIs(from, columns, part, u) && TupleOk(from, t)
    ensures PartIs(from, columns, GroupTheorems.Part(part.key, part.members + [PlanRow(from, t)]), u + [t])
  {
    assert PlanRowsOf(from, u + [t]) == PlanRowsOf(from, u) + [PlanRow(from, t)];
  }

  lemma PartStarts(from: Scope, columns: seq<BoundColumn>, t: Tuple)
    requires TupleOk(from, t)
    ensures PartIs(from, columns, GroupTheorems.Part(BoundKey(from, columns, t), [PlanRow(from, t)]), [t])
  {
    assert PlanRowsOf(from, [t]) == [PlanRow(from, t)];
  }

  lemma SameMatches(from: Scope, names: seq<Name>, columns: seq<BoundColumn>, parts: seq<GroupTheorems.Part>,
                    us: seq<Unit>, t: Tuple)
    requires Sane(from) && ColumnsOf(from, names, columns) && PartsAre(from, columns, parts, us) && TupleOk(from, t)
    ensures NonEmpty(us)
    ensures var g := Grouping.FirstGroup(GroupTheorems.PartKeys(parts), BoundKey(from, columns, t));
            FirstMatch(from, names, us, t, if g.Some? then g.value else |us|)
  {
    var keys, key := GroupTheorems.PartKeys(parts), BoundKey(from, columns, t);
    FirstGroupIsFirst(keys, key);
    forall h | 0 <= h < |us|
      ensures us[h] != [] && (SameGroup(from, names, us[h][0], t) <==> Keys.KeysEqual(keys[h], key))
    {
      assert PartIs(from, columns, parts[h], us[h]);
      if SameGroup(from, names, us[h][0], t) {
        KeysOfSameGroup(from, names, columns, us[h][0], t);
      }
      if Keys.KeysEqual(keys[h], key) {
        SameGroupOfKeys(from, names, columns, us[h][0], t);
      }
    }
  }

  lemma PlaceCorresponds(from: Scope, names: seq<Name>, columns: seq<BoundColumn>, parts: seq<GroupTheorems.Part>,
                         us: seq<Unit>, t: Tuple)
    requires Sane(from) && ColumnsOf(from, names, columns) && PartsAre(from, columns, parts, us) && TupleOk(from, t)
    ensures NonEmpty(us)
    ensures PartsAre(from, columns, GroupTheorems.Place(parts, BoundKey(from, columns, t), PlanRow(from, t)),
                     PlaceTuple(from, names, us, t))
  {
    SameMatches(from, names, columns, parts, us, t);
    var g := Grouping.FirstGroup(GroupTheorems.PartKeys(parts), BoundKey(from, columns, t));
    PlacedAt(from, names, us, t, if g.Some? then g.value else |us|);
    if g.Some? {
      PartGrows(from, columns, parts[g.value], us[g.value], t);
    } else {
      PartStarts(from, columns, t);
    }
  }

  lemma PartitionStep(rows: Rows, row: SlotRow, slots: seq<nat>, key: Keys.Key)
    requires Grouping.GroupKey(row, slots) == Ok(key)
    ensures GroupTheorems.Partition(rows + [row], slots) ==
            GroupTheorems.Place(GroupTheorems.Partition(rows, slots), key, row)
  {
    assert (rows + [row])[..|rows|] == rows;
  }

  ghost function PartsOf(from: Scope, columns: seq<BoundColumn>, ts: seq<Tuple>): seq<GroupTheorems.Part>
    requires AllSized(|from|, ts)
  {
    GroupTheorems.Partition(PlanRowsOf(from, ts), SlotsOf(columns, from))
  }

  lemma PartsStep(from: Scope, columns: seq<BoundColumn>, ts: seq<Tuple>, t: Tuple)
    requires DistinctIds(from) && ColumnsInScope(from, columns) && AllSized(|from|, ts) && |t| == |from|
    ensures AllSized(|from|, ts + [t])
    ensures PartsOf(from, columns, ts + [t]) ==
            GroupTheorems.Place(PartsOf(from, columns, ts), BoundKey(from, columns, t), PlanRow(from, t))
  {
    GroupKeyIs(from, columns, t);
    assert PlanRowsOf(from, ts + [t]) == PlanRowsOf(from, ts) + [PlanRow(from, t)];
    PartitionStep(PlanRowsOf(from, ts), PlanRow(from, t), SlotsOf(columns, from), BoundKey(from, columns, t));
  }

  ghost predicate GroupsMatch(from: Scope, names: seq<Name>, columns: seq<BoundColumn>, ts: seq<Tuple>)
    requires AllSized(|from|, ts)
  {
    PartsAre(from, columns, PartsOf(from, columns, ts), Groups(from, names, ts))
  }

  lemma NoParts(from: Scope, names: seq<Name>, columns: seq<BoundColumn>)
    requires columns != []
    ensures GroupsMatch(from, names, columns, [])
  {
  }

  lemma GroupsMatchAppend(from: Scope, names: seq<Name>, columns: seq<BoundColumn>, init: seq<Tuple>, t: Tuple,
                          ts: seq<Tuple>)
    requires Sane(from) && ColumnsOf(from, names, columns) && ColumnsInScope(from, columns)
    requires AllOk(from, init) && TupleOk(from, t) && GroupsMatch(from, names, columns, init) && ts == init + [t]
    ensures AllSized(|from|, ts) && GroupsMatch(from, names, columns, ts)
  {
    PlaceCorresponds(from, names, columns, PartsOf(from, columns, init), Groups(from, names, init), t);
    PartsStep(from, columns, init, t);
    GroupsAppend(from, names, init, t);
  }

  /** The executor's partition of the rows is the grouping of the tuples. */
  lemma {:induction false} PartitionIsGroups(from: Scope, names: seq<Name>, columns: seq<BoundColumn>, ts: seq<Tuple>)
    requires Sane(from) && ColumnsOf(from, names, columns) && ColumnsInScope(from, columns) && columns != []
    requires AllOk(from, ts)
    ensures GroupsMatch(from, names, columns, ts)
  {
    if ts == [] {
      NoParts(from, names, columns);
    } else {
      var init, t := ts[..|ts| - 1], ts[|ts| - 1];
      PartitionIsGroups(from, names, columns, init);
      GroupsMatchAppend(from, names, columns, init, t, ts);
    }
  }
}
