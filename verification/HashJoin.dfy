/** The join operator of execute_query (src/core/executor.cpp): the indexed form against the nested loop. */
module HashJoin {
  import opened Common
  import opened Values
  import opened Expressions
  import opened Keys
  import opened JoinKeys

  type Rows = seq<SlotRow>

  datatype JoinError = BadRow(error: Error) | DuplicateSlots | RowLimit

  // ---------------------------------------------------------------- the nested loop

  /** The left row joined with each of the right rows at the given positions. */
  function Picked(left: SlotRow, right: Rows, positions: seq<nat>): (r: Rows)
    requires forall k :: 0 <= k < |positions| ==> positions[k] < |right|
    ensures |r| == |positions| && forall k :: 0 <= k < |r| ==> r[k] == left + right[positions[k]]
  {
    seq(|positions|, k requires 0 <= k < |positions| => left + right[positions[k]])
  }

  function PairsWith(left: SlotRow, right: Rows): (r: Rows)
    ensures |r| == |right| && forall k :: 0 <= k < |r| ==> r[k] == left + right[k]
  {
    seq(|right|, k requires 0 <= k < |right| => left + right[k])
  }

  /** All pairs in nested-loop order. */
  function Pairs(left: Rows, right: Rows): Rows {
    if left == [] then [] else Pairs(left[..|left| - 1], right) + PairsWith(left[|left| - 1], right)
  }

  /** push_match. */
  function PushMatch(joined: Rows, candidate: SlotRow, condition: Expr<nat>, limit: nat): Result<Rows, JoinError> {
    match EvaluatePredicate(condition, candidate)
    case Err(error) => Err(BadRow(error))
    case Ok(keep) =>
      if !keep then Ok(joined) else if |joined| >= limit then Err(RowLimit) else Ok(joined + [candidate])
  }

  function PushAll(joined: Rows, candidates: Rows, condition: Expr<nat>, limit: nat): Result<Rows, JoinError>
    decreases |candidates|
  {
    if candidates == [] then Ok(joined)
    else
      match PushMatch(joined, candidates[0], condition, limit)
      case Err(error) => Err(error)
      case Ok(more) => PushAll(more, candidates[1..], condition, limit)
  }

  /** Reference: the full condition on every pair. */
  function NestedLoop(left: Rows, right: Rows, condition: Expr<nat>, limit: nat): Result<Rows, JoinError> {
    PushAll([], Pairs(left, right), condition, limit)
  }

  // ---------------------------------------------------------------- what the loop keeps

  function Kept(candidates: Rows, condition: Expr<nat>): Rows {
    if candidates == [] then []
    else
      Kept(candidates[..|candidates| - 1], condition) +
      if EvaluatePredicate(condition, candidates[|candidates| - 1]) == Ok(true) then [candidates[|candidates| - 1]]
          else []
  }

  lemma {:induction false} KeptConcat(a: Rows, b: Rows, condition: Expr<nat>)
    ensures Kept(a + b, condition) == Kept(a, condition) + Kept(b, condition)
  {
    if b == [] {
      assert a + b == a;
    } else {
      KeptConcat(a, b[..|b| - 1], condition);
      assert (a + b)[..|a + b| - 1] == a + b[..|b| - 1];
    }
  }

  ghost predicate AllSound(candidates: Rows, condition: Expr<nat>) {
    forall i :: 0 <= i < |candidates| ==> EvaluatePredicate(condition, candidates[i]).Ok?
  }

  function Limited(rows: Rows, limit: nat): Result<Rows, JoinError> {
    if |rows| <= limit then Ok(rows) else Err(RowLimit)
  }

  lemma KeptOne(row: SlotRow, condition: Expr<nat>)
    ensures Kept([row], condition) == if EvaluatePredicate(condition, row) == Ok(true) then [row] else []
  {
    assert [row][..0] == [];
  }

  lemma PushOneKeeps(joined: Rows, candidate: SlotRow, condition: Expr<nat>, limit: nat)
    requires EvaluatePredicate(condition, candidate).Ok? && |joined| <= limit
    ensures PushMatch(joined, candidate, condition, limit) == Limited(joined + Kept([candidate], condition), limit)
  {
    KeptOne(candidate, condition);
    assert joined + [] == joined;
  }

  lemma KeptHead(candidates: Rows, condition: Expr<nat>)
    requires candidates != []
    ensures Kept(candidates, condition) == Kept([candidates[0]], condition) + Kept(candidates[1..], condition)
  {
    assert candidates == [candidates[0]] + candidates[1..];
    KeptConcat([candidates[0]], candidates[1..], condition);
  }

  /** Pushing candidates appends exactly those on which the condition is true, or reports the limit
      exactly when they do not fit. */
  lemma {:induction false} PushAllKeeps(joined: Rows, candidates: Rows, condition: Expr<nat>, limit: nat)
    requires AllSound(candidates, condition) && |joined| <= limit
    ensures PushAll(joined, candidates, condition, limit) == Limited(joined + Kept(candidates, condition), limit)
    decreases |candidates|
  {
    if candidates == [] {
      assert joined + Kept(candidates, condition) == joined;
    } else {
      PushOneKeeps(joined, candidates[0], condition, limit);
      KeptHead(candidates, condition);
      var more := joined + Kept([candidates[0]], condition);
      assert more + Kept(candidates[1..], condition) == joined + Kept(candidates, condition);
      if |more| <= limit {
        PushAllKeeps(more, candidates[1..], condition, limit);
      }
    }
  }

  // ---------------------------------------------------------------- inputs of a validated join

  /** What plan validation establishes for a join, and what the child operators deliver. */
  ghost predicate Joinable(left: Rows, right: Rows, condition: Expr<nat>, leftTypes: SlotRow, rightTypes: SlotRow,
                           slotTypes: SlotRow) {
    && (forall i :: 0 <= i < |left| ==> Conforms(left[i], leftTypes))
    && (forall j :: 0 <= j < |right| ==> Conforms(right[j], rightTypes))
    && (forall slot :: Bindings(leftTypes + rightTypes, slot) <= 1)
    && ValidPredicate(condition, leftTypes + rightTypes)
    && TypesAgree(slotTypes, leftTypes + rightTypes)
  }

  lemma PairConforms(l: SlotRow, r: SlotRow, leftTypes: SlotRow, rightTypes: SlotRow)
    requires Conforms(l, leftTypes) && Conforms(r, rightTypes)
    ensures Conforms(l + r, leftTypes + rightTypes)
  {
  }

  lemma {:induction false} PairsAreSound(left: Rows, right: Rows, condition: Expr<nat>, leftTypes: SlotRow,
                                         rightTypes: SlotRow, slotTypes: SlotRow)
    requires Joinable(left, right, condition, leftTypes, rightTypes, slotTypes)
    ensures AllSound(Pairs(left, right), condition)
  {
    if left != [] {
      PairsAreSound(left[..|left| - 1], right, condition, leftTypes, rightTypes, slotTypes);
      var l := left[|left| - 1];
      forall j | 0 <= j < |right| ensures EvaluatePredicate(condition, l + right[j]).Ok? {
        PairConforms(l, right[j], leftTypes, rightTypes);
        PredicateSound(condition, l + right[j], leftTypes + rightTypes);
      }
    }
  }

  /** The nested loop's whole outcome: the matching pairs in order, or the limit error when there are more. */
  lemma NestedLoopOutcome(left: Rows, right: Rows, condition: Expr<nat>, limit: nat, leftTypes: SlotRow,
                          rightTypes: SlotRow, slotTypes: SlotRow)
    requires Joinable(left, right, condition, leftTypes, rightTypes, slotTypes)
    ensures NestedLoop(left, right, condition, limit) == Limited(Kept(Pairs(left, right), condition), limit)
  {
    PairsAreSound(left, right, condition, leftTypes, rightTypes, slotTypes);
    PushAllKeeps([], Pairs(left, right), condition, limit);
    assert [] + Kept(Pairs(left, right), condition) == Kept(Pairs(left, right), condition);
  }

  // ---------------------------------------------------------------- a missed key is not a match

  lemma {:induction false} IdsBound(row: SlotRow, slot: nat)
    ensures slot in SlotIds(row) <==> Bindings(row, slot) > 0
  {
    if row != [] {
      IdsBound(row[1..], slot);
      assert SlotIds(row) == [row[0].slot] + SlotIds(row[1..]);
    }
  }

  lemma LeftLookup(l: SlotRow, r: SlotRow, slot: nat)
    requires Bindings(l + r, slot) <= 1 && slot in SlotIds(l)
    ensures Lookup(l, slot).Ok? && Lookup(l + r, slot) == Lookup(l, slot)
  {
    IdsBound(l, slot);
    BindingsConcat(l, r, slot);
  }

  lemma RightLookup(l: SlotRow, r: SlotRow, slot: nat)
    requires Bindings(l + r, slot) <= 1 && slot in SlotIds(r)
    ensures Lookup(r, slot).Ok? && Lookup(l + r, slot) == Lookup(r, slot)
  {
    IdsBound(r, slot);
    BindingsConcat(l, r, slot);
  }

  predicate KeyMatch(l: SlotRow, r: SlotRow, plan: KeyPlan) {
    var a, b := KeyOf(l, plan.left), KeyOf(r, plan.right);
    a.Found? && b.Found? && KeysEqual(b.key, a.key)
  }

  lemma KeysReadable(l: SlotRow, r: SlotRow, plan: KeyPlan)
    requires Spans(plan, SlotIds(l), SlotIds(r)) && forall slot :: Bindings(l + r, slot) <= 1
    ensures forall i :: 0 <= i < |plan.left| ==>
      && Lookup(l, plan.left[i]).Ok? && Lookup(l, plan.left[i]) == Lookup(l + r, plan.left[i])
      && Lookup(r, plan.right[i]).Ok? && Lookup(r, plan.right[i]) == Lookup(l + r, plan.right[i])
    ensures !KeyOf(l, plan.left).Failed? && !KeyOf(r, plan.right).Failed?
  {
    forall i | 0 <= i < |plan.left|
      ensures Lookup(l, plan.left[i]).Ok? && Lookup(l, plan.left[i]) == Lookup(l + r, plan.left[i])
      ensures Lookup(r, plan.right[i]).Ok? && Lookup(r, plan.right[i]) == Lookup(l + r, plan.right[i])
    {
      LeftLookup(l, r, plan.left[i]);
      RightLookup(l, r, plan.right[i]);
    }
    ReadSlotsComplete(l, plan.left);
    ReadSlotsComplete(r, plan.right);
  }

  lemma HoldsMeansKeyMatch(l: SlotRow, r: SlotRow, plan: KeyPlan)
    requires Spans(plan, SlotIds(l), SlotIds(r)) && forall slot :: Bindings(l + r, slot) <= 1
    requires PlanHolds(l + r, plan)
    ensures KeyMatch(l, r, plan)
  {
    KeysReadable(l, r, plan);
    forall i | 0 <= i < |plan.left|
      ensures !Lookup(l, plan.left[i]).value.Null? && !NaNValue(Lookup(l, plan.left[i]).value)
      ensures !Lookup(r, plan.right[i]).value.Null? && !NaNValue(Lookup(r, plan.right[i]).value)
      ensures GroupingEqual(Lookup(r, plan.right[i]).value, Lookup(l, plan.left[i]).value)
    {
      assert PairHolds(l + r, plan.left[i], plan.right[i]);
    }
    ReadSlotsComplete(l, plan.left);
    ReadSlotsComplete(r, plan.right);
  }

  /** The pairs the operator collects from the first rows are those collected from the declared rows. */
  function JoinPlan(condition: Expr<nat>, leftTypes: SlotRow, rightTypes: SlotRow, slotTypes: SlotRow): KeyPlan {
    CollectPairs(condition, SlotIds(leftTypes), SlotIds(rightTypes), slotTypes, KeyPlan([], []))
  }

  lemma SameIds(row: SlotRow, declared: SlotRow)
    requires Conforms(row, declared)
    ensures SlotIds(row) == SlotIds(declared)
  {
  }

  lemma {:induction false} SameBindings(row: SlotRow, declared: SlotRow, slot: nat)
    requires Conforms(row, declared)
    ensures Bindings(row, slot) == Bindings(declared, slot)
  {
    LookupConforms(row, declared, slot);
  }

  /** One pair of rows of a validated join. */
  ghost predicate PairOk(l: SlotRow, r: SlotRow, condition: Expr<nat>, leftTypes: SlotRow, rightTypes: SlotRow,
                         slotTypes: SlotRow) {
    && Conforms(l, leftTypes) && Conforms(r, rightTypes)
    && (forall slot :: Bindings(leftTypes + rightTypes, slot) <= 1)
    && ValidPredicate(condition, leftTypes + rightTypes)
    && TypesAgree(slotTypes, leftTypes + rightTypes)
  }

  lemma PairSpans(l: SlotRow, r: SlotRow, condition: Expr<nat>, leftTypes: SlotRow, rightTypes: SlotRow,
                  slotTypes: SlotRow)
    requires Conforms(l, leftTypes) && Conforms(r, rightTypes) &&
      forall slot :: Bindings(leftTypes + rightTypes, slot) <= 1
    ensures Spans(JoinPlan(condition, leftTypes, rightTypes, slotTypes), SlotIds(l), SlotIds(r))
    ensures forall slot :: Bindings(l + r, slot) <= 1
  {
    SameIds(l, leftTypes);
    SameIds(r, rightTypes);
    CollectSpans(condition, SlotIds(leftTypes), SlotIds(rightTypes), slotTypes, KeyPlan([], []));
    PairConforms(l, r, leftTypes, rightTypes);
    forall slot ensures Bindings(l + r, slot) <= 1 { SameBindings(l + r, leftTypes + rightTypes, slot); }
  }

  lemma MissIsFalse(l: SlotRow, r: SlotRow, condition: Expr<nat>, leftTypes: SlotRow, rightTypes: SlotRow,
                    slotTypes: SlotRow)
    requires PairOk(l, r, condition, leftTypes, rightTypes, slotTypes)
    requires !KeyMatch(l, r, JoinPlan(condition, leftTypes, rightTypes, slotTypes))
    ensures EvaluatePredicate(condition, l + r) == Ok(false)
  {
    var plan := JoinPlan(condition, leftTypes, rightTypes, slotTypes);
    PairConforms(l, r, leftTypes, rightTypes);
    PredicateSound(condition, l + r, leftTypes + rightTypes);
    if EvaluatePredicate(condition, l + r) == Ok(true) {
      assert Evaluate(condition, l + r, 0) == Ok(Bool(true));
      CollectHolds(condition, SlotIds(leftTypes), SlotIds(rightTypes), slotTypes, KeyPlan([], []), l + r,
          leftTypes + rightTypes, 0);
      PairSpans(l, r, condition, leftTypes, rightTypes, slotTypes);
      HoldsMeansKeyMatch(l, r, plan);
      assert false;
    }
  }

  // ---------------------------------------------------------------- the index over the right rows

  /** The right rows before n whose key equals `key`, in order. */
  function Matching(key: Key, right: Rows, slots: seq<nat>, n: nat): (r: seq<nat>)
    requires n <= |right|
    ensures forall k :: 0 <= k < |r| ==> r[k] < n
  {
    if n == 0 then []
    else
      var k := KeyOf(right[n - 1], slots);
      Matching(key, right, slots, n - 1) + if k.Found? && KeysEqual(k.key, key) then [n - 1] else []
  }

  lemma {:induction false} MatchingAgrees(a: Key, b: Key, right: Rows, slots: seq<nat>, n: nat)
    requires n <= |right| && KeysEqual(a, b)
    ensures Matching(a, right, slots, n) == Matching(b, right, slots, n)
  {
    if n > 0 {
      MatchingAgrees(a, b, right, slots, n - 1);
      var k := KeyOf(right[n - 1], slots);
      if k.Found? {
        KeysSymmetric(a, b);
        if KeysEqual(k.key, a) { KeysTransitive(k.key, a, b); }
        if KeysEqual(k.key, b) { KeysTransitive(k.key, b, a); }
      }
    }
  }

  function NonEmpty(s: seq<nat>): Option<seq<nat>> {
    if s == [] then None else Some(s)
  }

  ghost predicate Indexed(ix: Index<seq<nat>>, prim: Value -> bv64, right: Rows, slots: seq<nat>, n: nat)
    requires n <= |right|
  {
    forall key :: Find<seq<nat>>(ix, prim, key) == NonEmpty(Matching(key, right, slots, n))
  }

  lemma MatchingSkips(key: Key, right: Rows, slots: seq<nat>, n: nat)
    requires n < |right| && !(KeyOf(right[n], slots).Found? && KeysEqual(KeyOf(right[n], slots).key, key))
    ensures Matching(key, right, slots, n + 1) == Matching(key, right, slots, n)
  {
    assert Matching(key, right, slots, n) + [] == Matching(key, right, slots, n);
  }

  lemma FoundGrows(ix: Index<seq<nat>>, prim: Value -> bv64, right: Rows, slots: seq<nat>, n: nat, key: Key, other: Key)
    requires n < |right| && KeyOf(right[n], slots) == Found(key)
    requires Find<seq<nat>>(ix, prim, other) == NonEmpty(Matching(other, right, slots, n))
    ensures Find<seq<nat>>(Put<seq<nat>>(ix, prim, key, Matching(key, right, slots, n) + [n]), prim, other) ==
            NonEmpty(Matching(other, right, slots, n + 1))
  {
    FindPut<seq<nat>>(ix, prim, key, Matching(key, right, slots, n) + [n], other);
    if KeysEqual(key, other) {
      MatchingAgrees(key, other, right, slots, n);
    } else {
      MatchingSkips(other, right, slots, n);
    }
  }

  lemma IndexGrows(ix: Index<seq<nat>>, prim: Value -> bv64, right: Rows, slots: seq<nat>, n: nat, key: Key)
    requires n < |right| && Indexed(ix, prim, right, slots, n) && KeyOf(right[n], slots) == Found(key)
    ensures Indexed(Put<seq<nat>>(ix, prim, key, Matching(key, right, slots, n) + [n]), prim, right, slots, n + 1)
  {
    var ix' := Put<seq<nat>>(ix, prim, key, Matching(key, right, slots, n) + [n]);
    forall other ensures Find<seq<nat>>(ix', prim, other) == NonEmpty(Matching(other, right, slots, n + 1)) {
      assert Find<seq<nat>>(ix, prim, other) == NonEmpty(Matching(other, right, slots, n));
      FoundGrows(ix, prim, right, slots, n, key, other);
    }
  }

  lemma IndexKeeps(ix: Index<seq<nat>>, prim: Value -> bv64, right: Rows, slots: seq<nat>, n: nat)
    requires n < |right| && Indexed(ix, prim, right, slots, n) && !KeyOf(right[n], slots).Found?
    ensures Indexed(ix, prim, right, slots, n + 1)
  {
    forall other ensures Find<seq<nat>>(ix, prim, other) == NonEmpty(Matching(other, right, slots, n + 1)) {
      MatchingSkips(other, right, slots, n);
    }
  }

  /** One right row enters the index under its key, or is skipped. */
  method IndexRow(ix: Index<seq<nat>>, right: Rows, slots: seq<nat>, prim: Value -> bv64, n: nat)
    returns (r: Result<Index<seq<nat>>, JoinError>)
    requires n < |right| && Indexed(ix, prim, right, slots, n)
    ensures r.Ok? ==> Indexed(r.value, prim, right, slots, n + 1)
    ensures r.Err? ==> KeyOf(right[n], slots).Failed?
  {
    var k := ReadKey(right[n], slots);
    match k
    case Failed(error) =>
      return Err(BadRow(error));
    case Found(key) =>
      IndexGrows(ix, prim, right, slots, n, key);
      var found := Find<seq<nat>>(ix, prim, key);
      assert found == NonEmpty(Matching(key, right, slots, n));
      r := Ok(Put<seq<nat>>(ix, prim, key, (if found.Some? then found.value else []) + [n]));
    case Unusable =>
      IndexKeeps(ix, prim, right, slots, n);
      r := Ok(ix);
  }

  method BuildIndex(right: Rows, slots: seq<nat>, prim: Value -> bv64) returns (r: Result<Index<seq<nat>>, JoinError>)
    ensures r.Ok? ==> Indexed(r.value, prim, right, slots, |right|)
    ensures r.Err? ==> exists j :: 0 <= j < |right| && KeyOf(right[j], slots).Failed?
  {
    var ix: Index<seq<nat>> := map[];
    for n := 0 to |right|
      invariant Indexed(ix, prim, right, slots, n)
    {
      var next := IndexRow(ix, right, slots, prim, n);
      if next.Err? {
        return next;
      }
      ix := next.value;
    }
    r := Ok(ix);
  }

  // ---------------------------------------------------------------- probing

  lemma PairsWithGrow(l: SlotRow, right: Rows, n: nat, condition: Expr<nat>)
    requires 0 < n <= |right|
    ensures Kept(PairsWith(l, right[..n]), condition) ==
            Kept(PairsWith(l, right[..n - 1]), condition) + Kept([l + right[n - 1]], condition)
  {
    assert PairsWith(l, right[..n]) == PairsWith(l, right[..n - 1]) + [l + right[n - 1]];
    KeptConcat(PairsWith(l, right[..n - 1]), [l + right[n - 1]], condition);
  }

  lemma PickedGrow(l: SlotRow, right: Rows, positions: seq<nat>, p: nat, condition: Expr<nat>)
    requires p < |right| && forall k :: 0 <= k < |positions| ==> positions[k] < |right|
    ensures Kept(Picked(l, right, positions + [p]), condition) ==
            Kept(Picked(l, right, positions), condition) + Kept([l + right[p]], condition)
  {
    assert Picked(l, right, positions + [p]) == Picked(l, right, positions) + [l + right[p]];
    KeptConcat(Picked(l, right, positions), [l + right[p]], condition);
  }

  /** The pairs the index offers for a left row contain every pair on which the condition is true. */
  lemma {:induction false} OfferedSuffice(l: SlotRow, right: Rows, n: nat, condition: Expr<nat>, plan: KeyPlan,
                                          key: Key)
    requires n <= |right| && KeyOf(l, plan.left) == Found(key)
    requires forall j :: 0 <= j < n && !KeyMatch(l, right[j], plan) ==>
      EvaluatePredicate(condition, l + right[j]) == Ok(false)
    ensures Kept(Picked(l, right, Matching(key, right, plan.right, n)), condition) ==
      Kept(PairsWith(l, right[..n]), condition)
  {
    if n > 0 {
      OfferedSuffice(l, right, n - 1, condition, plan, key);
      PairsWithGrow(l, right, n, condition);
      var before := Matching(key, right, plan.right, n - 1);
      if KeyMatch(l, right[n - 1], plan) {
        assert Matching(key, right, plan.right, n) == before + [n - 1];
        PickedGrow(l, right, before, n - 1, condition);
      } else {
        assert Matching(key, right, plan.right, n) == before;
        KeptOne(l + right[n - 1], condition);
      }
    }
  }

  /** Without a usable key on the left no right row matches. */
  lemma {:induction false} NoKeyNoMatch(candidates: Rows, condition: Expr<nat>)
    requires forall j :: 0 <= j < |candidates| ==> EvaluatePredicate(condition, candidates[j]) == Ok(false)
    ensures Kept(candidates, condition) == []
  {
    if candidates != [] {
      NoKeyNoMatch(candidates[..|candidates| - 1], condition);
    }
  }

  lemma KeptPicked(l: SlotRow, right: Rows, condition: Expr<nat>, leftTypes: SlotRow, rightTypes: SlotRow,
                   slotTypes: SlotRow)
    requires forall j :: 0 <= j < |right| ==> PairOk(l, right[j], condition, leftTypes, rightTypes, slotTypes)
    ensures var plan := JoinPlan(condition, leftTypes, rightTypes, slotTypes);
            Kept(PairsWith(l, right), condition) ==
            if KeyOf(l, plan.left).Found?
            then Kept(Picked(l, right, Matching(KeyOf(l, plan.left).key, right, plan.right, |right|)), condition)
            else []
  {
    var plan := JoinPlan(condition, leftTypes, rightTypes, slotTypes);
    forall j | 0 <= j < |right| && !KeyMatch(l, right[j], plan)
      ensures EvaluatePredicate(condition, l + right[j]) == Ok(false)
    {
      MissIsFalse(l, right[j], condition, leftTypes, rightTypes, slotTypes);
    }
    assert right[..|right|] == right;
    if KeyOf(l, plan.left).Found? {
      OfferedSuffice(l, right, |right|, condition, plan, KeyOf(l, plan.left).key);
    } else {
      NoKeyNoMatch(PairsWith(l, right), condition);
    }
  }

  /** The inner loop over the offered right rows. */
  method PushCandidates(joined: Rows, candidates: Rows, condition: Expr<nat>, limit: nat)
    returns (r: Result<Rows, JoinError>)
    ensures r == PushAll(joined, candidates, condition, limit)
  {
    var rows := joined;
    var i := 0;
    while i < |candidates|
      invariant 0 <= i <= |candidates|
      invariant PushAll(rows, candidates[i..], condition, limit) == PushAll(joined, candidates, condition, limit)
    {
      assert candidates[i..][0] == candidates[i] && candidates[i..][1..] == candidates[i + 1..];
      var next := PushMatch(rows, candidates[i], condition, limit);
      if next.Err? {
        return next;
      }
      rows := next.value;
      i := i + 1;
    }
    r := Ok(rows);
  }

  lemma {:induction false} KeptPrefix(left: Rows, right: Rows, condition: Expr<nat>, i: nat)
    requires i <= |left|
    ensures |Kept(Pairs(left[..i], right), condition)| <= |Kept(Pairs(left, right), condition)|
    decreases |left|
  {
    if i < |left| {
      var init := left[..|left| - 1];
      assert left[..i] == init[..i];
      KeptPrefix(init, right, condition, i);
      KeptConcat(Pairs(init, right), PairsWith(left[|left| - 1], right), condition);
    } else {
      assert left[..i] == left;
    }
  }

  lemma PairsGrow(left: Rows, right: Rows, condition: Expr<nat>, i: nat)
    requires i < |left|
    ensures Kept(Pairs(left[..i + 1], right), condition) ==
            Kept(Pairs(left[..i], right), condition) + Kept(PairsWith(left[i], right), condition)
  {
    assert left[..i + 1][..i] == left[..i];
    KeptConcat(Pairs(left[..i], right), PairsWith(left[i], right), condition);
  }

  lemma {:induction false} SubsetSound(l: SlotRow, right: Rows, positions: seq<nat>, condition: Expr<nat>)
    requires AllSound(PairsWith(l, right), condition)
    requires forall k :: 0 <= k < |positions| ==> positions[k] < |right|
    ensures AllSound(Picked(l, right, positions), condition)
  {
    forall k | 0 <= k < |positions| ensures EvaluatePredicate(condition, Picked(l, right, positions)[k]).Ok? {
      assert Picked(l, right, positions)[k] == PairsWith(l, right)[positions[k]];
    }
  }

  lemma RowSound(l: SlotRow, right: Rows, condition: Expr<nat>, leftTypes: SlotRow, rightTypes: SlotRow,
                 slotTypes: SlotRow)
    requires forall j :: 0 <= j < |right| ==> PairOk(l, right[j], condition, leftTypes, rightTypes, slotTypes)
    ensures AllSound(PairsWith(l, right), condition)
  {
    forall j | 0 <= j < |right| ensures EvaluatePredicate(condition, PairsWith(l, right)[j]).Ok? {
      PairConforms(l, right[j], leftTypes, rightTypes);
      PredicateSound(condition, l + right[j], leftTypes + rightTypes);
    }
  }

  /** One left row of the probe loop: the matches appended are those of the full inner loop. */
  method ProbeRow(joined: Rows, l: SlotRow, right: Rows, ix: Index<seq<nat>>, prim: Value -> bv64, plan: KeyPlan,
                  condition: Expr<nat>, limit: nat,
                  ghost leftTypes: SlotRow, ghost rightTypes: SlotRow, ghost slotTypes: SlotRow)
    returns (r: Result<Rows, JoinError>)
    requires forall j :: 0 <= j < |right| ==> PairOk(l, right[j], condition, leftTypes, rightTypes, slotTypes)
    requires plan == JoinPlan(condition, leftTypes, rightTypes, slotTypes) && !KeyOf(l, plan.left).Failed?
    requires Indexed(ix, prim, right, plan.right, |right|) && |joined| <= limit
    ensures r == Limited(joined + Kept(PairsWith(l, right), condition), limit)
  {
    KeptPicked(l, right, condition, leftTypes, rightTypes, slotTypes);
    RowSound(l, right, condition, leftTypes, rightTypes, slotTypes);
    var k := ReadKey(l, plan.left);
    if !k.Found? {
      assert joined + [] == joined;
      return Ok(joined);
    }
    var offered := Find<seq<nat>>(ix, prim, k.key);
    assert offered == NonEmpty(Matching(k.key, right, plan.right, |right|));
    var positions := if offered.Some? then offered.value else [];
    SubsetSound(l, right, positions, condition);
    PushAllKeeps(joined, Picked(l, right, positions), condition, limit);
    r := PushCandidates(joined, Picked(l, right, positions), condition, limit);
  }

  lemma PairOf(left: Rows, right: Rows, condition: Expr<nat>, leftTypes: SlotRow, rightTypes: SlotRow,
               slotTypes: SlotRow, i: nat)
    requires Joinable(left, right, condition, leftTypes, rightTypes, slotTypes) && i < |left|
    ensures forall j :: 0 <= j < |right| ==> PairOk(left[i], right[j], condition, leftTypes, rightTypes, slotTypes)
  {
  }

  lemma KeysNeverFail(left: Rows, right: Rows, condition: Expr<nat>, leftTypes: SlotRow, rightTypes: SlotRow,
                      slotTypes: SlotRow, i: nat, j: nat)
    requires Joinable(left, right, condition, leftTypes, rightTypes, slotTypes) && i < |left| && j < |right|
    ensures var plan := JoinPlan(condition, leftTypes, rightTypes, slotTypes);
            !KeyOf(left[i], plan.left).Failed? && !KeyOf(right[j], plan.right).Failed?
  {
    PairSpans(left[i], right[j], condition, leftTypes, rightTypes, slotTypes);
    KeysReadable(left[i], right[j], JoinPlan(condition, leftTypes, rightTypes, slotTypes));
  }

  method ProbeAll(left: Rows, right: Rows, ix: Index<seq<nat>>, prim: Value -> bv64, plan: KeyPlan,
      condition: Expr<nat>, limit: nat,
                  ghost leftTypes: SlotRow, ghost rightTypes: SlotRow, ghost slotTypes: SlotRow)
    returns (r: Result<Rows, JoinError>)
    requires Joinable(left, right, condition, leftTypes, rightTypes, slotTypes) && right != []
    requires plan == JoinPlan(condition, leftTypes, rightTypes, slotTypes)
    requires Indexed(ix, prim, right, plan.right, |right|)
    ensures r == Limited(Kept(Pairs(left, right), condition), limit)
  {
    var joined: Rows := [];
    var i := 0;
    while i < |left|
      invariant 0 <= i <= |left|
      invariant joined == Kept(Pairs(left[..i], right), condition) && |joined| <= limit
    {
      KeysNeverFail(left, right, condition, leftTypes, rightTypes, slotTypes, i, 0);
      PairOf(left, right, condition, leftTypes, rightTypes, slotTypes, i);
      PairsGrow(left, right, condition, i);
      var next := ProbeRow(joined, left[i], right, ix, prim, plan, condition, limit, leftTypes, rightTypes, slotTypes);
      if next.Err? {
        KeptPrefix(left, right, condition, i + 1);
        return next;
      }
      joined := next.value;
      i := i + 1;
    }
    assert left[..i] == left;
    r := Ok(joined);
  }

  method LoopAll(left: Rows, right: Rows, condition: Expr<nat>, limit: nat) returns (r: Result<Rows, JoinError>)
    ensures r == NestedLoop(left, right, condition, limit)
  {
    var joined: Rows := [];
    var i := 0;
    while i < |left|
      invariant 0 <= i <= |left|
      invariant PushAll([], Pairs(left[..i], right), condition, limit) == Ok(joined)
    {
      var next := PushCandidates(joined, PairsWith(left[i], right), condition, limit);
      PushAllConcat([], Pairs(left[..i], right), PairsWith(left[i], right), condition, limit);
      assert left[..i + 1][..i] == left[..i];
      if next.Err? {
        LoopStops(left, right, condition, limit, i + 1);
        return next;
      }
      joined := next.value;
      i := i + 1;
    }
    assert left[..i] == left;
    r := Ok(joined);
  }

  lemma {:induction false} PushAllConcat(joined: Rows, a: Rows, b: Rows, condition: Expr<nat>, limit: nat)
    ensures PushAll(joined, a + b, condition, limit) ==
            match PushAll(joined, a, condition, limit)
            case Ok(more) => PushAll(more, b, condition, limit)
            case Err(error) => Err(error)
    decreases |a|
  {
    if a == [] {
      assert a + b == b;
    } else {
      assert (a + b)[1..] == a[1..] + b;
      var next := PushMatch(joined, a[0], condition, limit);
      if next.Ok? {
        PushAllConcat(next.value, a[1..], b, condition, limit);
      }
    }
  }

  lemma {:induction false} LoopStops(left: Rows, right: Rows, condition: Expr<nat>, limit: nat, i: nat)
    requires i <= |left| && NestedLoop(left[..i], right, condition, limit).Err?
    ensures NestedLoop(left, right, condition, limit) == NestedLoop(left[..i], right, condition, limit)
    decreases |left|
  {
    if i < |left| {
      var init := left[..|left| - 1];
      assert left[..i] == init[..i];
      LoopStops(init, right, condition, limit, i);
      PushAllConcat([], Pairs(init, right), PairsWith(left[|left| - 1], right), condition, limit);
    } else {
      assert left[..i] == left;
    }
  }

  /** slot_sets_disjoint. */
  method SlotSetsDisjoint(left: SlotRow, right: SlotRow) returns (disjoint: bool)
    ensures disjoint <==> forall i, j :: 0 <= i < |left| && 0 <= j < |right| ==> left[i].slot != right[j].slot
  {
    for i := 0 to |left|
      invariant forall a, b :: 0 <= a < i && 0 <= b < |right| ==> left[a].slot != right[b].slot
    {
      for j := 0 to |right|
        invariant forall b :: 0 <= b < j ==> left[i].slot != right[b].slot
      {
        if left[i].slot == right[j].slot {
          return false;
        }
      }
    }
    return true;
  }

  lemma UniqueMeansDisjoint(l: SlotRow, r: SlotRow)
    requires forall slot :: Bindings(l + r, slot) <= 1
    ensures forall i, j :: 0 <= i < |l| && 0 <= j < |r| ==> l[i].slot != r[j].slot
  {
    forall i, j | 0 <= i < |l| && 0 <= j < |r| ensures l[i].slot != r[j].slot {
      IdsBound(l, l[i].slot);
      IdsBound(r, l[i].slot);
      BindingsConcat(l, r, l[i].slot);
      assert SlotIds(l)[i] == l[i].slot && SlotIds(r)[j] == r[j].slot;
    }
  }

  /** The join branch of execute_query. Whatever path it takes and whatever std::hash does, the result is
      the nested loop's: the same rows in the same order, or the same row-limit error. */
  method Join(left: Rows, right: Rows, condition: Expr<nat>, slotTypes: SlotRow, limit: nat, prim: Value -> bv64,
              ghost leftTypes: SlotRow, ghost rightTypes: SlotRow)
    returns (r: Result<Rows, JoinError>)
    requires Joinable(left, right, condition, leftTypes, rightTypes, slotTypes)
    ensures r == NestedLoop(left, right, condition, limit)
    ensures r == Limited(Kept(Pairs(left, right), condition), limit)
  {
    NestedLoopOutcome(left, right, condition, limit, leftTypes, rightTypes, slotTypes);
    if left == [] || right == [] {
      EmptyPairs(left, right);
      return Ok([]);
    }
    PairSpans(left[0], right[0], condition, leftTypes, rightTypes, slotTypes);
    UniqueMeansDisjoint(left[0], right[0]);
    var disjoint := SlotSetsDisjoint(left[0], right[0]);
    if !disjoint {
      return Err(DuplicateSlots);
    }
    SameIds(left[0], leftTypes);
    SameIds(right[0], rightTypes);
    var plan := CollectPairs(condition, SlotIds(left[0]), SlotIds(right[0]), slotTypes, KeyPlan([], []));
    if Usable(plan) {
      var built := BuildIndex(right, plan.right, prim);
      BuildNeverFails(left, right, condition, leftTypes, rightTypes, slotTypes);
      match built {
        case Err(error) =>
          r := Err(error);
        case Ok(ix) =>
          r := ProbeAll(left, right, ix, prim, plan, condition, limit, leftTypes, rightTypes, slotTypes);
      }
    } else {
      r := LoopAll(left, right, condition, limit);
    }
  }

  lemma BuildNeverFails(left: Rows, right: Rows, condition: Expr<nat>, leftTypes: SlotRow, rightTypes: SlotRow,
                        slotTypes: SlotRow)
    requires Joinable(left, right, condition, leftTypes, rightTypes, slotTypes) && left != []
    ensures forall j :: 0 <= j < |right| ==>
      !KeyOf(right[j], JoinPlan(condition, leftTypes, rightTypes, slotTypes).right).Failed?
  {
    forall j | 0 <= j < |right|
      ensures !KeyOf(right[j], JoinPlan(condition, leftTypes, rightTypes, slotTypes).right).Failed? {
      KeysNeverFail(left, right, condition, leftTypes, rightTypes, slotTypes, 0, j);
    }
  }

  lemma {:induction false} EmptyPairs(left: Rows, right: Rows)
    requires left == [] || right == []
    ensures Pairs(left, right) == []
  {
    if left != [] {
      EmptyPairs(left[..|left| - 1], right);
    }
  }
}
