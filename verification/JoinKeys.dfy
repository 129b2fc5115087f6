/** Which equalities of a join condition may drive the hash index, and why a missed key is never a match. */
module JoinKeys {
  import opened Common
  import opened Values
  import opened Expressions
  import opened Keys

  /** Slot left[i] of the left row is equated with slot right[i] of the right row. */
  datatype KeyPlan = KeyPlan(left: seq<nat>, right: seq<nat>)

  predicate Usable(plan: KeyPlan) {
    plan.left != [] && |plan.left| == |plan.right|
  }

  function SlotIds(row: SlotRow): (ids: seq<nat>)
    ensures |ids| == |row| && forall i :: 0 <= i < |row| ==> ids[i] == row[i].slot
  {
    seq(|row|, i requires 0 <= i < |row| => row[i].slot)
  }

  /** Which operand belongs to the left input; None when the pair does not span the two inputs. */
  function Orient(a: nat, b: nat, leftIds: seq<nat>, rightIds: seq<nat>): (r: Option<(nat, nat)>)
    ensures r.Some? ==> r.value.0 in leftIds && r.value.1 in rightIds
    ensures r.Some? ==> r.value == (a, b) || r.value == (b, a)
  {
    if a in leftIds && b in rightIds then Some((a, b))
    else if a in rightIds && b in leftIds then Some((b, a))
    else None
  }

  /** Both slots are declared with the same type. */
  predicate SameDeclaredType(a: nat, b: nat, slotTypes: SlotRow) {
    var x, y := FirstBinding(slotTypes, a), FirstBinding(slotTypes, b);
    x.Some? && y.Some? && TypeOfValue(x.value) == TypeOfValue(y.value) && !x.value.Null?
  }

  function AddPair(plan: KeyPlan, a: nat, b: nat, slotTypes: SlotRow): KeyPlan {
    if !SameDeclaredType(a, b, slotTypes) || (a in plan.left && b in plan.right) then plan
    else KeyPlan(plan.left + [a], plan.right + [b])
  }

  /** collect_equi_join_pairs: column equalities on the AND spine. */
  function CollectPairs(e: Expr<nat>, leftIds: seq<nat>, rightIds: seq<nat>, slotTypes: SlotRow,
                        plan: KeyPlan): KeyPlan {
    match e
    case Logic(And, l, r) =>
      CollectPairs(r, leftIds, rightIds, slotTypes, CollectPairs(l, leftIds, rightIds, slotTypes, plan))
    case Compare(Eq, Column(a), Column(b)) =>
      (match Orient(a, b, leftIds, rightIds)
       case Some(pair) => AddPair(plan, pair.0, pair.1, slotTypes)
       case None => plan)
    case _ => plan
  }

  // ---------------------------------------------------------------- a true condition makes all collected pairs equal

  /** The two slots of the row hold equal values that are neither NULL nor NaN. */
  predicate PairHolds(row: SlotRow, a: nat, b: nat) {
    && Lookup(row, a).Ok? && Lookup(row, b).Ok?
    && !Lookup(row, a).value.Null? && !NaNValue(Lookup(row, a).value) && !NaNValue(Lookup(row, b).value)
    && GroupingEqual(Lookup(row, a).value, Lookup(row, b).value)
  }

  predicate PlanHolds(row: SlotRow, plan: KeyPlan) {
    |plan.left| == |plan.right| && forall i :: 0 <= i < |plan.left| ==> PairHolds(row, plan.left[i], plan.right[i])
  }

  /** The accumulated types agree with the declared types of the joined row. */
  ghost predicate TypesAgree(slotTypes: SlotRow, declared: SlotRow) {
    forall slot :: Bindings(declared, slot) > 0 ==>
      && FirstBinding(slotTypes, slot).Some?
      && TypeOfValue(FirstBinding(slotTypes, slot).value) == TypeOfValue(FirstBinding(declared, slot).value)
  }

  lemma EqualOfOneType(a: Value, b: Value, t: ExprType)
    requires HasType(a, t) && HasType(b, t) && CompareValues(Eq, a, b) == Ok(Bool(true))
    ensures !a.Null? && !NaNValue(a) && !NaNValue(b) && GroupingEqual(a, b)
  {
  }

  lemma LookupTyped(row: SlotRow, declared: SlotRow, slotTypes: SlotRow, slot: nat)
    requires Conforms(row, declared) && TypesAgree(slotTypes, declared) && Lookup(row, slot).Ok?
    ensures FirstBinding(slotTypes, slot).Some?
    ensures HasType(Lookup(row, slot).value, TypeOfValue(FirstBinding(slotTypes, slot).value))
  {
    LookupConforms(row, declared, slot);
  }

  lemma TrueEquality(row: SlotRow, a: nat, b: nat, depth: nat)
    requires Evaluate(Compare(Eq, Column(a), Column(b)), row, depth) == Ok(Bool(true))
    ensures Lookup(row, a).Ok? && Lookup(row, b).Ok?
    ensures CompareValues(Eq, Lookup(row, a).value, Lookup(row, b).value) == Ok(Bool(true))
  {
    EvaluateBinary(Compare(Eq, Column(a), Column(b)), row, depth);
  }

  lemma TruePairHolds(row: SlotRow, declared: SlotRow, slotTypes: SlotRow, a: nat, b: nat, depth: nat)
    requires Conforms(row, declared) && TypesAgree(slotTypes, declared) && SameDeclaredType(a, b, slotTypes)
    requires Evaluate(Compare(Eq, Column(a), Column(b)), row, depth) == Ok(Bool(true))
    ensures PairHolds(row, a, b) && PairHolds(row, b, a)
  {
    TrueEquality(row, a, b, depth);
    LookupTyped(row, declared, slotTypes, a);
    LookupTyped(row, declared, slotTypes, b);
    EqualOfOneType(Lookup(row, a).value, Lookup(row, b).value, TypeOfValue(FirstBinding(slotTypes, a).value));
  }

  lemma TrueConjunction(l: Expr<nat>, r: Expr<nat>, row: SlotRow, depth: nat)
    requires Evaluate(Logic(And, l, r), row, depth) == Ok(Bool(true))
    ensures Evaluate(l, row, depth + 1) == Ok(Bool(true)) && Evaluate(r, row, depth + 1) == Ok(Bool(true))
  {
    EvaluateBinary(Logic(And, l, r), row, depth);
  }

  /** If the condition is true on the row, every collected pair holds on it. */
  lemma {:induction false} CollectHolds(e: Expr<nat>, leftIds: seq<nat>, rightIds: seq<nat>, slotTypes: SlotRow,
      plan: KeyPlan,
                                        row: SlotRow, declared: SlotRow, depth: nat)
    requires Conforms(row, declared) && TypesAgree(slotTypes, declared)
    requires Evaluate(e, row, depth) == Ok(Bool(true)) && PlanHolds(row, plan)
    ensures PlanHolds(row, CollectPairs(e, leftIds, rightIds, slotTypes, plan))
    decreases e
  {
    match e
    case Logic(And, l, r) =>
      TrueConjunction(l, r, row, depth);
      CollectHolds(l, leftIds, rightIds, slotTypes, plan, row, declared, depth + 1);
      CollectHolds(r, leftIds, rightIds, slotTypes, CollectPairs(l, leftIds, rightIds, slotTypes, plan), row, declared,
          depth + 1);
    case Compare(Eq, Column(a), Column(b)) =>
      if SameDeclaredType(a, b, slotTypes) {
        TruePairHolds(row, declared, slotTypes, a, b, depth);
      }
    case _ =>
  }

  /** Every collected pair spans the two inputs. */
  ghost predicate Spans(plan: KeyPlan, leftIds: seq<nat>, rightIds: seq<nat>) {
    && |plan.left| == |plan.right|
    && (forall i :: 0 <= i < |plan.left| ==> plan.left[i] in leftIds)
    && (forall i :: 0 <= i < |plan.right| ==> plan.right[i] in rightIds)
  }

  lemma {:induction false} CollectSpans(e: Expr<nat>, leftIds: seq<nat>, rightIds: seq<nat>, slotTypes: SlotRow,
                                        plan: KeyPlan)
    requires Spans(plan, leftIds, rightIds)
    ensures Spans(CollectPairs(e, leftIds, rightIds, slotTypes, plan), leftIds, rightIds)
    decreases e
  {
    match e
    case Logic(And, l, r) =>
      CollectSpans(l, leftIds, rightIds, slotTypes, plan);
      CollectSpans(r, leftIds, rightIds, slotTypes, CollectPairs(l, leftIds, rightIds, slotTypes, plan));
    case Compare(Eq, Column(a), Column(b)) =>
    case _ =>
  }

  // ---------------------------------------------------------------- every usable equality is collected

  /** c is one of the conditions that AND puts together in e. */
  predicate Conjunct(e: Expr<nat>, c: Expr<nat>) {
    e == c || (e.Logic? && e.logic.And? && (Conjunct(e.lhs, c) || Conjunct(e.rhs, c)))
  }

  predicate Has(plan: KeyPlan, a: nat, b: nat) {
    a in plan.left && b in plan.right
  }

  lemma {:induction false} CollectKeeps(e: Expr<nat>, leftIds: seq<nat>, rightIds: seq<nat>, slotTypes: SlotRow,
                                        plan: KeyPlan, a: nat, b: nat)
    requires Has(plan, a, b)
    ensures Has(CollectPairs(e, leftIds, rightIds, slotTypes, plan), a, b)
    decreases e
  {
    match e
    case Logic(And, l, r) =>
      CollectKeeps(l, leftIds, rightIds, slotTypes, plan, a, b);
      CollectKeeps(r, leftIds, rightIds, slotTypes, CollectPairs(l, leftIds, rightIds, slotTypes, plan), a, b);
    case Compare(Eq, Column(_), Column(_)) =>
    case _ =>
  }

  /** Each equality of two columns of one declared type, one from each input, in whichever order it is written, puts
      its columns into the key: then rows are found through the hash index. */
  lemma {:induction false} EveryEqualityIsUsed(e: Expr<nat>, leftIds: seq<nat>, rightIds: seq<nat>,
                                               slotTypes: SlotRow, plan: KeyPlan, a: nat, b: nat)
    requires Conjunct(e, Compare(Eq, Column(a), Column(b))) || Conjunct(e, Compare(Eq, Column(b), Column(a)))
    requires a in leftIds && b in rightIds && (a in rightIds && b in leftIds ==> a == b)
    requires SameDeclaredType(a, b, slotTypes)
    ensures Has(CollectPairs(e, leftIds, rightIds, slotTypes, plan), a, b)
    decreases e
  {
    match e
    case Logic(And, l, r) =>
      var first := CollectPairs(l, leftIds, rightIds, slotTypes, plan);
      if Conjunct(l, Compare(Eq, Column(a), Column(b))) || Conjunct(l, Compare(Eq, Column(b), Column(a))) {
        EveryEqualityIsUsed(l, leftIds, rightIds, slotTypes, plan, a, b);
        CollectKeeps(r, leftIds, rightIds, slotTypes, first, a, b);
      } else {
        EveryEqualityIsUsed(r, leftIds, rightIds, slotTypes, first, a, b);
      }
    case Compare(Eq, Column(_), Column(_)) =>
  }

  // ---------------------------------------------------------------- keys of one input row

  datatype RowKey = Failed(error: Error) | Unusable | Found(key: Key)

  /** The values at the slots, in order; reading stops at a NULL. */
  function ReadSlots(row: SlotRow, slots: seq<nat>): (r: RowKey)
    ensures r.Found? ==> |r.key| == |slots| && forall i :: 0 <= i < |slots| ==>
      Lookup(row, slots[i]) == Ok(r.key[i]) && !r.key[i].Null?
  {
    if slots == [] then Found([])
    else
      match Lookup(row, slots[0])
      case Err(error) => Failed(error)
      case Ok(v) =>
        if v.Null? then Unusable
        else
          match ReadSlots(row, slots[1..])
          case Found(rest) => Found([v] + rest)
          case other => other
  }

  /** The key of a row; a key with a NaN is as unusable as one with a NULL. */
  function KeyOf(row: SlotRow, slots: seq<nat>): RowKey {
    var r := ReadSlots(row, slots);
    if r.Found? && HasNaN(r.key) then Unusable else r
  }

  lemma {:induction false} ReadSlotsComplete(row: SlotRow, slots: seq<nat>)
    requires forall i :: 0 <= i < |slots| ==> Lookup(row, slots[i]).Ok?
    ensures !ReadSlots(row, slots).Failed?
    ensures (forall i :: 0 <= i < |slots| ==> !Lookup(row, slots[i]).value.Null?) ==> ReadSlots(row, slots).Found?
  {
    if slots != [] {
      ReadSlotsComplete(row, slots[1..]);
      assert forall i :: 0 <= i < |slots[1..]| ==> slots[1..][i] == slots[i + 1];
    }
  }

  lemma {:induction false} ReadSlotsExtend(row: SlotRow, slots: seq<nat>, slot: nat)
    ensures ReadSlots(row, slots + [slot]) ==
            match ReadSlots(row, slots)
            case Found(key) =>
              (match Lookup(row, slot)
               case Err(error) => Failed(error)
               case Ok(v) => if v.Null? then Unusable else Found(key + [v]))
            case other => other
  {
    if slots != [] {
      assert (slots + [slot])[1..] == slots[1..] + [slot];
      ReadSlotsExtend(row, slots[1..], slot);
    } else {
      assert slots + [slot] == [slot];
      assert ReadSlots(row, [slot][1..]) == Found([]);
    }
  }

  lemma {:induction false} ReadSlotsStops(row: SlotRow, slots: seq<nat>, more: seq<nat>)
    requires !ReadSlots(row, slots).Found?
    ensures ReadSlots(row, slots + more) == ReadSlots(row, slots)
  {
    assert (slots + more)[1..] == slots[1..] + more;
    match Lookup(row, slots[0])
    case Err(_) =>
    case Ok(v) =>
      if !v.Null? {
        ReadSlotsStops(row, slots[1..], more);
      }
  }

  /** The key-reading loops of the join. */
  method ReadKey(row: SlotRow, slots: seq<nat>) returns (r: RowKey)
    ensures r == KeyOf(row, slots)
  {
    var key: Key := [];
    var i := 0;
    while i < |slots|
      invariant 0 <= i <= |slots|
      invariant ReadSlots(row, slots[..i]) == Found(key)
    {
      assert slots[..i + 1] == slots[..i] + [slots[i]];
      ReadSlotsExtend(row, slots[..i], slots[i]);
      assert slots == slots[..i + 1] + slots[i + 1..];
      var found := LookupSlot(row, slots[i]);
      if found.Err? {
        ReadSlotsStops(row, slots[..i + 1], slots[i + 1..]);
        return Failed(found.error);
      }
      if found.value.Null? {
        ReadSlotsStops(row, slots[..i + 1], slots[i + 1..]);
        return Unusable;
      }
      key := key + [found.value];
      i := i + 1;
    }
    assert slots[..i] == slots;
    var nan := ContainsNaN(key);
    r := if nan then Unusable else Found(key);
  }
}
