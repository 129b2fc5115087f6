/** Aggregate states and their in-order fold (accumulate_aggregate and finish_aggregate, src/core/executor.cpp). */
module Aggregates {
  import opened Common
  import opened Values
  import opened Expressions

  datatype AggregateKind = Count | Sum | Avg | Min | Max

  datatype AggregateCall = AggregateCall(kind: AggregateKind, input: Option<nat>, output: nat, outputType: Type,
      nullable: bool)

  /** The floating-point operations of the platform; the proofs hold for any. */
  datatype Floats = Floats(
    addDouble: (nat, nat) -> nat,
    extend: Value -> nat,
    addExtended: (nat, nat) -> nat,
    finiteExtended: nat -> bool,
    average: (nat, int) -> nat)

  datatype AggregateError = BadRow(error: Error) | CountOverflow | SumOverflow | NotFinite | TypeMismatch

  /** total is the long double running sum of AVG. */
  datatype AggregateState = AggregateState(count: int, value: Option<Value>, total: nat)

  const INT64_MAX: int := 0x7FFF_FFFF_FFFF_FFFF
  const INT64_MIN: int := -0x8000_0000_0000_0000

  predicate InInt64(n: int) {
    INT64_MIN <= n <= INT64_MAX
  }

  const EMPTY_STATE: AggregateState := AggregateState(0, None, 0)

  function CheckedIncrement(n: int): Result<int, AggregateError> {
    if n == INT64_MAX then Err(CountOverflow) else Ok(n + 1)
  }

  /** checked_add: the test is made without leaving int64. */
  function CheckedAdd(a: int, b: int): (r: Result<int, AggregateError>)
    ensures InInt64(a) && InInt64(b) ==> r == if InInt64(a + b) then Ok(a + b) else Err(SumOverflow)
  {
    if (b > 0 && a > INT64_MAX - b) || (b < 0 && a < INT64_MIN - b) then Err(SumOverflow) else Ok(a + b)
  }

  // ---------------------------------------------------------------- the order of MIN and MAX

  function CompareNumbers(a: int, b: int): int {
    if a < b then -1 else if b < a then 1 else 0
  }

  /** Byte-wise lexicographic order. */
  predicate TextLess(a: seq<byte>, b: seq<byte>) {
    b != [] && (a == [] || a[0] < b[0] || (a[0] == b[0] && TextLess(a[1..], b[1..])))
  }

  /** compare_sort_values. Its callers only compare values of one family. */
  function CompareSortValues(a: Value, b: Value): int {
    if a.Double? || b.Double? then
      var x, y := NumericDouble(a), NumericDouble(b);
      if x.Some? && y.Some?
          then (if DoubleLt(x.value, y.value) then -1 else if DoubleLt(y.value, x.value) then 1 else 0) else 0
    else if IntegerOf(a).Some? then
      if IntegerOf(b).Some? then CompareNumbers(IntegerOf(a).value, IntegerOf(b).value) else 0
    else if a.Bool? then
      if b.Bool? then (if a.b == b.b then 0 else if a.b then 1 else -1) else 0
    else if a.Text? && b.Text? then (if TextLess(a.s, b.s) then -1 else if TextLess(b.s, a.s) then 1 else 0)
    else 0
  }

  // ---------------------------------------------------------------- one row

  function AddDouble(f: Floats, state: AggregateState, v: Value): Result<AggregateState, AggregateError> {
    if !v.Double? then Err(TypeMismatch)
    else
      var current := if state.value.Some? && state.value.value.Double? then state.value.value.bits else 0;
      var sum := f.addDouble(current, v.bits);
      if IsFinite(sum) then Ok(state.(value := Some(Double(sum)))) else Err(NotFinite)
  }

  /** The running integer sum; a state of SUM never holds anything but a BIGINT. */
  function Current(state: AggregateState): int {
    if state.value.Some? && state.value.value.BigInt? then state.value.value.n else 0
  }

  function AddInteger(state: AggregateState, v: Value): Result<AggregateState, AggregateError> {
    match IntegerOf(v)
    case None => Err(TypeMismatch)
    case Some(n) =>
      match CheckedAdd(Current(state), n)
      case Err(error) => Err(error)
      case Ok(sum) => Ok(state.(value := Some(BigInt(sum))))
  }

  function AddAverage(f: Floats, state: AggregateState, v: Value): Result<AggregateState, AggregateError> {
    if v.Bool? || v.Text? then Err(TypeMismatch)
    else
      match CheckedIncrement(state.count)
      case Err(error) => Err(error)
      case Ok(count) =>
        var total := f.addExtended(state.total, f.extend(v));
        if f.finiteExtended(total) then Ok(state.(count := count, total := total)) else Err(NotFinite)
  }

  function KeepExtreme(kind: AggregateKind, state: AggregateState, v: Value): AggregateState {
    if state.value.None? then state.(value := Some(v))
    else
      var c := CompareSortValues(v, state.value.value);
      state.(value := if (kind.Min? && c < 0) || (kind.Max? && c > 0) then Some(v) else state.value)
  }

  function AddValue(f: Floats, call: AggregateCall, state: AggregateState,
                    v: Value): Result<AggregateState, AggregateError> {
    match call.kind
    case Count => (match CheckedIncrement(state.count)
                   case Err(error) => Err(error)
                   case Ok(count) => Ok(state.(count := count)))
    case Sum => if call.outputType.DoubleType? then AddDouble(f, state, v) else AddInteger(state, v)
    case Avg => AddAverage(f, state, v)
    case Min => Ok(KeepExtreme(Min, state, v))
    case Max => Ok(KeepExtreme(Max, state, v))
  }

  /** What the row feeds to the call: nothing for a NULL; COUNT(*) counts the row itself. */
  function InputOf(call: AggregateCall, row: SlotRow): Result<Option<Value>, Error> {
    match call.input
    case None => Ok(if call.kind.Count? then Some(Bool(true)) else None)
    case Some(slot) =>
      match Lookup(row, slot)
      case Err(error) => Err(error)
      case Ok(v) => Ok(if v.Null? then None else Some(v))
  }

  /** accumulate_aggregate. */
  function Accumulate(f: Floats, call: AggregateCall, row: SlotRow,
                      state: AggregateState): Result<AggregateState, AggregateError> {
    match InputOf(call, row)
    case Err(error) => Err(BadRow(error))
    case Ok(None) => Ok(state)
    case Ok(Some(v)) => AddValue(f, call, state, v)
  }

  /** finish_aggregate. */
  function Finish(f: Floats, call: AggregateCall, state: AggregateState): Result<Value, AggregateError> {
    if call.kind.Count? then Ok(BigInt(state.count))
    else if call.kind.Avg? then
      if state.count == 0 then Ok(Null)
      else
        var average := f.average(state.total, state.count);
        if IsFinite(average) then Ok(Double(average)) else Err(NotFinite)
    else Ok(if state.value.Some? then state.value.value else Null)
  }

  // ---------------------------------------------------------------- the fold over a group's rows

  function Fold(f: Floats, call: AggregateCall, rows: seq<SlotRow>): Result<AggregateState, AggregateError> {
    if rows == [] then Ok(EMPTY_STATE)
    else
      match Fold(f, call, rows[..|rows| - 1])
      case Err(error) => Err(error)
      case Ok(state) => Accumulate(f, call, rows[|rows| - 1], state)
  }

  /** The values a call sees, in row order. */
  function Inputs(call: AggregateCall, rows: seq<SlotRow>): seq<Value> {
    if rows == [] then []
    else
      var more := InputOf(call, rows[|rows| - 1]);
      Inputs(call, rows[..|rows| - 1]) + if more.Ok? && more.value.Some? then [more.value.value] else []
  }

  ghost predicate Readable(call: AggregateCall, rows: seq<SlotRow>) {
    forall i :: 0 <= i < |rows| ==> InputOf(call, rows[i]).Ok?
  }

  /** Over readable rows the fold is a fold over the values alone: NULLs and other columns do not matter. */
  function FoldValues(f: Floats, call: AggregateCall, values: seq<Value>): Result<AggregateState, AggregateError> {
    if values == [] then Ok(EMPTY_STATE)
    else
      match FoldValues(f, call, values[..|values| - 1])
      case Err(error) => Err(error)
      case Ok(state) => AddValue(f, call, state, values[|values| - 1])
  }

  lemma {:induction false} FoldIsFoldOfInputs(f: Floats, call: AggregateCall, rows: seq<SlotRow>)
    requires Readable(call, rows)
    ensures Fold(f, call, rows) == FoldValues(f, call, Inputs(call, rows))
  {
    if rows != [] {
      var init := rows[..|rows| - 1];
      FoldIsFoldOfInputs(f, call, init);
      var more := InputOf(call, rows[|rows| - 1]).value;
      if more.Some? {
        assert Inputs(call, rows)[..|Inputs(call, rows)| - 1] == Inputs(call, init);
      } else {
        assert Inputs(call, rows) == Inputs(call, init);
      }
    }
  }

  // ---------------------------------------------------------------- COUNT

  /** COUNT is the number of its inputs, or an overflow exactly when that number is not an int64. */
  lemma {:induction false} CountIsExact(f: Floats, call: AggregateCall, values: seq<Value>)
    requires call.kind.Count?
    ensures FoldValues(f, call, values) ==
            if |values| <= INT64_MAX then Ok(EMPTY_STATE.(count := |values|)) else Err(CountOverflow)
  {
    if values != [] {
      CountIsExact(f, call, values[..|values| - 1]);
    }
  }

  /** COUNT(*) sees every row. */
  lemma {:induction false} CountStarSeesRows(call: AggregateCall, rows: seq<SlotRow>)
    requires call.kind.Count? && call.input.None?
    ensures |Inputs(call, rows)| == |rows| && Readable(call, rows)
  {
    if rows != [] {
      CountStarSeesRows(call, rows[..|rows| - 1]);
    }
  }

  // ---------------------------------------------------------------- integer SUM

  ghost predicate Integers(values: seq<Value>) {
    forall i :: 0 <= i < |values| ==> IntegerOf(values[i]).Some? && InInt64(IntegerOf(values[i]).value)
  }

  function ExactSum(values: seq<Value>): int {
    if values == [] then 0
    else
      var n := IntegerOf(values[|values| - 1]);
      ExactSum(values[..|values| - 1]) + if n.Some? then n.value else 0
  }

  ghost predicate PrefixesFit(values: seq<Value>) {
    forall k :: 0 <= k <= |values| ==> InInt64(ExactSum(values[..k]))
  }

  lemma PrefixesFitInit(values: seq<Value>, init: seq<Value>)
    requires values != [] && init == values[..|values| - 1]
    ensures PrefixesFit(values) ==> PrefixesFit(init)
    ensures PrefixesFit(init) && InInt64(ExactSum(values)) ==> PrefixesFit(values)
  {
    forall k | 0 <= k <= |init| ensures values[..k] == init[..k] {}
    if PrefixesFit(init) && InInt64(ExactSum(values)) {
      forall k | 0 <= k <= |values| ensures InInt64(ExactSum(values[..k])) {
        if k == |values| {
          assert values[..k] == values;
        } else {
          assert values[..k] == init[..k];
        }
      }
    }
  }

  lemma PrefixesFitStep(values: seq<Value>)
    requires values != []
    ensures PrefixesFit(values) <==> PrefixesFit(values[..|values| - 1]) && InInt64(ExactSum(values))
  {
    PrefixesFitInit(values, values[..|values| - 1]);
    if PrefixesFit(values) {
      assert values[..|values|] == values;
    }
  }

  /** Integer SUM is the exact sum, or an overflow exactly when the sum of some prefix is not an int64. */
  lemma {:induction false} SumIsExact(f: Floats, call: AggregateCall, values: seq<Value>)
    requires call.kind.Sum? && !call.outputType.DoubleType? && Integers(values)
    ensures FoldValues(f, call, values) ==
            if !PrefixesFit(values) then Err(SumOverflow)
            else Ok(EMPTY_STATE.(value := if values == [] then None else Some(BigInt(ExactSum(values)))))
  {
    if values != [] {
      var init := values[..|values| - 1];
      assert Integers(init);
      SumIsExact(f, call, init);
      PrefixesFitStep(values);
      if PrefixesFit(init) {
        assert init[..|init|] == init;
      }
    } else {
      assert values[..0] == [];
    }
  }

  // ---------------------------------------------------------------- MIN and MAX

  predicate Orderable(v: Value, t: ExprType) {
    TypeOfValue(v) == t && (t.TInt? || t.TBigInt? || t.TVarchar? || t.TBool? || (v.Double? && !IsNaN(v.bits)))
  }

  lemma {:induction false} TextTotal(a: seq<byte>, b: seq<byte>)
    ensures !(TextLess(a, b) && TextLess(b, a)) && (TextLess(a, b) || TextLess(b, a) || a == b)
  {
    if a != [] && b != [] && a[0] == b[0] {
      TextTotal(a[1..], b[1..]);
      assert a == [a[0]] + a[1..] && b == [b[0]] + b[1..];
    }
  }

  lemma {:induction false} TextTransitive(a: seq<byte>, b: seq<byte>, c: seq<byte>)
    requires TextLess(a, b) && TextLess(b, c)
    ensures TextLess(a, c)
  {
    if a != [] && a[0] == b[0] == c[0] {
      TextTransitive(a[1..], b[1..], c[1..]);
    }
  }

  /** Values of one type are totally preordered by the sort comparison. */
  lemma CompareIsOrder(a: Value, b: Value, c: Value, t: ExprType)
    requires Orderable(a, t) && Orderable(b, t) && Orderable(c, t)
    ensures CompareSortValues(a, a) == 0
    ensures CompareSortValues(b, a) == -CompareSortValues(a, b)
    ensures CompareSortValues(a, b) <= 0 && CompareSortValues(b, c) <= 0 ==> CompareSortValues(a, c) <= 0
  {
    if a.Text? {
      TextTotal(a.s, a.s);
      TextTotal(a.s, b.s);
      TextTotal(b.s, c.s);
      TextTotal(a.s, c.s);
      if TextLess(a.s, b.s) && TextLess(b.s, c.s) {
        TextTransitive(a.s, b.s, c.s);
      }
    }
  }

  /** v is one of the values and none is beyond it. */
  ghost predicate IsExtreme(kind: AggregateKind, v: Value, values: seq<Value>) {
    && v in values
    && (forall i :: 0 <= i < |values| ==>
          if kind.Min? then CompareSortValues(v, values[i]) <= 0 else CompareSortValues(v, values[i]) >= 0)
  }

  lemma ExtremeStep(kind: AggregateKind, state: AggregateState, init: seq<Value>, v: Value, t: ExprType)
    requires (kind.Min? || kind.Max?) && Orderable(v, t) && forall i :: 0 <= i < |init| ==> Orderable(init[i], t)
    requires state.value.Some? && IsExtreme(kind, state.value.value, init)
    ensures KeepExtreme(kind, state, v).value.Some? &&
      IsExtreme(kind, KeepExtreme(kind, state, v).value.value, init + [v])
  {
    var best := state.value.value;
    forall i | 0 <= i < |init|
      ensures kind.Min? && CompareSortValues(v, best) < 0 ==> CompareSortValues(v, init[i]) <= 0
      ensures kind.Max? && CompareSortValues(v, best) > 0 ==> CompareSortValues(v, init[i]) >= 0
    {
      CompareIsOrder(v, best, init[i], t);
      CompareIsOrder(init[i], best, v, t);
      CompareIsOrder(init[i], v, v, t);
    }
    CompareIsOrder(v, best, best, t);
    CompareIsOrder(best, v, v, t);
  }

  ghost predicate ExtremeOrNone(kind: AggregateKind, v: Option<Value>, values: seq<Value>) {
    if values == [] then v.None? else v.Some? && IsExtreme(kind, v.value, values)
  }

  lemma ExtremeGrows(kind: AggregateKind, state: AggregateState, init: seq<Value>, v: Value, t: ExprType)
    requires (kind.Min? || kind.Max?) && Orderable(v, t) && forall i :: 0 <= i < |init| ==> Orderable(init[i], t)
    requires ExtremeOrNone(kind, state.value, init)
    ensures ExtremeOrNone(kind, KeepExtreme(kind, state, v).value, init + [v])
  {
    if init != [] {
      ExtremeStep(kind, state, init, v, t);
    } else {
      assert init + [v] == [v];
      CompareIsOrder(v, v, v, t);
    }
  }

  /** MIN and MAX return an input that no other input beats, and NULL when there is none. */
  lemma {:induction false} ExtremeIsExtreme(f: Floats, call: AggregateCall, values: seq<Value>, t: ExprType)
    requires (call.kind.Min? || call.kind.Max?) && forall i :: 0 <= i < |values| ==> Orderable(values[i], t)
    ensures FoldValues(f, call, values).Ok?
    ensures ExtremeOrNone(call.kind, FoldValues(f, call, values).value.value, values)
  {
    if values != [] {
      var init, v := values[..|values| - 1], values[|values| - 1];
      ExtremeIsExtreme(f, call, init, t);
      ExtremeGrows(call.kind, FoldValues(f, call, init).value, init, v, t);
      assert values == init + [v];
    }
  }
}
