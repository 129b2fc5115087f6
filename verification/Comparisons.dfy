/**
 What the comparisons, the logic and the sort order of SQL values mean: plain relations between integers, between the
 numbers that doubles stand for, between truth values and between texts (src/core/expression.cpp,
 compare_sort_values and sort_rows of src/core/executor.cpp).
 */
module Comparisons {
  import opened Common
  import opened Values
  import opened Expressions
  import opened Doubles
  import opened Aggregates
  import opened Plans
  import opened Sorting

  // ---------------------------------------------------------------- comparing values

  /** The value is the integer n, of either width. */
  predicate Whole(v: Value, n: int) {
    v == Int(n) || v == BigInt(n)
  }

  /** The double a numeric value becomes next to a DOUBLE. */
  predicate AsDouble(v: Value, bits: nat) {
    v == Double(bits) || ((v.Int? || v.BigInt?) && bits == DoubleOfInt(if v.Int? then v.i else v.n))
  }

  lemma WholesCompare(a: Value, b: Value, x: int, y: int)
    requires Whole(a, x) && Whole(b, y)
    ensures CompareValues(Eq, a, b) == Ok(Bool(x == y)) && CompareValues(Ne, a, b) == Ok(Bool(x != y))
    ensures CompareValues(Lt, a, b) == Ok(Bool(x < y)) && CompareValues(Le, a, b) == Ok(Bool(x <= y))
    ensures CompareValues(Gt, a, b) == Ok(Bool(x > y)) && CompareValues(Ge, a, b) == Ok(Bool(x >= y))
  {
  }

  lemma DoublesCompare(a: Value, b: Value, x: nat, y: nat)
    requires (a.Double? || b.Double?) && AsDouble(a, x) && AsDouble(b, y) && !IsNaN(x) && !IsNaN(y)
    ensures CompareValues(Eq, a, b) == Ok(Bool(Number(x) == Number(y)))
    ensures CompareValues(Ne, a, b) == Ok(Bool(Number(x) != Number(y)))
    ensures CompareValues(Lt, a, b) == Ok(Bool(Number(x) < Number(y)))
    ensures CompareValues(Le, a, b) == Ok(Bool(Number(x) <= Number(y)))
    ensures CompareValues(Gt, a, b) == Ok(Bool(Number(x) > Number(y)))
    ensures CompareValues(Ge, a, b) == Ok(Bool(Number(x) >= Number(y)))
  {
    OrderIsOfNumbers(x, y);
    OrderIsOfNumbers(y, x);
  }

  /** Next to a NaN only <> holds. */
  lemma NaNsCompare(op: CmpOp, a: Value, b: Value, x: nat, y: nat)
    requires (a.Double? || b.Double?) && AsDouble(a, x) && AsDouble(b, y) && (IsNaN(x) || IsNaN(y))
    ensures CompareValues(op, a, b) == Ok(Bool(op.Ne?))
  {
  }

  /** The operands of a comparison have these values. */
  ghost predicate Operands(l: Expr<nat>, r: Expr<nat>, row: SlotRow, depth: nat, a: Value, b: Value) {
    depth < MAX_EXPRESSION_DEPTH && Evaluate(l, row, depth + 1) == Ok(a) && Evaluate(r, row, depth + 1) == Ok(b)
  }

  /** INT and BIGINT compare as integers, whatever their widths. */
  lemma IntegerComparisons(l: Expr<nat>, r: Expr<nat>, row: SlotRow, depth: nat, a: Value, b: Value, x: int, y: int)
    requires Operands(l, r, row, depth, a, b) && Whole(a, x) && Whole(b, y)
    ensures Evaluate(Compare(Eq, l, r), row, depth) == Ok(Bool(x == y))
    ensures Evaluate(Compare(Ne, l, r), row, depth) == Ok(Bool(x != y))
    ensures Evaluate(Compare(Lt, l, r), row, depth) == Ok(Bool(x < y))
    ensures Evaluate(Compare(Le, l, r), row, depth) == Ok(Bool(x <= y))
    ensures Evaluate(Compare(Gt, l, r), row, depth) == Ok(Bool(x > y))
    ensures Evaluate(Compare(Ge, l, r), row, depth) == Ok(Bool(x >= y))
  {
    WholesCompare(a, b, x, y);
  }

  /** A DOUBLE and a number compare as the numbers they stand for, an integer as its nearest double. */
  lemma DoubleComparisons(l: Expr<nat>, r: Expr<nat>, row: SlotRow, depth: nat, a: Value, b: Value, x: nat, y: nat)
    requires Operands(l, r, row, depth, a, b)
    requires (a.Double? || b.Double?) && AsDouble(a, x) && AsDouble(b, y) && !IsNaN(x) && !IsNaN(y)
    ensures Evaluate(Compare(Eq, l, r), row, depth) == Ok(Bool(Number(x) == Number(y)))
    ensures Evaluate(Compare(Ne, l, r), row, depth) == Ok(Bool(Number(x) != Number(y)))
    ensures Evaluate(Compare(Lt, l, r), row, depth) == Ok(Bool(Number(x) < Number(y)))
    ensures Evaluate(Compare(Le, l, r), row, depth) == Ok(Bool(Number(x) <= Number(y)))
    ensures Evaluate(Compare(Gt, l, r), row, depth) == Ok(Bool(Number(x) > Number(y)))
    ensures Evaluate(Compare(Ge, l, r), row, depth) == Ok(Bool(Number(x) >= Number(y)))
  {
    DoublesCompare(a, b, x, y);
  }

  predicate Orders(op: CmpOp) {
    op != Eq && op != Ne
  }

  /** BOOLEAN and VARCHAR compare for equality only. */
  lemma EqualityComparisons(op: CmpOp, l: Expr<nat>, r: Expr<nat>, row: SlotRow, depth: nat, a: Value, b: Value)
    requires Operands(l, r, row, depth, a, b) && ((a.Bool? && b.Bool?) || (a.Text? && b.Text?))
    ensures Evaluate(Compare(Eq, l, r), row, depth) == Ok(Bool(a == b))
    ensures Evaluate(Compare(Ne, l, r), row, depth) == Ok(Bool(a != b))
    ensures a.Bool? && Orders(op) ==> Evaluate(Compare(op, l, r), row, depth) == Err(BadType)
  {
  }

  /** A comparison with NULL is unknown; an order is refused when the other side has none. */
  lemma NullComparisons(op: CmpOp, l: Expr<nat>, r: Expr<nat>, row: SlotRow, depth: nat, a: Value, b: Value)
    requires Operands(l, r, row, depth, a, b) && (a.Null? || b.Null?)
    ensures Evaluate(Compare(op, l, r), row, depth) ==
            if Orders(op) && (a.Bool? || a.Text? || b.Bool? || b.Text?) then Err(BadType) else Ok(Null)
  {
  }

  /** Values of unlike kinds do not compare. */
  lemma UnlikeComparisons(op: CmpOp, l: Expr<nat>, r: Expr<nat>, row: SlotRow, depth: nat, a: Value, b: Value)
    requires Operands(l, r, row, depth, a, b) && !a.Null? && !b.Null? && (a.Bool? != b.Bool? || a.Text? != b.Text?)
    ensures Evaluate(Compare(op, l, r), row, depth) == Err(BadType)
  {
  }

  ghost predicate Holds(op: CmpOp, a: Value, b: Value) {
    CompareValues(op, a, b) == Ok(Bool(true))
  }

  ghost predicate AllWhole(a: Value, b: Value, c: Value) {
    (a.Int? || a.BigInt?) && (b.Int? || b.BigInt?) && (c.Int? || c.BigInt?)
  }

  ghost predicate AllDoubles(a: Value, b: Value, c: Value) {
    a.Double? && b.Double? && c.Double? && !IsNaN(a.bits) && !IsNaN(b.bits) && !IsNaN(c.bits)
  }

  /** Among integers, and among doubles other than NaN, < is a strict total order and the others follow from it. */
  lemma LessIsStrictTotal(a: Value, b: Value, c: Value)
    requires AllWhole(a, b, c) || AllDoubles(a, b, c)
    ensures !Holds(Lt, a, a)
    ensures Holds(Lt, a, b) && Holds(Lt, b, c) ==> Holds(Lt, a, c)
    ensures Holds(Lt, a, b) || Holds(Eq, a, b) || Holds(Lt, b, a)
    ensures !(Holds(Lt, a, b) && Holds(Eq, a, b)) && !(Holds(Lt, a, b) && Holds(Lt, b, a))
    ensures Holds(Gt, a, b) <==> Holds(Lt, b, a)
    ensures Holds(Le, a, b) <==> Holds(Lt, a, b) || Holds(Eq, a, b)
    ensures Holds(Ge, a, b) <==> Holds(Gt, a, b) || Holds(Eq, a, b)
    ensures Holds(Ne, a, b) <==> !Holds(Eq, a, b)
  {
  }

  const TWO_53: nat := 0x20_0000_0000_0000

  /** Across types equality is not transitive: an integer of 54 bits equals the double its neighbour equals. */
  lemma MixedEqualityIsNotTransitive()
    ensures var a, b, c := BigInt(TWO_53 + 1), Double(DoubleOfInt(TWO_53)), BigInt(TWO_53);
            Holds(Eq, a, b) && Holds(Eq, b, c) && !Holds(Eq, a, c)
  {
    var m, k: nat := TWO_53 + 1, TWO_53;
    Pow2Of52();
    assert Pow2(53) == TWO_53 && Pow2(54) == 2 * TWO_53;
    BitLengthBounds(m);
    BitLengthBounds(k);
    LengthIs(m, 54);
    LengthIs(k, 54);
    assert Pow2(1) == 2;
    assert Significand(m, 53) == Significand(k, 53);
  }

  lemma LengthIs(m: nat, n: nat)
    requires m > 0 && n > 0 && Pow2(n - 1) <= m < Pow2(n)
    ensures BitLength(m) == n
  {
    BitLengthBounds(m);
    if BitLength(m) < n {
      Pow2Grows(BitLength(m), n - 1);
    } else if BitLength(m) > n {
      Pow2Grows(n, BitLength(m) - 1);
    }
  }

  // ---------------------------------------------------------------- three-valued logic

  predicate IsTruth(v: Value) {
    v.Bool? || v.Null?
  }

  /** AND, OR and NOT over true, false and NULL; an operand of another type is refused. */
  lemma ThreeValuedLogic(l: Expr<nat>, r: Expr<nat>, row: SlotRow, depth: nat, a: Value, b: Value)
    requires Operands(l, r, row, depth, a, b)
    ensures IsTruth(a) && IsTruth(b) ==>
              Evaluate(Logic(And, l, r), row, depth) ==
              Ok(if a == Bool(false) || b == Bool(false) then Bool(false)
                 else if a == Bool(true) && b == Bool(true) then Bool(true) else Null)
    ensures IsTruth(a) && IsTruth(b) ==>
              Evaluate(Logic(Or, l, r), row, depth) ==
              Ok(if a == Bool(true) || b == Bool(true) then Bool(true)
                 else if a == Bool(false) && b == Bool(false) then Bool(false) else Null)
    ensures IsTruth(a) ==>
              Evaluate(Expr.Not(l), row, depth) ==
              Ok(if a == Bool(true) then Bool(false) else if a == Bool(false) then Bool(true) else Null)
    ensures !IsTruth(a) || !IsTruth(b) ==> forall op :: Evaluate(Logic(op, l, r), row, depth) == Err(BadType)
    ensures !IsTruth(a) ==> Evaluate(Expr.Not(l), row, depth) == Err(BadType)
    ensures Evaluate(NullTest(IsNull, l), row, depth) == Ok(Bool(a == Null))
    ensures Evaluate(NullTest(IsNotNull, l), row, depth) == Ok(Bool(a != Null))
  {
  }

  /** A row is kept exactly when its predicate is true: false and NULL both drop it. */
  lemma KeptIffTrue(e: Expr<nat>, row: SlotRow)
    ensures EvaluatePredicate(e, row) == Ok(true) <==> Evaluate(e, row, 0) == Ok(Bool(true))
    ensures EvaluatePredicate(e, row) == Ok(false) <==>
            Evaluate(e, row, 0) == Ok(Bool(false)) || Evaluate(e, row, 0) == Ok(Null)
  {
  }

  // ---------------------------------------------------------------- the order of ORDER BY, MIN and MAX

  /** s comes before t in the dictionary: at the first byte that differs it has the smaller one, or it ends there. */
  ghost predicate TextBefore(s: seq<byte>, t: seq<byte>) {
    exists k: nat :: k <= |s| && k < |t| && s[..k] == t[..k] && (k == |s| || s[k] < t[k])
  }

  /** The plain order of two values of one type. A NaN neither precedes nor follows anything. */
  ghost predicate Precedes(a: Value, b: Value) {
    match a
    case Null => false
    case Int(x) => b.Int? && x < b.i
    case BigInt(x) => b.BigInt? && x < b.n
    case Double(x) => b.Double? && !IsNaN(x) && !IsNaN(b.bits) && Number(x) < Number(b.bits)
    case Bool(x) => b.Bool? && !x && b.b
    case Text(s) => b.Text? && TextBefore(s, b.s)
  }

  lemma {:induction false} TextLessIsBefore(s: seq<byte>, t: seq<byte>)
    ensures TextLess(s, t) <==> TextBefore(s, t)
  {
    if s != [] && t != [] && s[0] == t[0] {
      TextLessIsBefore(s[1..], t[1..]);
      if TextBefore(s[1..], t[1..]) {
        var k: nat :| k <= |s[1..]| && k < |t[1..]| && s[1..][..k] == t[1..][..k] &&
                      (k == |s[1..]| || s[1..][k] < t[1..][k]);
        assert s[..k + 1] == [s[0]] + s[1..][..k] && t[..k + 1] == [t[0]] + t[1..][..k];
      }
      if TextBefore(s, t) {
        var k: nat :| k <= |s| && k < |t| && s[..k] == t[..k] && (k == |s| || s[k] < t[k]);
        assert k > 0;
        assert s[1..][..k - 1] == s[..k][1..] && t[1..][..k - 1] == t[..k][1..];
      }
    } else {
      FirstByteDecides(s, t);
    }
  }

  lemma FirstByteDecides(s: seq<byte>, t: seq<byte>)
    requires s == [] || t == [] || s[0] != t[0]
    ensures TextBefore(s, t) <==> t != [] && (s == [] || s[0] < t[0])
  {
    if t != [] && (s == [] || s[0] < t[0]) {
      assert s[..0] == t[..0];
    }
    if TextBefore(s, t) {
      var k: nat :| k <= |s| && k < |t| && s[..k] == t[..k] && (k == |s| || s[k] < t[k]);
    }
  }

  /** The sort comparison is the plain order: smaller integers, numbers, texts and false come first. */
  lemma SortComparisonIsPlain(a: Value, b: Value, t: ExprType)
    requires TypeOfValue(a) == t && TypeOfValue(b) == t && !a.Null?
    ensures CompareSortValues(a, b) < 0 <==> Precedes(a, b)
    ensures CompareSortValues(a, b) > 0 <==> Precedes(b, a)
  {
    match a
    case Double(x) =>
      if !IsNaN(x) && !IsNaN(b.bits) {
        OrderIsOfNumbers(x, b.bits);
        OrderIsOfNumbers(b.bits, x);
      }
    case Text(s) =>
      TextLessIsBefore(s, b.s);
      TextLessIsBefore(b.s, s);
      TextTotal(s, b.s);
    case _ =>
  }

  /** WHERE and ORDER BY agree: < holds exactly between a number and those sorted after it, across numeric types. */
  lemma LessIsSortedBefore(a: Value, b: Value, x: nat, y: nat)
    requires AsDouble(a, x) && AsDouble(b, y) && !IsNaN(x) && !IsNaN(y)
    ensures CompareValues(Lt, a, b) == Ok(Bool(CompareSortValues(a, b) < 0))
    ensures CompareValues(Eq, a, b) == Ok(Bool(CompareSortValues(a, b) == 0))
    ensures CompareValues(Gt, a, b) == Ok(Bool(CompareSortValues(a, b) > 0))
  {
  }

  /** MIN returns an input that no other precedes, MAX one that precedes no other, and both NULL without an input. */
  lemma ExtremeIsPlain(f: Floats, call: AggregateCall, values: seq<Value>, t: ExprType)
    requires (call.kind.Min? || call.kind.Max?) && forall i :: 0 <= i < |values| ==> Orderable(values[i], t)
    ensures FoldValues(f, call, values).Ok?
    ensures var r := FoldValues(f, call, values).value.value;
            && (r.None? <==> values == [])
            && (r.Some? ==> r.value in values)
            && (r.Some? && call.kind.Min? ==> forall i :: 0 <= i < |values| ==> !Precedes(values[i], r.value))
            && (r.Some? && call.kind.Max? ==> forall i :: 0 <= i < |values| ==> !Precedes(r.value, values[i]))
  {
    ExtremeIsExtreme(f, call, values, t);
    var r := FoldValues(f, call, values).value.value;
    if r.Some? {
      forall i | 0 <= i < |values|
        ensures call.kind.Min? ==> !Precedes(values[i], r.value)
        ensures call.kind.Max? ==> !Precedes(r.value, values[i])
      {
        SortComparisonIsPlain(r.value, values[i], t);
      }
    }
  }

  /** Neither value comes before the other; NULLs tie with each other only. */
  ghost predicate Tied(a: Value, b: Value) {
    a.Null? == b.Null? && !Precedes(a, b) && !Precedes(b, a)
  }

  /** One key in order: NULL only before NULL, and otherwise ascending or descending values. */
  ghost predicate KeyInOrder(a: Value, b: Value, ascending: bool) {
    && (a.Null? ==> b.Null?)
    && (!a.Null? && !b.Null? ==> if ascending then !Precedes(b, a) else !Precedes(a, b))
  }

  /** At the first key where two rows differ, the keys are in order. */
  ghost predicate InOrder(a: seq<Value>, b: seq<Value>, ascending: seq<bool>)
    requires |a| == |ascending| == |b|
  {
    forall k :: 0 <= k < |ascending| && TiedUpTo(a, b, k) ==> KeyInOrder(a[k], b[k], ascending[k])
  }

  function Directions(keys: seq<SortKey>): (r: seq<bool>)
    ensures |r| == |keys| && forall k :: 0 <= k < |r| ==> r[k] == keys[k].ascending
  {
    seq(|keys|, k requires 0 <= k < |keys| => keys[k].ascending)
  }

  ghost predicate TiedUpTo(a: seq<Value>, b: seq<Value>, k: nat)
    requires k <= |a| && k <= |b|
  {
    forall j :: 0 <= j < k ==> Tied(a[j], b[j])
  }

  lemma KeyComparisonIsPlain(a: Value, b: Value, t: ExprType, ascending: bool)
    requires (a.Null? || Orderable(a, t)) && (b.Null? || Orderable(b, t))
    ensures CompareKey(a, b, ascending) <= 0 <==> KeyInOrder(a, b, ascending)
    ensures CompareKey(a, b, ascending) == 0 <==> Tied(a, b)
  {
    if !a.Null? && !b.Null? {
      SortComparisonIsPlain(a, b, t);
      SortComparisonIsPlain(b, a, t);
    }
  }

  lemma TiedTail(a: seq<Value>, b: seq<Value>, k: nat)
    requires 0 < k <= |a| && k <= |b|
    ensures TiedUpTo(a, b, k) <==> Tied(a[0], b[0]) && TiedUpTo(a[1..], b[1..], k - 1)
  {
    if Tied(a[0], b[0]) && TiedUpTo(a[1..], b[1..], k - 1) {
      forall j | 0 <= j < k ensures Tied(a[j], b[j]) {
        if j > 0 {
          assert a[1..][j - 1] == a[j] && b[1..][j - 1] == b[j];
        }
      }
    }
  }

  lemma InOrderTail(a: seq<Value>, b: seq<Value>, ascending: seq<bool>)
    requires |a| == |ascending| == |b| && ascending != []
    ensures InOrder(a, b, ascending) <==>
            KeyInOrder(a[0], b[0], ascending[0]) && (Tied(a[0], b[0]) ==> InOrder(a[1..], b[1..], ascending[1..]))
  {
    assert TiedUpTo(a, b, 0);
    if InOrder(a, b, ascending) && Tied(a[0], b[0]) {
      forall k | 0 <= k < |ascending| - 1 && TiedUpTo(a[1..], b[1..], k)
        ensures KeyInOrder(a[1..][k], b[1..][k], ascending[1..][k])
      {
        TiedTail(a, b, k + 1);
      }
    }
    if KeyInOrder(a[0], b[0], ascending[0]) && (Tied(a[0], b[0]) ==> InOrder(a[1..], b[1..], ascending[1..])) {
      forall k | 0 <= k < |ascending| && TiedUpTo(a, b, k) ensures KeyInOrder(a[k], b[k], ascending[k]) {
        if k > 0 {
          TiedTail(a, b, k);
          assert KeyInOrder(a[1..][k - 1], b[1..][k - 1], ascending[1..][k - 1]);
        }
      }
    }
  }

  /** The row comparator of the sort is the order at the first differing key, NULLs last in either direction. */
  lemma {:induction false} RowComparisonIsPlain(a: seq<Value>, b: seq<Value>, keys: seq<SortKey>, types: seq<ExprType>)
    requires |keys| == |types| && KeysTyped(a, types) && KeysTyped(b, types)
    ensures CompareRows(a, b, keys) <= 0 <==> InOrder(a, b, Directions(keys))
    ensures CompareRows(a, b, keys) == 0 <==> TiedUpTo(a, b, |keys|)
    decreases |keys|
  {
    if keys != [] {
      KeyComparisonIsPlain(a[0], b[0], types[0], keys[0].ascending);
      KeysTypedTail(a, types);
      KeysTypedTail(b, types);
      RowComparisonIsPlain(a[1..], b[1..], keys[1..], types[1..]);
      InOrderTail(a, b, Directions(keys));
      assert Directions(keys)[1..] == Directions(keys[1..]);
      TiedTail(a, b, |keys|);
    }
  }

  /** The sort puts no row before one that comes first at the first key where they differ. */
  lemma SortIsPlain(rows: seq<Sortable>, keys: seq<SortKey>, types: seq<ExprType>, i: nat, j: nat)
    requires SizesOk(rows, keys) && |keys| == |types| && AllTyped(rows, types) && i < j < |rows|
    ensures InOrder(StableSort(rows, keys)[i].keys, StableSort(rows, keys)[j].keys, Directions(keys))
  {
    SortOrders(rows, keys, types, i, j);
    SortSorts(rows, keys, types);
    RowComparisonIsPlain(StableSort(rows, keys)[i].keys, StableSort(rows, keys)[j].keys, keys, types);
  }
}
