/** Plan expressions, their validation and their three-valued evaluation (src/core/expression.cpp). */
module Expressions {
  import opened Common
  import opened Values

  datatype CmpOp = Eq | Ne | Lt | Le | Gt | Ge
  datatype LogicOp = And | Or
  datatype NullOp = IsNull | IsNotNull

  /** One tree shape for the parser's, the binder's and the planner's expressions; R names a column. */
  datatype Expr<+R> =
    | Column(ref: R)
    | Literal(value: Value)
    | Compare(cmp: CmpOp, lhs: Expr<R>, rhs: Expr<R>)
    | Logic(logic: LogicOp, lhs: Expr<R>, rhs: Expr<R>)
    | NullTest(test: NullOp, operand: Expr<R>)
    | Not(operand: Expr<R>)

  function Max(a: nat, b: nat): nat {
    if a < b then b else a
  }

  function Height<R>(e: Expr<R>): (h: nat)
    ensures h > 0
  {
    match e
    case Column(_) => 1
    case Literal(_) => 1
    case Compare(_, l, r) => 1 + Max(Height(l), Height(r))
    case Logic(_, l, r) => 1 + Max(Height(l), Height(r))
    case NullTest(_, x) => 1 + Height(x)
    case Not(x) => 1 + Height(x)
  }

  function Nodes<R>(e: Expr<R>): (n: nat)
    ensures n > 0
  {
    match e
    case Column(_) => 1
    case Literal(_) => 1
    case Compare(_, l, r) => 1 + Nodes(l) + Nodes(r)
    case Logic(_, l, r) => 1 + Nodes(l) + Nodes(r)
    case NullTest(_, x) => 1 + Nodes(x)
    case Not(x) => 1 + Nodes(x)
  }

  /** A chain cannot be longer than the tree is large: a node budget bounds the depth. */
  lemma {:induction false} HeightWithinNodes<R>(e: Expr<R>)
    ensures Height(e) <= Nodes(e)
  {
    match e
    case Column(_) =>
    case Literal(_) =>
    case Compare(_, l, r) => HeightWithinNodes(l); HeightWithinNodes(r);
    case Logic(_, l, r) => HeightWithinNodes(l); HeightWithinNodes(r);
    case NullTest(_, x) => HeightWithinNodes(x);
    case Not(x) => HeightWithinNodes(x);
  }

  datatype ExprType = TInt | TBigInt | TDouble | TVarchar | TBool | TNull

  datatype Error = TooDeep | BadSlot | BadType

  datatype SlotValue = SlotValue(slot: nat, value: Value)

  type SlotRow = seq<SlotValue>

  const MAX_EXPRESSION_DEPTH: nat := 256

  function TypeOfValue(v: Value): ExprType {
    match v
    case Null => TNull
    case Int(_) => TInt
    case BigInt(_) => TBigInt
    case Double(_) => TDouble
    case Bool(_) => TBool
    case Text(_) => TVarchar
  }

  // ---------------------------------------------------------------- slot lookup

  /** The number of entries of the row for a slot. */
  function Bindings(row: SlotRow, slot: nat): nat {
    if row == [] then 0 else (if row[0].slot == slot then 1 else 0) + Bindings(row[1..], slot)
  }

  function FirstBinding(row: SlotRow, slot: nat): (v: Option<Value>)
    ensures v.None? <==> Bindings(row, slot) == 0
  {
    if row == [] then None
    else if row[0].slot == slot then Some(row[0].value)
    else FirstBinding(row[1..], slot)
  }

  /** A slot resolves exactly when the row binds it once. */
  function Lookup(row: SlotRow, slot: nat): Result<Value, Error> {
    if Bindings(row, slot) == 1 then Ok(FirstBinding(row, slot).value) else Err(BadSlot)
  }

  lemma {:induction false} BindingsConcat(a: SlotRow, b: SlotRow, slot: nat)
    ensures Bindings(a + b, slot) == Bindings(a, slot) + Bindings(b, slot)
    ensures FirstBinding(a + b, slot) == if Bindings(a, slot) > 0 then FirstBinding(a, slot) else FirstBinding(b, slot)
  {
    if a == [] {
      assert a + b == b;
    } else {
      assert (a + b)[1..] == a[1..] + b;
      BindingsConcat(a[1..], b, slot);
    }
  }

  /** lookup_slot: one pass that remembers the match and rejects a second one. */
  method LookupSlot(row: SlotRow, slot: nat) returns (r: Result<Value, Error>)
    ensures r == Lookup(row, slot)
  {
    var found: Option<Value> := None;
    var i := 0;
    while i < |row|
      invariant 0 <= i <= |row|
      invariant Bindings(row[..i], slot) == if found.Some? then 1 else 0
      invariant FirstBinding(row[..i], slot) == found
    {
      BindingsConcat(row[..i], [row[i]], slot);
      assert row[..i + 1] == row[..i] + [row[i]];
      if row[i].slot == slot {
        if found.Some? {
          BindingsConcat(row[..i + 1], row[i + 1..], slot);
          assert row == row[..i + 1] + row[i + 1..];
          return Err(BadSlot);
        }
        found := Some(row[i].value);
      }
      i := i + 1;
    }
    assert row[..i] == row;
    r := if found.Some? then Ok(found.value) else Err(BadSlot);
  }

  // ---------------------------------------------------------------- three-valued logic

  datatype Truth = False | True | Unknown

  function ToTruth(v: Value): Result<Truth, Error> {
    match v
    case Bool(b) => Ok(if b then True else False)
    case Null => Ok(Unknown)
    case _ => Err(BadType)
  }

  function OfTruth(t: Truth): Value {
    match t
    case False => Bool(false)
    case True => Bool(true)
    case Unknown => Null
  }

  function TruthNot(t: Truth): Truth {
    match t
    case False => True
    case True => False
    case Unknown => Unknown
  }

  function TruthAnd(a: Truth, b: Truth): Truth {
    if a.False? || b.False? then False else if a.Unknown? || b.Unknown? then Unknown else True
  }

  function TruthOr(a: Truth, b: Truth): Truth {
    if a.True? || b.True? then True else if a.Unknown? || b.Unknown? then Unknown else False
  }

  function TruthOp(op: LogicOp, a: Truth, b: Truth): Truth {
    if op.And? then TruthAnd(a, b) else TruthOr(a, b)
  }

  // ---------------------------------------------------------------- comparison

  predicate Ordered(op: CmpOp) {
    op.Lt? || op.Le? || op.Gt? || op.Ge?
  }

  predicate Numeric(t: ExprType) {
    t.TInt? || t.TBigInt? || t.TDouble?
  }

  function CompareInts(op: CmpOp, a: int, b: int): bool {
    match op
    case Eq => a == b
    case Ne => a != b
    case Lt => a < b
    case Le => a <= b
    case Gt => a > b
    case Ge => a >= b
  }

  function CompareDoubles(op: CmpOp, a: nat, b: nat): bool {
    match op
    case Eq => DoubleEq(a, b)
    case Ne => !DoubleEq(a, b)
    case Lt => DoubleLt(a, b)
    case Le => DoubleLt(a, b) || DoubleEq(a, b)
    case Gt => DoubleLt(b, a)
    case Ge => DoubleLt(b, a) || DoubleEq(a, b)
  }

  function NumericDouble(v: Value): Option<nat> {
    match v
    case Double(bits) => Some(bits)
    case Int(i) => Some(DoubleOfInt(i))
    case BigInt(n) => Some(DoubleOfInt(n))
    case _ => None
  }

  function IntegerOf(v: Value): Option<int> {
    match v
    case Int(i) => Some(i)
    case BigInt(n) => Some(n)
    case _ => None
  }

  /** The comparison branch of evaluate_impl. */
  function CompareValues(op: CmpOp, a: Value, b: Value): Result<Value, Error> {
    if a.Null? || b.Null? then
      var concrete := if a.Null? then b else a;
      if Ordered(op) && (concrete.Text? || concrete.Bool?) then Err(BadType) else Ok(Null)
    else if a.Bool? then
      if !b.Bool? || Ordered(op) then Err(BadType)
      else Ok(Bool(if op.Eq? then a.b == b.b else a.b != b.b))
    else if b.Bool? then Err(BadType)
    else if a.Double? || b.Double? then
      var x, y := NumericDouble(a), NumericDouble(b);
      if x.Some? && y.Some? then Ok(Bool(CompareDoubles(op, x.value, y.value))) else Err(BadType)
    else
      var x, y := IntegerOf(a), IntegerOf(b);
      if x.Some? && y.Some? then Ok(Bool(CompareInts(op, x.value, y.value)))
      else if x.Some? != y.Some? then Err(BadType)
      else if a.Text? && b.Text? then Ok(Bool((op.Eq? && a.s == b.s) || (op.Ne? && a.s != b.s)))
      else Err(BadType)
  }

  // ---------------------------------------------------------------- validation and evaluation

  /** The comparison branch of validate_impl. */
  function ValidateCompare(op: CmpOp, l: ExprType, r: ExprType): Result<ExprType, Error> {
    if l.TNull? || r.TNull? then
      var concrete := if l.TNull? then r else l;
      if Ordered(op) && (concrete.TVarchar? || concrete.TBool?) then Err(BadType) else Ok(TBool)
    else if !(Numeric(l) && Numeric(r)) && !(l == r && (l.TVarchar? || l.TBool?)) then Err(BadType)
    else if (l.TVarchar? || l.TBool?) && Ordered(op) then Err(BadType)
    else Ok(TBool)
  }

  predicate Truthy(t: ExprType) {
    t.TBool? || t.TNull?
  }

  function Validate(e: Expr<nat>, row: SlotRow, depth: nat): Result<ExprType, Error> {
    if depth >= MAX_EXPRESSION_DEPTH then Err(TooDeep)
    else
      match e
      case Column(slot) =>
        (match Lookup(row, slot)
         case Ok(v) => Ok(TypeOfValue(v))
         case Err(error) => Err(error))
      case Literal(v) => Ok(TypeOfValue(v))
      case Compare(op, l, r) =>
        var a := Validate(l, row, depth + 1);
        if a.Err? then a
        else
          var b := Validate(r, row, depth + 1);
          if b.Err? then b else ValidateCompare(op, a.value, b.value)
      case Logic(_, l, r) =>
        var a := Validate(l, row, depth + 1);
        if a.Err? then a
        else
          var b := Validate(r, row, depth + 1);
          if b.Err? then b
          else if Truthy(a.value) && Truthy(b.value) then Ok(TBool) else Err(BadType)
      case NullTest(_, x) =>
        var a := Validate(x, row, depth + 1);
        if a.Err? then a else Ok(TBool)
      case Not(x) =>
        var a := Validate(x, row, depth + 1);
        if a.Err? then a else if Truthy(a.value) then Ok(TBool) else Err(BadType)
  }

  predicate ValidPredicate(e: Expr<nat>, row: SlotRow) {
    var t := Validate(e, row, 0);
    t.Ok? && Truthy(t.value)
  }

  function LogicValues(op: LogicOp, a: Value, b: Value): Result<Value, Error> {
    var x, y := ToTruth(a), ToTruth(b);
    if x.Err? then Err(x.error) else if y.Err? then Err(y.error) else Ok(OfTruth(TruthOp(op, x.value, y.value)))
  }

  function NotValue(a: Value): Result<Value, Error> {
    var x := ToTruth(a);
    if x.Err? then Err(x.error) else Ok(OfTruth(TruthNot(x.value)))
  }

  function TestValue(op: NullOp, a: Value): Value {
    Bool(if op.IsNull? then a.Null? else !a.Null?)
  }

  /** evaluate_impl. Both operands are always evaluated. */
  function Evaluate(e: Expr<nat>, row: SlotRow, depth: nat): Result<Value, Error> {
    if depth >= MAX_EXPRESSION_DEPTH then Err(TooDeep)
    else
      match e
      case Column(slot) => Lookup(row, slot)
      case Literal(v) => Ok(v)
      case Compare(op, l, r) =>
        var a := Evaluate(l, row, depth + 1);
        if a.Err? then a
        else
          var b := Evaluate(r, row, depth + 1);
          if b.Err? then b else CompareValues(op, a.value, b.value)
      case Logic(op, l, r) =>
        var a := Evaluate(l, row, depth + 1);
        if a.Err? then a
        else
          var b := Evaluate(r, row, depth + 1);
          if b.Err? then b else LogicValues(op, a.value, b.value)
      case NullTest(op, x) =>
        var a := Evaluate(x, row, depth + 1);
        if a.Err? then a else Ok(TestValue(op, a.value))
      case Not(x) =>
        var a := Evaluate(x, row, depth + 1);
        if a.Err? then a else NotValue(a.value)
  }

  /** evaluate_predicate: a row is kept only when the predicate is true, not when it is unknown. */
  function EvaluatePredicate(e: Expr<nat>, row: SlotRow): Result<bool, Error> {
    var v := Evaluate(e, row, 0);
    if v.Err? then Err(v.error)
    else
      var t := ToTruth(v.value);
      if t.Err? then Err(t.error) else Ok(t.value.True?)
  }

  // ---------------------------------------------------------------- soundness

  /** The row binds the same slots, and each value is NULL or of the declared type. */
  ghost predicate Conforms(row: SlotRow, declared: SlotRow) {
    && |row| == |declared|
    && (forall i :: 0 <= i < |row| ==>
          && row[i].slot == declared[i].slot
          && (row[i].value.Null? || TypeOfValue(row[i].value) == TypeOfValue(declared[i].value)))
  }

  ghost predicate HasType(v: Value, t: ExprType) {
    v.Null? || TypeOfValue(v) == t
  }

  lemma {:induction false} LookupConforms(row: SlotRow, declared: SlotRow, slot: nat)
    requires Conforms(row, declared)
    ensures Bindings(row, slot) == Bindings(declared, slot)
    ensures Bindings(row, slot) > 0 ==>
      HasType(FirstBinding(row, slot).value, TypeOfValue(FirstBinding(declared, slot).value))
  {
    if row != [] {
      LookupConforms(row[1..], declared[1..], slot);
    }
  }

  lemma CompareSound(op: CmpOp, a: Value, b: Value, l: ExprType, r: ExprType)
    requires ValidateCompare(op, l, r).Ok? && HasType(a, l) && HasType(b, r)
    ensures CompareValues(op, a, b).Ok? && HasType(CompareValues(op, a, b).value, TBool)
  {
  }

  /** A validated expression evaluates without error on every conforming row, to its type or NULL. */
  lemma {:induction false} EvaluateSound(e: Expr<nat>, row: SlotRow, declared: SlotRow, depth: nat)
    requires Conforms(row, declared) && Validate(e, declared, depth).Ok?
    ensures Evaluate(e, row, depth).Ok? && HasType(Evaluate(e, row, depth).value, Validate(e, declared, depth).value)
  {
    match e
    case Column(slot) => LookupConforms(row, declared, slot);
    case Literal(_) =>
    case Compare(op, l, r) =>
      EvaluateSound(l, row, declared, depth + 1);
      EvaluateSound(r, row, declared, depth + 1);
      CompareSound(op, Evaluate(l, row, depth + 1).value, Evaluate(r, row, depth + 1).value,
                   Validate(l, declared, depth + 1).value, Validate(r, declared, depth + 1).value);
    case Logic(op, l, r) =>
      EvaluateSound(l, row, declared, depth + 1);
      EvaluateSound(r, row, declared, depth + 1);
    case NullTest(_, x) => EvaluateSound(x, row, declared, depth + 1);
    case Not(x) => EvaluateSound(x, row, declared, depth + 1);
  }

  /** A predicate the validator accepts never fails on a conforming row. */
  lemma PredicateSound(e: Expr<nat>, row: SlotRow, declared: SlotRow)
    requires Conforms(row, declared) && ValidPredicate(e, declared)
    ensures EvaluatePredicate(e, row).Ok?
  {
    EvaluateSound(e, row, declared, 0);
  }

  /** Within the depth limit, the depth at which a tree stands does not matter. */
  lemma {:induction false} ValidateAtDepth(e: Expr<nat>, row: SlotRow, d: nat, d': nat)
    requires d + Height(e) <= MAX_EXPRESSION_DEPTH && d' + Height(e) <= MAX_EXPRESSION_DEPTH
    ensures Validate(e, row, d) == Validate(e, row, d') && Validate(e, row, d) != Err(TooDeep)
    decreases e
  {
    match e
    case Column(_) =>
    case Literal(_) =>
    case Compare(_, l, r) =>
      ValidateAtDepth(l, row, d + 1, d' + 1);
      ValidateAtDepth(r, row, d + 1, d' + 1);
    case Logic(_, l, r) =>
      ValidateAtDepth(l, row, d + 1, d' + 1);
      ValidateAtDepth(r, row, d + 1, d' + 1);
    case NullTest(_, x) => ValidateAtDepth(x, row, d + 1, d' + 1);
    case Not(x) => ValidateAtDepth(x, row, d + 1, d' + 1);
  }

  function Combine(e: Expr<nat>, a: Result<Value, Error>, b: Result<Value, Error>): Result<Value, Error>
    requires e.Compare? || e.Logic?
  {
    if a.Err? then a
    else if b.Err? then b
    else if e.Compare? then CompareValues(e.cmp, a.value, b.value)
    else LogicValues(e.logic, a.value, b.value)
  }

  lemma EvaluateBinary(e: Expr<nat>, row: SlotRow, d: nat)
    requires (e.Compare? || e.Logic?) && d < MAX_EXPRESSION_DEPTH
    ensures Evaluate(e, row, d) == Combine(e, Evaluate(e.lhs, row, d + 1), Evaluate(e.rhs, row, d + 1))
  {
  }

  lemma {:induction false} EvaluateAtDepth(e: Expr<nat>, row: SlotRow, d: nat, d': nat)
    requires d + Height(e) <= MAX_EXPRESSION_DEPTH && d' + Height(e) <= MAX_EXPRESSION_DEPTH
    ensures Evaluate(e, row, d) == Evaluate(e, row, d')
    decreases e
  {
    if e.Compare? || e.Logic? {
      EvaluateAtDepth(e.lhs, row, d + 1, d' + 1);
      EvaluateAtDepth(e.rhs, row, d + 1, d' + 1);
      EvaluateBinary(e, row, d);
      EvaluateBinary(e, row, d');
    } else if e.NullTest? || e.Not? {
      EvaluateAtDepth(e.operand, row, d + 1, d' + 1);
    }
  }

  lemma {:induction false} TooHighIsRejected(e: Expr<nat>, row: SlotRow, depth: nat)
    requires depth <= MAX_EXPRESSION_DEPTH < depth + Height(e)
    ensures Validate(e, row, depth).Err?
    decreases e
  {
    if depth < MAX_EXPRESSION_DEPTH {
      match e
      case Column(_) =>
      case Literal(_) =>
      case Compare(_, l, r) =>
        TooHighIsRejected(if Height(l) < Height(r) then r else l, row, depth + 1);
      case Logic(_, l, r) =>
        TooHighIsRejected(if Height(l) < Height(r) then r else l, row, depth + 1);
      case NullTest(_, x) => TooHighIsRejected(x, row, depth + 1);
      case Not(x) => TooHighIsRejected(x, row, depth + 1);
    }
  }
}
