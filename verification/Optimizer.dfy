/** The rewrite rules of src/compiler/optimizer.cpp keep every expression's three-valued meaning. */
module Optimizer {
  import opened Common
  import opened Values
  import opened Expressions

  // ---------------------------------------------------------------- meaning and typing without a depth limit

  /** The value of an expression when column r holds env(r). */
  function Meaning<R>(e: Expr<R>, env: R -> Value): Result<Value, Error> {
    match e
    case Column(r) => Ok(env(r))
    case Literal(v) => Ok(v)
    case Compare(op, l, r) => Combine2(Meaning(l, env), Meaning(r, env), (a, b) => CompareValues(op, a, b))
    case Logic(op, l, r) => Combine2(Meaning(l, env), Meaning(r, env), (a, b) => LogicValues(op, a, b))
    case NullTest(op, x) => Combine1(Meaning(x, env), a => Ok(TestValue(op, a)))
    case Not(x) => Combine1(Meaning(x, env), NotValue)
  }

  function Combine2(a: Result<Value, Error>, b: Result<Value, Error>,
                    f: (Value, Value) -> Result<Value, Error>): Result<Value, Error> {
    if a.Err? then a else if b.Err? then b else f(a.value, b.value)
  }

  function Combine1(a: Result<Value, Error>, f: Value -> Result<Value, Error>): Result<Value, Error> {
    if a.Err? then a else f(a.value)
  }

  /** The type of an expression whose column r is declared with types(r). */
  function TypeOf<R>(e: Expr<R>, types: R -> ExprType): Result<ExprType, Error> {
    match e
    case Column(r) => Ok(types(r))
    case Literal(v) => Ok(TypeOfValue(v))
    case Compare(op, l, r) =>
      var a, b := TypeOf(l, types), TypeOf(r, types);
      if a.Err? then a else if b.Err? then b else ValidateCompare(op, a.value, b.value)
    case Logic(_, l, r) =>
      var a, b := TypeOf(l, types), TypeOf(r, types);
      if a.Err? then a else if b.Err? then b
      else if Truthy(a.value) && Truthy(b.value) then Ok(TBool) else Err(BadType)
    case NullTest(_, x) =>
      var a := TypeOf(x, types);
      if a.Err? then a else Ok(TBool)
    case Not(x) =>
      var a := TypeOf(x, types);
      if a.Err? then a else if Truthy(a.value) then Ok(TBool) else Err(BadType)
  }

  ghost predicate EnvOk<R(!new)>(env: R -> Value, types: R -> ExprType) {
    forall r :: HasType(env(r), types(r))
  }

  /** A well-typed expression has a value of its type, or NULL. */
  lemma {:induction false} MeaningTyped<R(!new)>(e: Expr<R>, env: R -> Value, types: R -> ExprType)
    requires TypeOf(e, types).Ok? && EnvOk(env, types)
    ensures Meaning(e, env).Ok? && HasType(Meaning(e, env).value, TypeOf(e, types).value)
  {
    match e
    case Column(_) =>
    case Literal(_) =>
    case Compare(op, l, r) =>
      MeaningTyped(l, env, types);
      MeaningTyped(r, env, types);
      CompareSound(op, Meaning(l, env).value, Meaning(r, env).value, TypeOf(l, types).value, TypeOf(r, types).value);
    case Logic(_, l, r) =>
      MeaningTyped(l, env, types);
      MeaningTyped(r, env, types);
    case NullTest(_, x) => MeaningTyped(x, env, types);
    case Not(x) => MeaningTyped(x, env, types);
  }

  // ---------------------------------------------------------------- the rules

  datatype Optimized<+R> = Optimized(expr: Expr<R>, constant: Option<Truth>)

  /** evaluate_literals. */
  function EvaluateLiterals(op: CmpOp, a: Value, b: Value): Option<Truth> {
    if a.Null? || b.Null? then Some(Unknown)
    else if a.Bool? || b.Bool? then
      if a.Bool? && b.Bool? && op.Eq? then Some(Known(a.b == b.b))
      else if a.Bool? && b.Bool? && op.Ne? then Some(Known(a.b != b.b))
      else None
    else if a.Double? || b.Double? then
      var x, y := NumericDouble(a), NumericDouble(b);
      if x.Some? && y.Some? then Some(Known(CompareDoubles(op, x.value, y.value))) else None
    else
      var x, y := IntegerOf(a), IntegerOf(b);
      if x.Some? && y.Some? then Some(Known(CompareInts(op, x.value, y.value)))
      else if a.Text? && b.Text? then Some(Known(if op.Eq? then a.s == b.s else a.s != b.s))
      else None
  }

  function Known(b: bool): Truth {
    if b then True else False
  }

  function TruthLiteral<R>(t: Truth): Expr<R> {
    Literal(OfTruth(t))
  }

  /** apply_constant_comparison_rule. */
  function ConstantComparison<R>(op: CmpOp, l: Optimized<R>, r: Optimized<R>): Optimized<R> {
    var constant :=
      if l.expr.Literal? && r.expr.Literal? then EvaluateLiterals(op, l.expr.value, r.expr.value) else None;
    if constant == Some(Unknown) then Optimized(TruthLiteral(Unknown), constant)
    else Optimized(Compare(op, l.expr, r.expr), constant)
  }

  /** apply_boolean_simplification_rule. */
  function BooleanSimplification<R>(op: LogicOp, l: Optimized<R>, r: Optimized<R>): Optimized<R> {
    if l.constant.Some? && r.constant.Some? then
      var result := TruthOp(op, l.constant.value, r.constant.value);
      if result.Unknown? then Optimized(TruthLiteral(result), Some(result))
      else if l.constant.value == result then l
      else if r.constant.value == result then r
      else Optimized(TruthLiteral(result), Some(result))
    else if l.constant == Some(True) || l.constant == Some(False) then
      if op.And? == (l.constant == Some(True)) then r else l
    else if r.constant == Some(True) || r.constant == Some(False) then
      if op.And? == (r.constant == Some(True)) then l else r
    else Optimized(Logic(op, l.expr, r.expr), None)
  }

  /** apply_double_not_rule. */
  function DoubleNot<R>(x: Optimized<R>): Optimized<R> {
    var constant := if x.constant.Some? then Some(TruthNot(x.constant.value)) else None;
    if x.expr.Not? then Optimized(x.expr.operand, constant)
    else if constant == Some(Unknown) then Optimized(TruthLiteral(Unknown), constant)
    else Optimized(Not(x.expr), constant)
  }

  /** optimize_expression. */
  function Optimize<R>(e: Expr<R>): Optimized<R> {
    match e
    case Column(_) => Optimized(e, None)
    case Literal(v) =>
      Optimized(e, if v.Bool? then Some(Known(v.b)) else if v.Null? then Some(Unknown) else None)
    case Compare(op, l, r) => ConstantComparison(op, Optimize(l), Optimize(r))
    case Logic(op, l, r) => BooleanSimplification(op, Optimize(l), Optimize(r))
    case NullTest(op, x) =>
      var y := Optimize(x);
      if y.expr.Literal? then
        var result := if op.IsNull? then y.expr.value.Null? else !y.expr.value.Null?;
        Optimized(Literal(Bool(result)), Some(Known(result)))
      else Optimized(NullTest(op, y.expr), None)
    case Not(x) => DoubleNot(Optimize(x))
  }

  /** optimize_predicate: a constant-true predicate is dropped. */
  function OptimizePredicate<R>(p: Option<Expr<R>>): Option<Expr<R>> {
    if p.None? then None
    else
      var o := Optimize(p.value);
      if o.constant == Some(True) then None else Some(o.expr)
  }

  // ---------------------------------------------------------------- only literals matter to the rules

  /** The same tree, up to what the columns refer to. */
  predicate SameShape<A, B>(x: Expr<A>, y: Expr<B>) {
    match x
    case Column(_) => y.Column?
    case Literal(v) => y == Literal(v)
    case Compare(op, l, r) => y.Compare? && y.cmp == op && SameShape(l, y.lhs) && SameShape(r, y.rhs)
    case Logic(op, l, r) => y.Logic? && y.logic == op && SameShape(l, y.lhs) && SameShape(r, y.rhs)
    case NullTest(op, z) => y.NullTest? && y.test == op && SameShape(z, y.operand)
    case Not(z) => y.Not? && SameShape(z, y.operand)
  }

  predicate SameOptimized<A, B>(x: Optimized<A>, y: Optimized<B>) {
    SameShape(x.expr, y.expr) && x.constant == y.constant
  }

  lemma SameComparison<A, B>(op: CmpOp, l: Optimized<A>, r: Optimized<A>, l': Optimized<B>, r': Optimized<B>)
    requires SameOptimized(l, l') && SameOptimized(r, r')
    ensures SameOptimized(ConstantComparison(op, l, r), ConstantComparison(op, l', r'))
  {
  }

  lemma SameSimplification<A, B>(op: LogicOp, l: Optimized<A>, r: Optimized<A>, l': Optimized<B>, r': Optimized<B>)
    requires SameOptimized(l, l') && SameOptimized(r, r')
    ensures SameOptimized(BooleanSimplification(op, l, r), BooleanSimplification(op, l', r'))
  {
  }

  lemma {:induction false} OptimizeKeepsShape<A, B>(x: Expr<A>, y: Expr<B>)
    requires SameShape(x, y)
    ensures SameOptimized(Optimize(x), Optimize(y))
  {
    match x
    case Column(_) =>
    case Literal(_) =>
    case Compare(op, l, r) =>
      OptimizeKeepsShape(l, y.lhs);
      OptimizeKeepsShape(r, y.rhs);
      SameComparison(op, Optimize(l), Optimize(r), Optimize(y.lhs), Optimize(y.rhs));
    case Logic(op, l, r) =>
      OptimizeKeepsShape(l, y.lhs);
      OptimizeKeepsShape(r, y.rhs);
      SameSimplification(op, Optimize(l), Optimize(r), Optimize(y.lhs), Optimize(y.rhs));
    case NullTest(_, z) => OptimizeKeepsShape(z, y.operand);
    case Not(z) => OptimizeKeepsShape(z, y.operand);
  }

  // ---------------------------------------------------------------- meaning is preserved

  /** What a rewritten expression has in common with the original. */
  ghost predicate Agrees<R(!new)>(o: Optimized<R>, e: Expr<R>, env: R -> Value, types: R -> ExprType) {
    && Meaning(o.expr, env) == Meaning(e, env)
    && TypeOf(o.expr, types).Ok? && TypeOf(e, types).Ok?
    && (TypeOf(o.expr, types) == TypeOf(e, types) ||
        (TypeOf(e, types).value.TBool? && TypeOf(o.expr, types).value.TNull?))
    && (o.constant.Some? ==> Truthy(TypeOf(e, types).value) && Meaning(e, env) == Ok(OfTruth(o.constant.value)))
  }

  lemma LiteralsAgree(op: CmpOp, a: Value, b: Value)
    requires ValidateCompare(op, TypeOfValue(a), TypeOfValue(b)).Ok? && EvaluateLiterals(op, a, b).Some?
    ensures CompareValues(op, a, b) == Ok(OfTruth(EvaluateLiterals(op, a, b).value))
  {
  }

  lemma WeakerCompare(op: CmpOp, l: ExprType, r: ExprType, l': ExprType, r': ExprType)
    requires ValidateCompare(op, l, r).Ok?
    requires (l' == l || (l.TBool? && l'.TNull?)) && (r' == r || (r.TBool? && r'.TNull?))
    ensures ValidateCompare(op, l', r') == Ok(TBool)
  {
  }

  lemma CompareAgrees<R(!new)>(op: CmpOp, l: Expr<R>, r: Expr<R>, env: R -> Value, types: R -> ExprType)
    requires TypeOf(Compare(op, l, r), types).Ok? && EnvOk(env, types)
    requires Agrees(Optimize(l), l, env, types) && Agrees(Optimize(r), r, env, types)
    ensures Agrees(ConstantComparison(op, Optimize(l), Optimize(r)), Compare(op, l, r), env, types)
  {
    var x, y := Optimize(l), Optimize(r);
    WeakerCompare(op, TypeOf(l, types).value, TypeOf(r, types).value,
                  TypeOf(x.expr, types).value, TypeOf(y.expr, types).value);
    if x.expr.Literal? && y.expr.Literal? && EvaluateLiterals(op, x.expr.value, y.expr.value).Some? {
      LiteralsAgree(op, x.expr.value, y.expr.value);
    }
  }

  /** A truth-typed operand is its own truth value. */
  lemma TruthRoundTrip(v: Value)
    requires HasType(v, TBool) || HasType(v, TNull)
    ensures ToTruth(v).Ok? && OfTruth(ToTruth(v).value) == v
  {
  }

  lemma LogicMeaning<R(!new)>(op: LogicOp, l: Expr<R>, r: Expr<R>, env: R -> Value, types: R -> ExprType)
    requires TypeOf(Logic(op, l, r), types).Ok? && EnvOk(env, types)
    ensures Meaning(l, env).Ok? && Meaning(r, env).Ok? && ToTruth(Meaning(l, env).value).Ok? &&
      ToTruth(Meaning(r, env).value).Ok?
    ensures Meaning(Logic(op, l, r), env) ==
            Ok(OfTruth(TruthOp(op, ToTruth(Meaning(l, env).value).value, ToTruth(Meaning(r, env).value).value)))
    ensures Meaning(l, env).value == OfTruth(ToTruth(Meaning(l, env).value).value)
    ensures Meaning(r, env).value == OfTruth(ToTruth(Meaning(r, env).value).value)
  {
    MeaningTyped(l, env, types);
    MeaningTyped(r, env, types);
    TruthRoundTrip(Meaning(l, env).value);
    TruthRoundTrip(Meaning(r, env).value);
  }

  /** Both operands are constant. */
  lemma FoldAgrees<R(!new)>(op: LogicOp, x: Optimized<R>, y: Optimized<R>, l: Expr<R>, r: Expr<R>,
                            env: R -> Value, types: R -> ExprType)
    requires TypeOf(Logic(op, l, r), types).Ok? && EnvOk(env, types)
    requires Agrees(x, l, env, types) && Agrees(y, r, env, types) && x.constant.Some? && y.constant.Some?
    ensures Agrees(BooleanSimplification(op, x, y), Logic(op, l, r), env, types)
  {
    LogicMeaning(op, l, r, env, types);
  }

  /** At most one operand is constant. */
  lemma SimplifyAgrees<R(!new)>(op: LogicOp, x: Optimized<R>, y: Optimized<R>, l: Expr<R>, r: Expr<R>,
                                env: R -> Value, types: R -> ExprType)
    requires TypeOf(Logic(op, l, r), types).Ok? && EnvOk(env, types)
    requires Agrees(x, l, env, types) && Agrees(y, r, env, types) && (x.constant.None? || y.constant.None?)
    ensures Agrees(BooleanSimplification(op, x, y), Logic(op, l, r), env, types)
  {
    LogicMeaning(op, l, r, env, types);
  }

  lemma LogicAgrees<R(!new)>(op: LogicOp, l: Expr<R>, r: Expr<R>, env: R -> Value, types: R -> ExprType)
    requires TypeOf(Logic(op, l, r), types).Ok? && EnvOk(env, types)
    requires Agrees(Optimize(l), l, env, types) && Agrees(Optimize(r), r, env, types)
    ensures Agrees(BooleanSimplification(op, Optimize(l), Optimize(r)), Logic(op, l, r), env, types)
  {
    if Optimize(l).constant.Some? && Optimize(r).constant.Some? {
      FoldAgrees(op, Optimize(l), Optimize(r), l, r, env, types);
    } else {
      SimplifyAgrees(op, Optimize(l), Optimize(r), l, r, env, types);
    }
  }

  lemma NotAgrees<R(!new)>(x: Expr<R>, env: R -> Value, types: R -> ExprType)
    requires TypeOf(Not(x), types).Ok? && EnvOk(env, types) && Agrees(Optimize(x), x, env, types)
    ensures Agrees(DoubleNot(Optimize(x)), Not(x), env, types)
  {
    MeaningTyped(x, env, types);
    TruthRoundTrip(Meaning(x, env).value);
    var y := Optimize(x);
    if y.expr.Not? {
      MeaningTyped(y.expr.operand, env, types);
      TruthRoundTrip(Meaning(y.expr.operand, env).value);
    }
  }

  /** For every well-typed expression and every row: same value, same type or NULL, and any recorded
      constant truth is that value. */
  lemma {:induction false} OptimizeAgrees<R(!new)>(e: Expr<R>, env: R -> Value, types: R -> ExprType)
    requires TypeOf(e, types).Ok? && EnvOk(env, types)
    ensures Agrees(Optimize(e), e, env, types)
  {
    match e
    case Column(_) =>
    case Literal(_) =>
    case Compare(op, l, r) =>
      OptimizeAgrees(l, env, types);
      OptimizeAgrees(r, env, types);
      CompareAgrees(op, l, r, env, types);
    case Logic(op, l, r) =>
      OptimizeAgrees(l, env, types);
      OptimizeAgrees(r, env, types);
      LogicAgrees(op, l, r, env, types);
    case NullTest(op, x) => OptimizeAgrees(x, env, types);
    case Not(x) =>
      OptimizeAgrees(x, env, types);
      NotAgrees(x, env, types);
  }

  lemma ComparisonShrinks<R>(op: CmpOp, l: Optimized<R>, r: Optimized<R>)
    ensures var e := ConstantComparison(op, l, r).expr;
            && Nodes(e) <= 1 + Nodes(l.expr) + Nodes(r.expr)
            && Height(e) <= 1 + Expressions.Max(Height(l.expr), Height(r.expr))
  {
  }

  lemma SimplificationShrinks<R>(op: LogicOp, l: Optimized<R>, r: Optimized<R>)
    ensures var e := BooleanSimplification(op, l, r).expr;
            && Nodes(e) <= 1 + Nodes(l.expr) + Nodes(r.expr)
            && Height(e) <= 1 + Expressions.Max(Height(l.expr), Height(r.expr))
  {
  }

  /** No rewrite adds a node or a level. */
  lemma {:induction false} OptimizeShrinks<R>(e: Expr<R>)
    ensures Nodes(Optimize(e).expr) <= Nodes(e) && Height(Optimize(e).expr) <= Height(e)
  {
    match e
    case Column(_) =>
    case Literal(_) =>
    case Compare(op, l, r) =>
      OptimizeShrinks(l);
      OptimizeShrinks(r);
      ComparisonShrinks(op, Optimize(l), Optimize(r));
    case Logic(op, l, r) =>
      OptimizeShrinks(l);
      OptimizeShrinks(r);
      SimplificationShrinks(op, Optimize(l), Optimize(r));
    case NullTest(_, x) => OptimizeShrinks(x);
    case Not(x) => OptimizeShrinks(x);
  }

  /** A row passes the predicate, or there is none. */
  predicate Passes<R>(p: Option<Expr<R>>, env: R -> Value) {
    p.None? || Meaning(p.value, env) == Ok(Bool(true))
  }

  /** Optimizing a WHERE clause, including dropping it, selects exactly the same rows. */
  lemma SameRowsSelected<R(!new)>(p: Option<Expr<R>>, env: R -> Value, types: R -> ExprType)
    requires p.Some? ==> TypeOf(p.value, types).Ok?
    requires EnvOk(env, types)
    ensures Passes(OptimizePredicate(p), env) <==> Passes(p, env)
  {
    if p.Some? {
      OptimizeAgrees(p.value, env, types);
    }
  }
}
