/** How far the rewrite rules of src/compiler/optimizer.cpp go: constants are folded, nothing is left to simplify, and
    optimizing twice changes nothing more. */
module OptimizerForms {
  import opened Common
  import opened Values
  import opened Expressions
  import opened Optimizer

  // ---------------------------------------------------------------- constants are folded

  /** A condition without columns that the literal rules reach: truth values, comparisons of literals, tests of
      literals, and what AND, OR and NOT make of them. */
  predicate Foldable<R>(e: Expr<R>) {
    match e
    case Column(_) => false
    case Literal(v) => v.Bool? || v.Null?
    case Compare(op, l, r) =>
      l.Literal? && r.Literal? && ValidateCompare(op, TypeOfValue(l.value), TypeOfValue(r.value)).Ok?
    case Logic(_, l, r) => Foldable(l) && Foldable(r)
    case NullTest(_, x) => x.Literal?
    case Not(x) => Foldable(x)
  }

  lemma LiteralsEvaluate(op: CmpOp, a: Value, b: Value)
    requires ValidateCompare(op, TypeOfValue(a), TypeOfValue(b)).Ok?
    ensures EvaluateLiterals(op, a, b).Some?
  {
  }

  lemma {:induction false} FoldableIsConstant<R>(e: Expr<R>)
    requires Foldable(e)
    ensures Optimize(e).constant.Some?
  {
    match e
    case Literal(_) =>
    case Compare(op, l, r) => LiteralsEvaluate(op, l.value, r.value);
    case Logic(_, l, r) =>
      FoldableIsConstant(l);
      FoldableIsConstant(r);
    case NullTest(_, _) =>
    case Not(x) => FoldableIsConstant(x);
  }

  lemma {:induction false} FoldableIsTyped<R>(e: Expr<R>, types: R -> ExprType)
    requires Foldable(e)
    ensures TypeOf(e, types).Ok? && Truthy(TypeOf(e, types).value)
  {
    match e
    case Literal(_) =>
    case Compare(op, l, r) =>
    case Logic(_, l, r) =>
      FoldableIsTyped(l, types);
      FoldableIsTyped(r, types);
    case NullTest(_, _) =>
    case Not(x) => FoldableIsTyped(x, types);
  }

  /** A WHERE made of literals is dropped exactly when it is true of every row, and its truth is known otherwise. */
  lemma ConstantsAreFolded<R(!new)>(e: Expr<R>, env: R -> Value)
    requires Foldable(e)
    ensures OptimizePredicate(Some(e)).None? <==> Meaning(e, env) == Ok(Bool(true))
    ensures Optimize(e).constant.Some? && Meaning(e, env) == Ok(OfTruth(Optimize(e).constant.value))
  {
    var types: R -> ExprType := r => TypeOfValue(env(r));
    FoldableIsConstant(e);
    FoldableIsTyped(e, types);
    OptimizeAgrees(e, env, types);
  }

  // ---------------------------------------------------------------- optimizing twice

  lemma {:induction false} UnknownIsNull<R>(e: Expr<R>)
    requires Optimize(e).constant == Some(Unknown)
    ensures Optimize(e).expr == Literal(Null)
  {
    match e
    case Column(_) =>
    case Literal(_) =>
    case Compare(_, _, _) =>
    case Logic(op, l, r) =>
      if Optimize(l).constant == Some(Unknown) { UnknownIsNull(l); }
      if Optimize(r).constant == Some(Unknown) { UnknownIsNull(r); }
    case NullTest(_, _) =>
    case Not(x) =>
      if Optimize(x).constant == Some(Unknown) { UnknownIsNull(x); }
  }

  /** Optimizing what was optimized changes nothing. */
  ghost predicate Fixed<R(!new)>(o: Optimized<R>) {
    Optimize(o.expr) == o
  }

  lemma ComparisonIsFixed<R(!new)>(op: CmpOp, l: Optimized<R>, r: Optimized<R>)
    requires Fixed(l) && Fixed(r)
    ensures Fixed(ConstantComparison(op, l, r))
  {
  }

  lemma SimplificationIsFixed<R(!new)>(op: LogicOp, l: Optimized<R>, r: Optimized<R>)
    requires Fixed(l) && Fixed(r)
    ensures Fixed(BooleanSimplification(op, l, r))
  {
  }

  /** An optimized NOT has an optimized operand that is no NOT. */
  lemma FixedNot<R(!new)>(y: Expr<R>, constant: Option<Truth>)
    requires Fixed(Optimized(Not(y), constant))
    ensures Fixed(Optimize(y)) && Optimize(y).expr == y && !y.Not?
    ensures constant == if Optimize(y).constant.Some? then Some(TruthNot(Optimize(y).constant.value)) else None
  {
    OptimizeShrinks(y);
    assert Optimize(Not(y)) == DoubleNot(Optimize(y));
    assert Nodes(Not(Not(y))) == 2 + Nodes(y);
    assert !Optimize(y).expr.Not?;
  }

  lemma NotIsFixed<R(!new)>(x: Optimized<R>)
    requires Fixed(x) && (x.constant == Some(Unknown) ==> x.expr == Literal(Null))
    ensures Fixed(DoubleNot(x))
  {
    if x.expr.Not? {
      FixedNot(x.expr.operand, x.constant);
    }
  }

  lemma {:induction false} OptimizeIsFixed<R(!new)>(e: Expr<R>)
    ensures Optimize(Optimize(e).expr) == Optimize(e)
  {
    match e
    case Column(_) =>
    case Literal(_) =>
    case Compare(op, l, r) =>
      OptimizeIsFixed(l);
      OptimizeIsFixed(r);
      ComparisonIsFixed(op, Optimize(l), Optimize(r));
    case Logic(op, l, r) =>
      OptimizeIsFixed(l);
      OptimizeIsFixed(r);
      SimplificationIsFixed(op, Optimize(l), Optimize(r));
    case NullTest(_, x) => OptimizeIsFixed(x);
    case Not(x) =>
      OptimizeIsFixed(x);
      if Optimize(x).constant == Some(Unknown) {
        UnknownIsNull(x);
      }
      NotIsFixed(Optimize(x));
  }

  // ---------------------------------------------------------------- what is left

  /** Nothing the rules could still simplify: no NOT of a NOT or of NULL, no test of a literal, no comparison with a
      literal NULL and another literal, and no operand of AND or OR that is constant, other than NULL next to an
      operand that is not. */
  ghost predicate Simplest<R(!new)>(e: Expr<R>) {
    match e
    case Column(_) => true
    case Literal(_) => true
    case Compare(_, l, r) =>
      Simplest(l) && Simplest(r) && !(l.Literal? && r.Literal? && (l.value.Null? || r.value.Null?))
    case Logic(_, l, r) =>
      Simplest(l) && Simplest(r) && (Foldable(l) ==> l == Literal(Null) && !Foldable(r))
      && (Foldable(r) ==> r == Literal(Null) && !Foldable(l))
    case NullTest(_, x) => Simplest(x) && !x.Literal?
    case Not(x) => Simplest(x) && !x.Not? && x != Literal(Null)
  }

  lemma OperandIsSimplest<R(!new)>(e: Expr<R>)
    requires Optimize(e).constant.None? || Optimize(e).constant == Some(Unknown)
    ensures Foldable(Optimize(e).expr) ==> Optimize(e).constant.Some? && Optimize(e).expr == Literal(Null)
  {
    OptimizeIsFixed(e);
    if Foldable(Optimize(e).expr) {
      FoldableIsConstant(Optimize(e).expr);
      UnknownIsNull(e);
    }
  }

  lemma LogicIsSimplest<R(!new)>(op: LogicOp, l: Expr<R>, r: Expr<R>)
    requires Simplest(Optimize(l).expr) && Simplest(Optimize(r).expr)
    ensures Simplest(Optimize(Logic(op, l, r)).expr)
  {
    var x, y := Optimize(l), Optimize(r);
    if (x.constant.None? || x.constant == Some(Unknown)) && (y.constant.None? || y.constant == Some(Unknown)) {
      OperandIsSimplest(l);
      OperandIsSimplest(r);
    }
  }

  lemma {:induction false} OptimizedIsSimplest<R(!new)>(e: Expr<R>)
    ensures Simplest(Optimize(e).expr)
  {
    match e
    case Column(_) =>
    case Literal(_) =>
    case Compare(op, l, r) =>
      OptimizedIsSimplest(l);
      OptimizedIsSimplest(r);
    case Logic(op, l, r) =>
      OptimizedIsSimplest(l);
      OptimizedIsSimplest(r);
      LogicIsSimplest(op, l, r);
    case NullTest(_, x) => OptimizedIsSimplest(x);
    case Not(x) =>
      OptimizedIsSimplest(x);
      OptimizeIsFixed(x);
  }
}
