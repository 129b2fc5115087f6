/** From the parser's expression to the executor's predicate: typing survives, meaning is kept. */
module Pipeline {
  import opened Common
  import opened Values
  import opened Expressions
  import opened Optimizer
  import opened Binding

  // ---------------------------------------------------------------- rows laid out by the planner's slots

  /** One relation's columns from slot `first`, column c holding env(c of relation id). */
  function HeadRow(id: nat, count: nat, first: nat, env: BoundColumn -> Value): (r: SlotRow)
    ensures |r| == count
    ensures forall i :: 0 <= i < count ==> r[i] == SlotValue(first + i, env(BoundColumn(id, i)))
  {
    if count == 0 then []
    else HeadRow(id, count - 1, first, env) + [SlotValue(first + count - 1, env(BoundColumn(id, count - 1)))]
  }

  function RowOf(scope: Scope, first: nat, env: BoundColumn -> Value): SlotRow {
    if scope == [] then []
    else
      HeadRow(scope[0].id, |scope[0].columns|, first, env) +
      RowOf(scope[1..], first + |scope[0].columns|, env)
  }

  lemma {:induction false} HeadBindings(id: nat, count: nat, first: nat, env: BoundColumn -> Value, slot: nat)
    ensures Bindings(HeadRow(id, count, first, env), slot) == if first <= slot < first + count then 1 else 0
    ensures first <= slot < first + count ==>
      FirstBinding(HeadRow(id, count, first, env), slot) == Some(env(BoundColumn(id, slot - first)))
  {
    if count > 0 {
      HeadBindings(id, count - 1, first, env, slot);
      BindingsConcat(HeadRow(id, count - 1, first, env),
          [SlotValue(first + count - 1, env(BoundColumn(id, count - 1)))], slot);
    }
  }

  lemma {:induction false} RowBindings(scope: Scope, first: nat, env: BoundColumn -> Value, slot: nat)
    ensures Bindings(RowOf(scope, first, env), slot) == if first <= slot < first + Width(scope) then 1 else 0
  {
    if scope != [] {
      var count := |scope[0].columns|;
      HeadBindings(scope[0].id, count, first, env, slot);
      RowBindings(scope[1..], first + count, env, slot);
      BindingsConcat(HeadRow(scope[0].id, count, first, env), RowOf(scope[1..], first + count, env), slot);
    }
  }

  lemma {:induction false} FindScanFound(columns: seq<ScanColumn>, from: nat, first: nat, c: nat)
    requires from <= c < from + |columns|
    requires forall i :: 0 <= i < |columns| ==> columns[i] == ScanColumn(from + i, first + from + i)
    ensures FindScan(columns, c) == Some(first + c)
    decreases |columns|
  {
    if columns[0].column != c {
      FindScanFound(columns[1..], from + 1, first, c);
    }
  }

  /** The slot of a bound column when slots are numbered from `first`. */
  function SlotIn(scope: Scope, first: nat, b: BoundColumn): nat {
    if scope == [] then first
    else if scope[0].id == b.table then first + b.column
    else SlotIn(scope[1..], first + |scope[0].columns|, b)
  }

  lemma InTail(scope: Scope, b: BoundColumn)
    requires DistinctIds(scope) && InScope(b, scope)
    ensures scope != [] && DistinctIds(scope[1..])
    ensures scope[0].id == b.table ==> b.column < |scope[0].columns|
    ensures scope[0].id != b.table ==> InScope(b, scope[1..])
  {
    var t :| t in scope && t.id == b.table && b.column < |t.columns|;
    var i :| 0 <= i < |scope| && scope[i] == t;
    assert i > 0 ==> t in scope[1..];
  }

  lemma {:induction false} SlotInRange(scope: Scope, first: nat, b: BoundColumn)
    requires DistinctIds(scope) && InScope(b, scope)
    ensures first <= SlotIn(scope, first, b) < first + Width(scope)
  {
    InTail(scope, b);
    if scope[0].id != b.table {
      SlotInRange(scope[1..], first + |scope[0].columns|, b);
    }
  }

  lemma {:induction false} FindSlotFound(scope: Scope, first: nat, b: BoundColumn)
    requires DistinctIds(scope) && InScope(b, scope)
    ensures FindSlot(BuildBindings(scope, first), b) == Some(SlotIn(scope, first, b))
  {
    InTail(scope, b);
    BuildStep(scope, first);
    var count := |scope[0].columns|;
    if scope[0].id == b.table {
      FindScanFound(ScanColumns(count, first), 0, first, b.column);
    } else {
      FindSlotFound(scope[1..], first + count, b);
    }
  }

  lemma HeadHolds(scope: Scope, first: nat, env: BoundColumn -> Value, c: nat)
    requires scope != [] && c < |scope[0].columns|
    ensures FirstBinding(RowOf(scope, first, env), first + c) == Some(env(BoundColumn(scope[0].id, c)))
  {
    var count := |scope[0].columns|;
    HeadBindings(scope[0].id, count, first, env, first + c);
    BindingsConcat(HeadRow(scope[0].id, count, first, env), RowOf(scope[1..], first + count, env), first + c);
  }

  lemma TailHolds(scope: Scope, first: nat, env: BoundColumn -> Value, slot: nat)
    requires scope != [] && first + |scope[0].columns| <= slot
    ensures FirstBinding(RowOf(scope, first, env), slot) ==
            FirstBinding(RowOf(scope[1..], first + |scope[0].columns|, env), slot)
  {
    var count := |scope[0].columns|;
    HeadBindings(scope[0].id, count, first, env, slot);
    BindingsConcat(HeadRow(scope[0].id, count, first, env), RowOf(scope[1..], first + count, env), slot);
  }

  lemma {:induction false} RowHoldsColumn(scope: Scope, first: nat, env: BoundColumn -> Value, b: BoundColumn)
    requires DistinctIds(scope) && InScope(b, scope)
    ensures FirstBinding(RowOf(scope, first, env), SlotIn(scope, first, b)) == Some(env(b))
  {
    InTail(scope, b);
    var after := first + |scope[0].columns|;
    if scope[0].id == b.table {
      HeadHolds(scope, first, env, b.column);
    } else {
      SlotInRange(scope[1..], after, b);
      TailHolds(scope, first, env, SlotIn(scope[1..], after, b));
      RowHoldsColumn(scope[1..], after, env, b);
    }
  }

  /** A bound column has a slot, and the row holds the column's value there, once. */
  lemma SlotHoldsColumn(scope: Scope, first: nat, env: BoundColumn -> Value, b: BoundColumn)
    requires DistinctIds(scope) && InScope(b, scope)
    ensures FindSlot(BuildBindings(scope, first), b) == Some(SlotIn(scope, first, b))
    ensures Lookup(RowOf(scope, first, env), SlotIn(scope, first, b)) == Ok(env(b))
  {
    FindSlotFound(scope, first, b);
    SlotInRange(scope, first, b);
    RowHoldsColumn(scope, first, env, b);
    RowBindings(scope, first, env, SlotIn(scope, first, b));
  }

  // ---------------------------------------------------------------- planned expressions

  /** The planner finds every bound column and keeps the tree's shape. */
  lemma {:induction false} GenerateSucceeds(e: Expr<BoundColumn>, scope: Scope, first: nat)
    requires DistinctIds(scope) && Bound(e, scope)
    ensures GenerateExpr(e, BuildBindings(scope, first)).Some?
    ensures Height(GenerateExpr(e, BuildBindings(scope, first)).value) == Height(e)
  {
    match e
    case Column(b) => SlotHoldsColumn(scope, first, _ => Null, b);
    case Literal(_) =>
    case Compare(_, l, r) =>
      GenerateSucceeds(l, scope, first);
      GenerateSucceeds(r, scope, first);
    case Logic(_, l, r) =>
      GenerateSucceeds(l, scope, first);
      GenerateSucceeds(r, scope, first);
    case NullTest(_, x) => GenerateSucceeds(x, scope, first);
    case Not(x) => GenerateSucceeds(x, scope, first);
  }

  lemma GenerateBinary(e: Expr<BoundColumn>, bindings: seq<SlotBinding>, row: SlotRow, depth: nat)
    requires (e.Compare? || e.Logic?) && GenerateExpr(e, bindings).Some? && depth < MAX_EXPRESSION_DEPTH
    ensures GenerateExpr(e.lhs, bindings).Some? && GenerateExpr(e.rhs, bindings).Some?
    ensures Evaluate(GenerateExpr(e, bindings).value, row, depth) ==
            Combine(GenerateExpr(e, bindings).value,
                    Evaluate(GenerateExpr(e.lhs, bindings).value, row, depth + 1),
                    Evaluate(GenerateExpr(e.rhs, bindings).value, row, depth + 1))
  {
    EvaluateBinary(GenerateExpr(e, bindings).value, row, depth);
  }

  /** The row holds the value of every bound column at the column's slot. */
  ghost predicate RowHolds(row: SlotRow, scope: Scope, first: nat, env: BoundColumn -> Value) {
    forall b :: InScope(b, scope) ==> Lookup(row, SlotIn(scope, first, b)) == Ok(env(b))
  }

  /** The core evaluates the planned expression to the bound expression's meaning. */
  lemma {:induction false} GenerateKeepsMeaning(e: Expr<BoundColumn>, scope: Scope, first: nat, row: SlotRow,
                                                env: BoundColumn -> Value, depth: nat)
    requires DistinctIds(scope) && Bound(e, scope) && depth + Height(e) <= MAX_EXPRESSION_DEPTH &&
      RowHolds(row, scope, first, env)
    ensures GenerateExpr(e, BuildBindings(scope, first)).Some?
    ensures Evaluate(GenerateExpr(e, BuildBindings(scope, first)).value, row, depth) == Meaning(e, env)
    decreases e
  {
    GenerateSucceeds(e, scope, first);
    if e.Compare? || e.Logic? {
      GenerateBinary(e, BuildBindings(scope, first), row, depth);
      GenerateKeepsMeaning(e.lhs, scope, first, row, env, depth + 1);
      GenerateKeepsMeaning(e.rhs, scope, first, row, env, depth + 1);
    } else if e.NullTest? || e.Not? {
      GenerateKeepsMeaning(e.operand, scope, first, row, env, depth + 1);
    } else if e.Column? {
      FindSlotFound(scope, first, e.ref);
    }
  }

  lemma RowOfHolds(scope: Scope, first: nat, env: BoundColumn -> Value)
    requires DistinctIds(scope)
    ensures RowHolds(RowOf(scope, first, env), scope, first, env)
  {
    forall b | InScope(b, scope) ensures Lookup(RowOf(scope, first, env), SlotIn(scope, first, b)) == Ok(env(b)) {
      SlotHoldsColumn(scope, first, env, b);
    }
  }

  /** The value the validators use for a declared type. */
  function ValidationValue(t: Type): (v: Value)
    ensures TypeOfValue(v) == DeclaredType(t)
  {
    match t
    case IntType => Int(0)
    case BigIntType => BigInt(0)
    case DoubleType => Double(0)
    case BooleanType => Bool(false)
    case VarcharType => Text([])
  }

  function ValidationIn(scope: Scope, b: BoundColumn): Value {
    if scope == [] then Null
    else if scope[0].id == b.table then
      if b.column < |scope[0].columns| then ValidationValue(scope[0].columns[b.column].ty) else Null
    else ValidationIn(scope[1..], b)
  }

  lemma {:induction false} ValidationTypes(scope: Scope, b: BoundColumn)
    ensures TypeOfValue(ValidationIn(scope, b)) == TypeIn(scope, b)
  {
    if scope != [] && scope[0].id != b.table {
      ValidationTypes(scope[1..], b);
    }
  }

  ghost function Declared(scope: Scope): BoundColumn -> Value {
    b => ValidationIn(scope, b)
  }

  /** The core's validator computes, for the planned expression, the type the analyzer computed. */
  lemma {:induction false} GenerateKeepsType(e: Expr<BoundColumn>, scope: Scope, first: nat, depth: nat)
    requires DistinctIds(scope) && Bound(e, scope) && depth + Height(e) <= MAX_EXPRESSION_DEPTH
    ensures GenerateExpr(e, BuildBindings(scope, first)).Some?
    ensures Validate(GenerateExpr(e, BuildBindings(scope, first)).value, RowOf(scope, first, Declared(scope)), depth) ==
            TypeOf(e, Types(scope))
    decreases e
  {
    GenerateSucceeds(e, scope, first);
    match e
    case Column(b) =>
      SlotHoldsColumn(scope, first, Declared(scope), b);
      ValidationTypes(scope, b);
    case Literal(_) =>
    case Compare(_, l, r) =>
      GenerateKeepsType(l, scope, first, depth + 1);
      GenerateKeepsType(r, scope, first, depth + 1);
    case Logic(_, l, r) =>
      GenerateKeepsType(l, scope, first, depth + 1);
      GenerateKeepsType(r, scope, first, depth + 1);
    case NullTest(_, x) => GenerateKeepsType(x, scope, first, depth + 1);
    case Not(x) => GenerateKeepsType(x, scope, first, depth + 1);
  }

  // ---------------------------------------------------------------- end to end for one predicate

  /** An expression the analyzer accepted as a predicate over the scope, within the parser's node budget. */
  ghost predicate Accepted(ast: Expr<Name>, scope: Scope) {
    && DistinctIds(scope) && Nodes(ast) <= MAX_EXPRESSION_DEPTH
    && Analyze(ast, scope).Some? && Truthy(Analyze(ast, scope).value.ty)
  }

  /** After optimization and planning the core's validator accepts the predicate. */
  lemma PlannedPredicateIsValid(ast: Expr<Name>, scope: Scope, first: nat)
    requires Accepted(ast, scope)
    ensures var o := Optimize(Analyze(ast, scope).value.expr).expr;
            && GenerateExpr(o, BuildBindings(scope, first)).Some?
            && ValidPredicate(GenerateExpr(o, BuildBindings(scope, first)).value, RowOf(scope, first, Declared(scope)))
  {
    var be := Analyze(ast, scope).value.expr;
    AnalyzeTyped(ast, scope);
    HeightWithinNodes(ast);
    OptimizeShrinks(be);
    OptimizeBound(be, scope);
    DeclaredEnvOk(scope);
    OptimizeAgrees(be, Declared(scope), Types(scope));
    GenerateKeepsType(Optimize(be).expr, scope, first, 0);
  }

  lemma DeclaredEnvOk(scope: Scope)
    ensures EnvOk(Declared(scope), Types(scope))
  {
    forall b ensures HasType(Declared(scope)(b), Types(scope)(b)) { ValidationTypes(scope, b); }
  }

  lemma OptimizedPredicateIsSound(be: Expr<BoundColumn>, scope: Scope, first: nat, row: SlotRow,
                                  env: BoundColumn -> Value)
    requires DistinctIds(scope) && Bound(be, scope) && Height(be) <= MAX_EXPRESSION_DEPTH &&
      RowHolds(row, scope, first, env)
    requires TypeOf(be, Types(scope)).Ok? && Truthy(TypeOf(be, Types(scope)).value) && EnvOk(env, Types(scope))
    ensures var plan := GenerateExpr(Optimize(be).expr, BuildBindings(scope, first));
            && plan.Some?
            && EvaluatePredicate(plan.value, row) == Ok(Meaning(be, env) == Ok(Bool(true)))
  {
    OptimizeShrinks(be);
    OptimizeBound(be, scope);
    OptimizeAgrees(be, env, Types(scope));
    MeaningTyped(be, env, Types(scope));
    GenerateKeepsMeaning(Optimize(be).expr, scope, first, row, env, 0);
  }

  /** On every conforming row the planned predicate evaluates without error, and keeps the row exactly
      when the analyzed, unoptimized predicate is true on it. */
  lemma PlannedPredicateIsSound(ast: Expr<Name>, scope: Scope, first: nat, env: BoundColumn -> Value)
    requires Accepted(ast, scope) && EnvOk(env, Types(scope))
    ensures var be := Analyze(ast, scope).value.expr;
            var plan := GenerateExpr(Optimize(be).expr, BuildBindings(scope, first));
            && plan.Some?
            && EvaluatePredicate(plan.value, RowOf(scope, first, env)) == Ok(Meaning(be, env) == Ok(Bool(true)))
  {
    AnalyzeTyped(ast, scope);
    HeightWithinNodes(ast);
    RowOfHolds(scope, first, env);
    OptimizedPredicateIsSound(Analyze(ast, scope).value.expr, scope, first, RowOf(scope, first, env), env);
  }
}
