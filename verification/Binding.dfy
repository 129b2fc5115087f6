/** Name resolution and expression typing (src/compiler/semantic.cpp), slot binding (src/compiler/planner.cpp). */
module Binding {
  import opened Common
  import opened Values
  import opened Expressions
  import opened Optimizer

  datatype ColumnMeta = ColumnMeta(name: string, ty: Type, nullable: bool)

  datatype TableMeta = TableMeta(id: nat, name: string, columns: seq<ColumnMeta>)

  /** The relations visible to an expression, in FROM order. */
  type Scope = seq<TableMeta>

  datatype Name = Name(qualifier: Option<string>, name: string)

  datatype BoundColumn = BoundColumn(table: nat, column: nat)

  function DeclaredType(t: Type): ExprType {
    match t
    case IntType => TInt
    case BigIntType => TBigInt
    case DoubleType => TDouble
    case BooleanType => TBool
    case VarcharType => TVarchar
  }

  // ---------------------------------------------------------------- resolution

  function FindColumn(columns: seq<ColumnMeta>, name: string, from: nat := 0): (r: Option<nat>)
    requires from <= |columns|
    ensures r.Some? ==> from <= r.value < |columns| && columns[r.value].name == name
    decreases |columns| - from
  {
    if from == |columns| then None
    else if columns[from].name == name then Some(from)
    else FindColumn(columns, name, from + 1)
  }

  function FindRelation(scope: Scope, name: string): (r: Option<TableMeta>)
    ensures r.Some? ==> r.value in scope && r.value.name == name
  {
    if scope == [] then None
    else if scope[0].name == name then Some(scope[0])
    else FindRelation(scope[1..], name)
  }

  predicate InScope(b: BoundColumn, scope: Scope) {
    exists t :: t in scope && t.id == b.table && b.column < |t.columns|
  }

  /** A resolved column and the type its metadata declares. */
  datatype Resolved = Resolved(ref: BoundColumn, ty: ExprType)

  predicate ResolvedIn(r: Resolved, scope: Scope) {
    exists t :: t in scope && t.id == r.ref.table && r.ref.column < |t.columns| &&
      r.ty == DeclaredType(t.columns[r.ref.column].ty)
  }

  /** One entry for each relation, in order, that has a column of the name. */
  function Candidates(scope: Scope, name: string): (r: seq<Resolved>)
    ensures forall i :: 0 <= i < |r| ==> ResolvedIn(r[i], scope)
  {
    if scope == [] then []
    else
      var rest := Candidates(scope[1..], name);
      assert forall i :: 0 <= i < |rest| ==> ResolvedIn(rest[i], scope[1..]);
      match FindColumn(scope[0].columns, name)
      case Some(c) =>
        var here := Resolved(BoundColumn(scope[0].id, c), DeclaredType(scope[0].columns[c].ty));
        assert scope[0] in scope;
        assert ResolvedIn(here, scope);
        [here] + rest
      case None => rest
  }

  /** resolve_column: the qualified relation's column, or the only unqualified match. */
  function Resolve(scope: Scope, n: Name): (r: Option<Resolved>)
    ensures r.Some? ==> ResolvedIn(r.value, scope)
  {
    if n.qualifier.Some? then
      match FindRelation(scope, n.qualifier.value)
      case None => None
      case Some(t) =>
        match FindColumn(t.columns, n.name)
        case None => None
        case Some(c) => Some(Resolved(BoundColumn(t.id, c), DeclaredType(t.columns[c].ty)))
    else if |Candidates(scope, n.name)| == 1 then Some(Candidates(scope, n.name)[0])
    else None
  }

  /** Relations carry distinct ids (analyze_select rejects a table that is already present). */
  ghost predicate DistinctIds(scope: Scope) {
    forall i, j :: 0 <= i < j < |scope| ==> scope[i].id != scope[j].id
  }

  function TypeIn(scope: Scope, b: BoundColumn): ExprType {
    if scope == [] then TNull
    else if scope[0].id == b.table then
      if b.column < |scope[0].columns| then DeclaredType(scope[0].columns[b.column].ty) else TNull
    else TypeIn(scope[1..], b)
  }

  /** With distinct relations the resolved metadata is the one a lookup by id finds. */
  lemma {:induction false} ResolvedType(scope: Scope, r: Resolved)
    requires DistinctIds(scope) && ResolvedIn(r, scope)
    ensures InScope(r.ref, scope) && TypeIn(scope, r.ref) == r.ty
  {
    var t :| t in scope && t.id == r.ref.table && r.ref.column < |t.columns| &&
      r.ty == DeclaredType(t.columns[r.ref.column].ty);
    if scope[0].id != r.ref.table {
      assert t in scope[1..];
      ResolvedType(scope[1..], r);
    } else {
      var i :| 0 <= i < |scope| && scope[i] == t;
      assert i == 0;
    }
  }

  ghost function Types(scope: Scope): BoundColumn -> ExprType {
    b => TypeIn(scope, b)
  }

  // ---------------------------------------------------------------- analyze_expression

  predicate Equality(op: CmpOp) {
    op.Eq? || op.Ne?
  }

  /** The comparison branch of analyze_expression. */
  function AnalyzeCompare(op: CmpOp, l: ExprType, r: ExprType): Option<ExprType> {
    if l.TNull? || r.TNull? then
      var concrete := if l.TNull? then r else l;
      if !Equality(op) && (concrete.TBool? || concrete.TVarchar?) then None else Some(TBool)
    else if l != r && !(Numeric(l) && Numeric(r)) then None
    else if l.TBool? && !Equality(op) then None
    else if l.TVarchar? && !Equality(op) then None
    else Some(TBool)
  }

  /** The compiler and the core accept exactly the same comparisons. */
  lemma CompareRulesAgree(op: CmpOp, l: ExprType, r: ExprType)
    ensures AnalyzeCompare(op, l, r).Some? <==> ValidateCompare(op, l, r).Ok?
    ensures AnalyzeCompare(op, l, r).Some? ==>
      ValidateCompare(op, l, r) == Ok(TBool) && AnalyzeCompare(op, l, r).value == TBool
  {
  }

  datatype Analyzed = Analyzed(expr: Expr<BoundColumn>, ty: ExprType)

  function Analyze(e: Expr<Name>, scope: Scope): Option<Analyzed> {
    match e
    case Column(n) =>
      (match Resolve(scope, n)
       case None => None
       case Some(b) => Some(Analyzed(Column(b.ref), b.ty)))
    case Literal(v) => Some(Analyzed(Literal(v), TypeOfValue(v)))
    case Compare(op, l, r) =>
      var a := Analyze(l, scope);
      if a.None? then None
      else
        var b := Analyze(r, scope);
        if b.None? then None
        else
          var t := AnalyzeCompare(op, a.value.ty, b.value.ty);
          if t.None? then None else Some(Analyzed(Compare(op, a.value.expr, b.value.expr), t.value))
    case Logic(op, l, r) =>
      var a := Analyze(l, scope);
      if a.None? then None
      else
        var b := Analyze(r, scope);
        if b.None? || !Truthy(a.value.ty) || !Truthy(b.value.ty) then None
        else Some(Analyzed(Logic(op, a.value.expr, b.value.expr), TBool))
    case NullTest(op, x) =>
      var a := Analyze(x, scope);
      if a.None? then None else Some(Analyzed(NullTest(op, a.value.expr), TBool))
    case Not(x) =>
      var a := Analyze(x, scope);
      if a.None? || !Truthy(a.value.ty) then None else Some(Analyzed(Not(a.value.expr), TBool))
  }

  /** Analysis replaces names by references and nothing else. */
  lemma {:induction false} AnalyzeKeepsShape(e: Expr<Name>, scope: Scope)
    requires Analyze(e, scope).Some?
    ensures SameShape(e, Analyze(e, scope).value.expr)
  {
    match e
    case Column(_) =>
    case Literal(_) =>
    case Compare(_, l, r) =>
      AnalyzeKeepsShape(l, scope);
      AnalyzeKeepsShape(r, scope);
    case Logic(_, l, r) =>
      AnalyzeKeepsShape(l, scope);
      AnalyzeKeepsShape(r, scope);
    case NullTest(_, x) => AnalyzeKeepsShape(x, scope);
    case Not(x) => AnalyzeKeepsShape(x, scope);
  }

  predicate Bound(e: Expr<BoundColumn>, scope: Scope) {
    match e
    case Column(b) => InScope(b, scope)
    case Literal(_) => true
    case Compare(_, l, r) => Bound(l, scope) && Bound(r, scope)
    case Logic(_, l, r) => Bound(l, scope) && Bound(r, scope)
    case NullTest(_, x) => Bound(x, scope)
    case Not(x) => Bound(x, scope)
  }

  /** Analysis computes the type, binds every column to the scope and keeps the tree's shape. */
  lemma {:induction false} AnalyzeTyped(e: Expr<Name>, scope: Scope)
    requires Analyze(e, scope).Some? && DistinctIds(scope)
    ensures var a := Analyze(e, scope).value;
            && TypeOf(a.expr, Types(scope)) == Ok(a.ty)
            && Bound(a.expr, scope)
            && Nodes(a.expr) == Nodes(e) && Height(a.expr) == Height(e)
  {
    match e
    case Column(n) => ResolvedType(scope, Resolve(scope, n).value);
    case Literal(_) =>
    case Compare(op, l, r) =>
      AnalyzeTyped(l, scope);
      AnalyzeTyped(r, scope);
      CompareRulesAgree(op, Analyze(l, scope).value.ty, Analyze(r, scope).value.ty);
    case Logic(_, l, r) =>
      AnalyzeTyped(l, scope);
      AnalyzeTyped(r, scope);
    case NullTest(_, x) => AnalyzeTyped(x, scope);
    case Not(x) => AnalyzeTyped(x, scope);
  }

  /** Rewriting introduces no column. */
  lemma {:induction false} OptimizeBound(e: Expr<BoundColumn>, scope: Scope)
    requires Bound(e, scope)
    ensures Bound(Optimize(e).expr, scope)
  {
    match e
    case Column(_) =>
    case Literal(_) =>
    case Compare(_, l, r) =>
      OptimizeBound(l, scope);
      OptimizeBound(r, scope);
    case Logic(_, l, r) =>
      OptimizeBound(l, scope);
      OptimizeBound(r, scope);
    case NullTest(_, x) => OptimizeBound(x, scope);
    case Not(x) => OptimizeBound(x, scope);
  }

  // ---------------------------------------------------------------- slots

  datatype ScanColumn = ScanColumn(column: nat, slot: nat)

  datatype SlotBinding = SlotBinding(table: TableMeta, columns: seq<ScanColumn>)

  /** The columns of one relation get consecutive slots from `first`. */
  function ScanColumns(count: nat, first: nat): (r: seq<ScanColumn>)
    ensures |r| == count
    ensures forall i :: 0 <= i < count ==> r[i] == ScanColumn(i, first + i)
  {
    if count == 0 then [] else ScanColumns(count - 1, first) + [ScanColumn(count - 1, first + count - 1)]
  }

  /** build_slot_bindings: one running slot counter across all relations. */
  function BuildBindings(scope: Scope, first: nat): (r: seq<SlotBinding>)
    ensures |r| == |scope|
    ensures forall i :: 0 <= i < |scope| ==> r[i].table == scope[i]
  {
    if scope == [] then []
    else
      [SlotBinding(scope[0], ScanColumns(|scope[0].columns|, first))] +
      BuildBindings(scope[1..], first + |scope[0].columns|)
  }

  lemma BuildStep(scope: Scope, first: nat)
    requires scope != []
    ensures var count := |scope[0].columns|;
            && BuildBindings(scope, first)[0] == SlotBinding(scope[0], ScanColumns(count, first))
            && BuildBindings(scope, first)[1..] == BuildBindings(scope[1..], first + count)
  {
  }

  method BindColumns(count: nat, first: nat) returns (columns: seq<ScanColumn>, next: nat)
    ensures columns == ScanColumns(count, first) && next == first + count
  {
    columns, next := [], first;
    for c := 0 to count
      invariant columns == ScanColumns(c, first) && next == first + c
    {
      columns := columns + [ScanColumn(c, next)];
      next := next + 1;
    }
  }

  function Width(scope: Scope): nat {
    if scope == [] then 0 else |scope[0].columns| + Width(scope[1..])
  }

  function WidthTo(scope: Scope, i: nat): nat
    requires i <= |scope|
  {
    if i == 0 then 0 else WidthTo(scope, i - 1) + |scope[i - 1].columns|
  }

  /** The bindings of the first i relations. */
  function BuiltTo(scope: Scope, i: nat): (r: seq<SlotBinding>)
    requires i <= |scope|
    ensures |r| == i
  {
    if i == 0 then []
    else
      BuiltTo(scope, i - 1) +
      [SlotBinding(scope[i - 1], ScanColumns(|scope[i - 1].columns|, WidthTo(scope, i - 1)))]
  }

  lemma NextBuilt(scope: Scope, i: nat)
    requires i < |scope|
    ensures BuiltTo(scope, i + 1) + BuildBindings(scope[i + 1..], WidthTo(scope, i + 1)) ==
            BuiltTo(scope, i) + BuildBindings(scope[i..], WidthTo(scope, i))
    ensures WidthTo(scope, i + 1) + Width(scope[i + 1..]) == WidthTo(scope, i) + Width(scope[i..])
  {
    var here := SlotBinding(scope[i], ScanColumns(|scope[i].columns|, WidthTo(scope, i)));
    var rest := BuildBindings(scope[i + 1..], WidthTo(scope, i + 1));
    assert scope[i..][1..] == scope[i + 1..];
    assert BuildBindings(scope[i..], WidthTo(scope, i)) == [here] + rest;
    Regrouped(BuiltTo(scope, i), here, rest);
  }

  lemma Regrouped(before: seq<SlotBinding>, here: SlotBinding, rest: seq<SlotBinding>)
    ensures (before + [here]) + rest == before + ([here] + rest)
  {
  }

  /** The bindings built so far, then those still to come, are the whole list. */
  lemma {:induction false} BuildMore(scope: Scope, i: nat)
    requires i <= |scope|
    ensures BuiltTo(scope, i) + BuildBindings(scope[i..], WidthTo(scope, i)) == BuildBindings(scope, 0)
    ensures WidthTo(scope, i) + Width(scope[i..]) == Width(scope)
  {
    if i == 0 {
      assert scope[0..] == scope && BuiltTo(scope, 0) + BuildBindings(scope, 0) == BuildBindings(scope, 0);
    } else {
      BuildMore(scope, i - 1);
      NextBuilt(scope, i - 1);
    }
  }

  lemma BuildEnds(scope: Scope)
    ensures BuiltTo(scope, |scope|) == BuildBindings(scope, 0) && WidthTo(scope, |scope|) == Width(scope)
  {
    BuildMore(scope, |scope|);
    assert scope[|scope|..] == [];
  }

  /** The loops of build_slot_bindings. */
  method BuildSlotBindings(scope: Scope) returns (bindings: seq<SlotBinding>, next: nat)
    ensures bindings == BuildBindings(scope, 0) && next == Width(scope)
  {
    bindings, next := [], 0;
    for i := 0 to |scope|
      invariant bindings == BuiltTo(scope, i) && next == WidthTo(scope, i)
    {
      var columns, after := BindColumns(|scope[i].columns|, next);
      bindings, next := bindings + [SlotBinding(scope[i], columns)], after;
    }
    BuildEnds(scope);
  }

  function FindScan(columns: seq<ScanColumn>, column: nat): Option<nat> {
    if columns == [] then None
    else if columns[0].column == column then Some(columns[0].slot)
    else FindScan(columns[1..], column)
  }

  /** find_slot: the first binding of the table decides. */
  function FindSlot(bindings: seq<SlotBinding>, b: BoundColumn): Option<nat> {
    if bindings == [] then None
    else if bindings[0].table.id == b.table then FindScan(bindings[0].columns, b.column)
    else FindSlot(bindings[1..], b)
  }

  function GenerateExpr(e: Expr<BoundColumn>, bindings: seq<SlotBinding>): Option<Expr<nat>> {
    match e
    case Column(b) =>
      (match FindSlot(bindings, b)
       case None => None
       case Some(s) => Some(Column(s)))
    case Literal(v) => Some(Literal(v))
    case Compare(op, l, r) =>
      var a := GenerateExpr(l, bindings);
      if a.None? then None
      else
        var c := GenerateExpr(r, bindings);
        if c.None? then None else Some(Compare(op, a.value, c.value))
    case Logic(op, l, r) =>
      var a := GenerateExpr(l, bindings);
      if a.None? then None
      else
        var c := GenerateExpr(r, bindings);
        if c.None? then None else Some(Logic(op, a.value, c.value))
    case NullTest(op, x) =>
      var a := GenerateExpr(x, bindings);
      if a.None? then None else Some(NullTest(op, a.value))
    case Not(x) =>
      var a := GenerateExpr(x, bindings);
      if a.None? then None else Some(Not(a.value))
  }
}
