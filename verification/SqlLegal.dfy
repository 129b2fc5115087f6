/** Which SELECT statements analysis accepts, by their names and types alone. */
module SqlLegal {
  import opened Common
  import opened Values
  import opened Expressions
  import opened Binding
  import opened Aggregates
  import opened Plans
  import opened Select
  import opened SelectAnalysis
  import opened SqlMeaning
  import opened SqlNames
  import SqlGroups

  // ---------------------------------------------------------------- expressions

  ghost predicate Known(from: Scope, n: Name) {
    exists p :: OnePlace(from, n, p)
  }

  /** The declared type of a known column. */
  ghost function NamedType(from: Scope, n: Name): ExprType {
    match PlaceOf(from, n)
    case None => TNull
    case Some(p) => DeclaredType(from[p.relation].columns[p.column].ty)
  }

  predicate IsNumber(t: ExprType) {
    t == TInt || t == TBigInt || t == TDouble
  }

  /** Numbers compare with numbers, booleans and texts for equality with their kind, NULL with what has the operator. */
  predicate Comparable(op: CmpOp, l: ExprType, r: ExprType) {
    var equality := op == Eq || op == Ne;
    || (IsNumber(l) && IsNumber(r))
    || (equality && l == r)
    || (l == TNull && (equality || r == TNull || IsNumber(r)))
    || (r == TNull && (equality || IsNumber(l)))
  }

  predicate IsBoolean(t: ExprType) {
    t == TBool || t == TNull
  }

  /** The type of a legal expression over names. */
  ghost function LegalType(e: Expr<Name>, from: Scope): Option<ExprType> {
    match e
    case Column(n) => if Known(from, n) then Some(NamedType(from, n)) else None
    case Literal(v) => Some(TypeOfValue(v))
    case Compare(op, l, r) =>
      var a, b := LegalType(l, from), LegalType(r, from);
      if a.Some? && b.Some? && Comparable(op, a.value, b.value) then Some(TBool) else None
    case Logic(_, l, r) =>
      var a, b := LegalType(l, from), LegalType(r, from);
      if a.Some? && b.Some? && IsBoolean(a.value) && IsBoolean(b.value) then Some(TBool) else None
    case NullTest(_, x) => if LegalType(x, from).Some? then Some(TBool) else None
    case Not(x) =>
      var a := LegalType(x, from);
      if a.Some? && IsBoolean(a.value) then Some(TBool) else None
  }

  lemma KnownResolves(from: Scope, n: Name)
    requires Sane(from)
    ensures Resolve(from, n).Some? <==> Known(from, n)
    ensures Known(from, n) ==>
              && PlaceOf(from, n).Some? && Resolve(from, n).value == Entry(from, PlaceOf(from, n).value)
              && Resolve(from, n).value.ty == NamedType(from, n)
  {
    ResolveFindsTheName(from, n);
    if Known(from, n) {
      var p :| OnePlace(from, n, p);
    }
  }

  lemma ComparableIsAnalyzed(op: CmpOp, l: ExprType, r: ExprType)
    ensures AnalyzeCompare(op, l, r) == if Comparable(op, l, r) then Some(TBool) else None
  {
  }

  /** Analysis accepts exactly the legal expressions, with their types. */
  lemma {:induction false} LegalIsAnalyzed(e: Expr<Name>, from: Scope)
    requires Sane(from)
    ensures Analyze(e, from).Some? <==> LegalType(e, from).Some?
    ensures Analyze(e, from).Some? ==> LegalType(e, from) == Some(Analyze(e, from).value.ty)
  {
    match e
    case Column(n) => KnownResolves(from, n);
    case Literal(_) =>
    case Compare(op, l, r) =>
      LegalIsAnalyzed(l, from);
      LegalIsAnalyzed(r, from);
      if LegalType(l, from).Some? && LegalType(r, from).Some? {
        ComparableIsAnalyzed(op, LegalType(l, from).value, LegalType(r, from).value);
      }
    case Logic(_, l, r) =>
      LegalIsAnalyzed(l, from);
      LegalIsAnalyzed(r, from);
    case NullTest(_, x) => LegalIsAnalyzed(x, from);
    case Not(x) => LegalIsAnalyzed(x, from);
  }

  ghost predicate LegalPredicate(e: Expr<Name>, from: Scope) {
    LegalType(e, from).Some? && IsBoolean(LegalType(e, from).value)
  }

  lemma LegalPredicateIsAnalyzed(e: Expr<Name>, from: Scope)
    requires Sane(from)
    ensures AnalyzePredicate(e, from).Some? <==> LegalPredicate(e, from)
  {
    LegalIsAnalyzed(e, from);
  }

  // ---------------------------------------------------------------- FROM

  ghost predicate TableNamed(catalog: Catalog, name: string) {
    exists t :: t in catalog && t.name == name
  }

  lemma {:induction false} NamedIsFound(catalog: Catalog, name: string)
    ensures FindRelation(catalog, name).Some? <==> TableNamed(catalog, name)
  {
    if catalog != [] {
      NamedIsFound(catalog[1..], name);
      assert forall t :: t in catalog <==> t == catalog[0] || t in catalog[1..];
    }
  }

  /** Every table exists, none is named twice, and every ON is legal over the tables up to its own. */
  ghost predicate LegalFrom(catalog: Catalog, names: seq<string>, joins: seq<AstJoin>) {
    && |names| == |joins| + 1
    && (forall i :: 0 <= i < |names| ==> TableNamed(catalog, names[i]))
    && (forall i, j :: 0 <= i < j < |names| ==> names[i] != names[j])
    && (forall j :: 0 <= j < |joins| ==> LegalOn(catalog, names, joins, j))
  }

  ghost predicate LegalOn(catalog: Catalog, names: seq<string>, joins: seq<AstJoin>, j: nat)
    requires j < |joins| && |names| == |joins| + 1
  {
    LegalPredicate(joins[j].condition, Relations(catalog, names[..j + 2]))
  }

  lemma SameOn(catalog: Catalog, names: seq<string>, joins: seq<AstJoin>, j: nat)
    requires |names| == |joins| + 1 && joins != [] && j < |joins| - 1
    ensures LegalOn(catalog, names, joins, j) ==
            LegalOn(catalog, names[..|joins|], joins[..|joins| - 1], j)
  {
    assert names[..|joins|][..j + 2] == names[..j + 2];
  }

  lemma LastOn(catalog: Catalog, names: seq<string>, joins: seq<AstJoin>)
    requires |names| == |joins| + 1 && joins != []
    ensures LegalOn(catalog, names, joins, |joins| - 1) ==
            LegalPredicate(joins[|joins| - 1].condition, Relations(catalog, names))
  {
    assert names[..|joins| + 1] == names;
  }

  lemma LegalFromLess(catalog: Catalog, names: seq<string>, joins: seq<AstJoin>)
    requires joins != [] && LegalFrom(catalog, names, joins)
    ensures LegalFrom(catalog, names[..|joins|], joins[..|joins| - 1]) && TableNamed(catalog, names[|joins|])
    ensures names[|joins|] !in names[..|joins|]
    ensures LegalPredicate(joins[|joins| - 1].condition, Relations(catalog, names))
  {
    LastOn(catalog, names, joins);
    assert LegalOn(catalog, names, joins, |joins| - 1);
    var before, less := names[..|joins|], joins[..|joins| - 1];
    forall j | 0 <= j < |less| ensures LegalOn(catalog, before, less, j) {
      SameOn(catalog, names, joins, j);
      assert LegalOn(catalog, names, joins, j);
    }
  }

  lemma LegalFromMore(catalog: Catalog, names: seq<string>, joins: seq<AstJoin>)
    requires |names| == |joins| + 1 && joins != []
    requires LegalFrom(catalog, names[..|joins|], joins[..|joins| - 1]) && TableNamed(catalog, names[|joins|])
    requires names[|joins|] !in names[..|joins|]
    requires LegalPredicate(joins[|joins| - 1].condition, Relations(catalog, names))
    ensures LegalFrom(catalog, names, joins)
  {
    var before := names[..|joins|];
    forall i | 0 <= i < |names| ensures TableNamed(catalog, names[i]) {
      assert i < |joins| ==> TableNamed(catalog, before[i]);
    }
    forall i, j | 0 <= i < j < |names| ensures names[i] != names[j] {
      assert before[i] in before && (j < |joins| ==> before[i] != before[j]);
    }
    forall j | 0 <= j < |joins| ensures LegalOn(catalog, names, joins, j) {
      if j < |joins| - 1 {
        SameOn(catalog, names, joins, j);
        assert LegalOn(catalog, before, joins[..|joins| - 1], j);
      } else {
        LastOn(catalog, names, joins);
      }
    }
  }

  /** A relation repeats an id exactly when its name is repeated. */
  lemma RepeatedName(catalog: Catalog, scope: Scope, names: seq<string>, name: string)
    requires DistinctIds(catalog) && |scope| == |names| && FindRelation(catalog, name).Some?
    requires forall i :: 0 <= i < |names| ==> FindRelation(catalog, names[i]) == Some(scope[i])
    ensures HasId(scope, FindRelation(catalog, name).value.id) <==> name in names
  {
    var t := FindRelation(catalog, name).value;
    if HasId(scope, t.id) {
      var i :| 0 <= i < |scope| && scope[i].id == t.id;
      var a :| 0 <= a < |catalog| && catalog[a] == scope[i];
      var b :| 0 <= b < |catalog| && catalog[b] == t;
      assert a == b;
      assert names[i] == name;
    }
  }

  /** BindFrom accepts exactly the legal FROM clauses. */
  lemma {:induction false} LegalFromIsBound(catalog: Catalog, table: string, joins: seq<AstJoin>, names: seq<string>)
    requires CatalogOk(catalog) && |names| == |joins| + 1 && names[0] == table
    requires forall k :: 0 <= k < |joins| ==> names[k + 1] == joins[k].table
    ensures BindFrom(catalog, table, joins).Some? <==> LegalFrom(catalog, names, joins)
    decreases |joins|
  {
    NamedIsFound(catalog, names[|joins|]);
    if joins != [] {
      var n := |joins| - 1;
      LegalFromIsBound(catalog, table, joins[..n], names[..n + 1]);
      if BindFrom(catalog, table, joins[..n]).Some? && TableNamed(catalog, names[n + 1]) {
        LastTableIsBound(catalog, table, joins, names);
        if BindFrom(catalog, table, joins).Some? {
          LegalFromMore(catalog, names, joins);
        }
      }
      if LegalFrom(catalog, names, joins) {
        LegalFromLess(catalog, names, joins);
      }
    }
  }

  ghost function Scoped(catalog: Catalog, table: string, joins: seq<AstJoin>): Scope
    requires BindFrom(catalog, table, joins).Some?
  {
    BindFrom(catalog, table, joins).value.scope
  }

  lemma SaneMore(catalog: Catalog, scope: Scope, t: TableMeta)
    requires CatalogOk(catalog) && Sane(scope) && t in catalog && !HasId(scope, t.id)
    requires forall i :: 0 <= i < |scope| ==> scope[i].name != t.name
    ensures Sane(scope + [t])
  {
    assert MetadataOk(t);
  }

  lemma LastTableIsBound(catalog: Catalog, table: string, joins: seq<AstJoin>, names: seq<string>)
    requires CatalogOk(catalog) && |names| == |joins| + 1 && joins != [] && names[0] == table
    requires forall k :: 0 <= k < |joins| ==> names[k + 1] == joins[k].table
    requires BindFrom(catalog, table, joins[..|joins| - 1]).Some? && FindRelation(catalog, names[|joins|]).Some?
    ensures BindFrom(catalog, table, joins).Some? <==>
            && names[|joins|] !in names[..|joins|]
            && LegalPredicate(joins[|joins| - 1].condition, Relations(catalog, names))
  {
    var n := |joins| - 1;
    var t := FindRelation(catalog, names[n + 1]).value;
    var before := Scoped(catalog, table, joins[..n]);
    FromIsNamed(catalog, table, joins[..n], names[..n + 1]);
    RepeatedName(catalog, before, names[..n + 1], names[n + 1]);
    assert names[..|names| - 1] == names[..n + 1] && Relations(catalog, names) == before + [t];
    if names[n + 1] !in names[..n + 1] {
      ScopeIsSane(catalog, table, joins[..n], names[..n + 1]);
      SaneMore(catalog, before, t);
      LegalPredicateIsAnalyzed(joins[n].condition, before + [t]);
    }
  }

  lemma ScopeIsSane(catalog: Catalog, table: string, joins: seq<AstJoin>, names: seq<string>)
    requires CatalogOk(catalog) && BindFrom(catalog, table, joins).Some?
    requires |names| == |joins| + 1 && names[0] == table
    requires forall k :: 0 <= k < |joins| ==> names[k + 1] == joins[k].table
    ensures Sane(Scoped(catalog, table, joins))
    ensures |Scoped(catalog, table, joins)| == |names|
    ensures forall i :: 0 <= i < |names| ==> Scoped(catalog, table, joins)[i].name == names[i]
  {
    FromIsNamed(catalog, table, joins, names);
    FromShape(catalog, table, joins);
    var scope := Scoped(catalog, table, joins);
    forall i | 0 <= i < |scope| ensures DistinctColumns(scope[i].columns) {
      assert MetadataOk(scope[i]);
    }
    forall i, j | 0 <= i < j < |scope| ensures scope[i].name != scope[j].name {
      assert FindRelation(catalog, names[i]) == Some(scope[i]) && FindRelation(catalog, names[j]) == Some(scope[j]);
    }
  }

  // ---------------------------------------------------------------- the other clauses

  /** A plain column of an aggregate query is one of the grouped columns. */
  ghost predicate LegalColumn(from: Scope, name: Name, grouped: bool, groupBy: seq<Name>) {
    && Known(from, name)
    && (grouped ==> exists j :: 0 <= j < |groupBy| && PlaceOf(from, groupBy[j]) == PlaceOf(from, name))
  }

  /** SUM and AVG take numbers, MIN and MAX numbers and texts, COUNT any column or all of them. */
  ghost predicate LegalItem(from: Scope, item: AstItem, grouped: bool, groupBy: seq<Name>) {
    match item
    case AstColumn(name) => LegalColumn(from, name, grouped, groupBy)
    case AstAggregate(_, None) => true
    case AstAggregate(kind, Some(name)) =>
      && Known(from, name)
      && (kind.Sum? || kind.Avg? ==> IsNumber(NamedType(from, name)))
      && (kind.Min? || kind.Max? ==> IsNumber(NamedType(from, name)) || NamedType(from, name) == TVarchar)
  }

  ghost predicate LegalClauses(ast: SelectAst, from: Scope) {
    var grouped := HasAggregate(ast.items) || ast.groupBy != [];
    && (forall j :: 0 <= j < |ast.groupBy| ==> Known(from, ast.groupBy[j]))
    && (if ast.selectAll then !grouped
        else LegalItems(from, ast.items, grouped, ast.groupBy))
    && (ast.filter.Some? ==> LegalPredicate(ast.filter.value, from))
    && LegalOrder(from, ast.orderBy, grouped, ast.groupBy)
  }

  lemma {:induction false} GroupIsBound(names: seq<Name>, from: Scope)
    requires Sane(from)
    ensures BindGroup(names, from).Some? <==> forall j :: 0 <= j < |names| ==> Known(from, names[j])
  {
    if names != [] {
      var n := |names| - 1;
      GroupIsBound(names[..n], from);
      KnownResolves(from, names[n]);
      assert forall j :: 0 <= j < n ==> names[..n][j] == names[j];
    }
  }

  /** Two known names stand for one column exactly when they resolve alike. */
  lemma SamePlace(from: Scope, a: Name, b: Name)
    requires Sane(from) && Known(from, a) && Known(from, b)
    ensures Resolve(from, a).Some? && Resolve(from, b).Some?
    ensures PlaceOf(from, a) == PlaceOf(from, b) <==> Resolve(from, a).value.ref == Resolve(from, b).value.ref
  {
    KnownResolves(from, a);
    KnownResolves(from, b);
  }

  lemma GroupedIsNamed(from: Scope, name: Name, names: seq<Name>)
    requires Sane(from) && BindGroup(names, from).Some? && Known(from, name)
    ensures Resolve(from, name).Some?
    ensures Resolve(from, name).value.ref in BindGroup(names, from).value <==>
            exists j :: 0 <= j < |names| && PlaceOf(from, names[j]) == PlaceOf(from, name)
  {
    var columns := BindGroup(names, from).value;
    KnownResolves(from, name);
    GroupIsBound(names, from);
    SqlGroups.GroupColumnsBound(from, names);
    var c := Resolve(from, name).value.ref;
    if c in columns {
      var i :| 0 <= i < |columns| && columns[i] == c;
      assert SqlGroups.NamedBy(from, names, columns[i]);
      var j :| 0 <= j < |names| && Resolve(from, names[j]).Some? && Resolve(from, names[j]).value.ref == c;
      SamePlace(from, names[j], name);
    }
    forall j | 0 <= j < |names| && PlaceOf(from, names[j]) == PlaceOf(from, name) ensures c in columns {
      SamePlace(from, names[j], name);
    }
  }

  lemma ColumnIsBound(from: Scope, name: Name, grouped: bool, names: seq<Name>)
    requires Sane(from) && BindGroup(names, from).Some?
    ensures BindColumn(name, from, grouped, BindGroup(names, from).value).Some? <==>
            LegalColumn(from, name, grouped, names)
  {
    KnownResolves(from, name);
    if Known(from, name) {
      GroupedIsNamed(from, name, names);
    }
  }

  lemma AggregateIsBound(from: Scope, kind: AggregateKind, argument: Option<Name>, grouped: bool, names: seq<Name>)
    requires Sane(from)
    ensures AnalyzeAggregate(kind, argument, from).Some? <==>
            LegalItem(from, AstAggregate(kind, argument), grouped, names)
  {
    if argument.Some? {
      KnownResolves(from, argument.value);
      if Known(from, argument.value) {
        NamedTypeIsDeclared(from, argument.value);
      }
    }
  }

  lemma NamedTypeIsDeclared(from: Scope, n: Name)
    requires Known(from, n)
    ensures NamedType(from, n) == TNull ==> PlaceOf(from, n).None?
  {
  }

  lemma ItemIsBound(from: Scope, item: AstItem, grouped: bool, names: seq<Name>)
    requires Sane(from) && BindGroup(names, from).Some?
    ensures BindItem(item, from, grouped, BindGroup(names, from).value).Some? <==> LegalItem(from, item, grouped, names)
  {
    match item
    case AstColumn(name) => ColumnIsBound(from, name, grouped, names);
    case AstAggregate(kind, argument) => AggregateIsBound(from, kind, argument, grouped, names);
  }

  ghost predicate LegalItems(from: Scope, items: seq<AstItem>, grouped: bool, names: seq<Name>) {
    forall i :: 0 <= i < |items| ==> LegalItem(from, items[i], grouped, names)
  }

  lemma LegalItemsStep(from: Scope, items: seq<AstItem>, grouped: bool, names: seq<Name>)
    requires items != []
    ensures LegalItems(from, items, grouped, names) <==>
            LegalItems(from, items[..|items| - 1], grouped, names) &&
            LegalItem(from, items[|items| - 1], grouped, names)
  {
    if LegalItems(from, items[..|items| - 1], grouped, names) && LegalItem(from, items[|items| - 1], grouped, names) {
      forall i | 0 <= i < |items| ensures LegalItem(from, items[i], grouped, names) {
        assert i < |items| - 1 ==> items[..|items| - 1][i] == items[i];
      }
    }
  }

  lemma {:induction false} ItemsAreLegal(items: seq<AstItem>, from: Scope, grouped: bool, names: seq<Name>)
    requires Sane(from) && BindGroup(names, from).Some?
    ensures BindItems(items, from, grouped, BindGroup(names, from).value).Some? <==>
            LegalItems(from, items, grouped, names)
  {
    if items != [] {
      ItemsAreLegal(items[..|items| - 1], from, grouped, names);
      ItemIsBound(from, items[|items| - 1], grouped, names);
      LegalItemsStep(from, items, grouped, names);
    }
  }

  ghost predicate LegalOrder(from: Scope, keys: seq<AstSort>, grouped: bool, names: seq<Name>) {
    forall k :: 0 <= k < |keys| ==> LegalColumn(from, keys[k].name, grouped, names)
  }

  lemma LegalOrderStep(from: Scope, keys: seq<AstSort>, grouped: bool, names: seq<Name>)
    requires keys != []
    ensures LegalOrder(from, keys, grouped, names) <==>
            LegalOrder(from, keys[..|keys| - 1], grouped, names) &&
            LegalColumn(from, keys[|keys| - 1].name, grouped, names)
  {
    if LegalOrder(from, keys[..|keys| - 1], grouped, names) &&
        LegalColumn(from, keys[|keys| - 1].name, grouped, names) {
      forall k | 0 <= k < |keys| ensures LegalColumn(from, keys[k].name, grouped, names) {
        assert k < |keys| - 1 ==> keys[..|keys| - 1][k] == keys[k];
      }
    }
  }

  lemma {:induction false} OrderIsLegal(keys: seq<AstSort>, from: Scope, grouped: bool, names: seq<Name>)
    requires Sane(from) && BindGroup(names, from).Some?
    ensures BindOrder(keys, from, grouped, BindGroup(names, from).value).Some? <==>
            LegalOrder(from, keys, grouped, names)
  {
    if keys != [] {
      OrderIsLegal(keys[..|keys| - 1], from, grouped, names);
      ColumnIsBound(from, keys[|keys| - 1].name, grouped, names);
      LegalOrderStep(from, keys, grouped, names);
    }
  }

  lemma {:induction false} GroupEmpty(names: seq<Name>, from: Scope)
    requires BindGroup(names, from).Some?
    ensures BindGroup(names, from).value == [] <==> names == []
  {
  }

  lemma ClausesAreBound(ast: SelectAst, from: BoundFrom)
    requires Sane(from.scope) && from.scope != []
    ensures BindClauses(ast, from).Some? <==> LegalClauses(ast, from.scope)
  {
    GroupIsBound(ast.groupBy, from.scope);
    if BindGroup(ast.groupBy, from.scope).Some? {
      GroupEmpty(ast.groupBy, from.scope);
      var grouped := HasAggregate(ast.items) || ast.groupBy != [];
      ItemsAreLegal(ast.items, from.scope, grouped, ast.groupBy);
      OrderIsLegal(ast.orderBy, from.scope, grouped, ast.groupBy);
      if ast.filter.Some? {
        LegalPredicateIsAnalyzed(ast.filter.value, from.scope);
      }
    }
  }

  /**
   Analysis accepts a SELECT exactly when its tables exist, none is named twice, every name stands for one column of
   the tables in its sight, every condition is of boolean type, aggregates take the columns they can, and an aggregate
   query shows and sorts by grouped columns only.
   */
  lemma SelectAcceptedIffLegal(ast: SelectAst, catalog: Catalog)
    requires CatalogOk(catalog)
    ensures AnalyzeSelect(ast, catalog).Some? <==>
            && LegalFrom(catalog, TableNames(ast), ast.joins)
            && LegalClauses(ast, Relations(catalog, TableNames(ast)))
  {
    LegalFromIsBound(catalog, ast.table, ast.joins, TableNames(ast));
    if BindFrom(catalog, ast.table, ast.joins).Some? {
      FromShape(catalog, ast.table, ast.joins);
      FromIsSane(catalog, ast);
      ClausesAreBound(ast, BindFrom(catalog, ast.table, ast.joins).value);
    }
  }
}
