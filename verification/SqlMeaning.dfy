/**
 What a SELECT means, in the terms of the statement: tuples of stored rows, columns by their names, no plan, no slots
 and no analysis. The order of the clauses is that of SQL: FROM with every ON, WHERE, GROUP BY, ORDER BY, the items.
 */
module SqlMeaning {
  import opened Common
  import opened Values
  import opened Expressions
  import opened Optimizer
  import opened Binding
  import opened Aggregates
  import opened Plans
  import opened Select
  import opened Comparisons
  import opened Execution
  import Keys

  /** One stored row of each relation, in FROM order. */
  type Tuple = seq<Row>

  // ---------------------------------------------------------------- names

  datatype Place = Place(relation: nat, column: nat)

  /** The name stands for this column: its own name, and the relation's when it is qualified. */
  predicate NamedAt(from: Scope, n: Name, p: Place) {
    && p.relation < |from| && p.column < |from[p.relation].columns|
    && from[p.relation].columns[p.column].name == n.name
    && (n.qualifier.Some? ==> from[p.relation].name == n.qualifier.value)
  }

  ghost predicate OnePlace(from: Scope, n: Name, p: Place) {
    NamedAt(from, n, p) && forall q :: NamedAt(from, n, q) ==> q == p
  }

  ghost function PlaceOf(from: Scope, n: Name): (p: Option<Place>)
    ensures p.Some? ==> NamedAt(from, n, p.value)
  {
    if p: Place :| NamedAt(from, n, p) then Some(p) else None
  }

  function ValueAt(t: Tuple, p: Place): Value {
    if p.relation < |t| && p.column < |t[p.relation]| then t[p.relation][p.column] else Null
  }

  /** The value of a named column in a tuple. */
  ghost function ValueOf(from: Scope, t: Tuple, n: Name): Value {
    match PlaceOf(from, n)
    case None => Null
    case Some(p) => ValueAt(t, p)
  }

  ghost function ValuesOf(from: Scope, t: Tuple, names: seq<Name>): (r: seq<Value>)
    ensures |r| == |names| && forall i :: 0 <= i < |names| ==> r[i] == ValueOf(from, t, names[i])
  {
    seq(|names|, i requires 0 <= i < |names| => ValueOf(from, t, names[i]))
  }

  ghost function Env(from: Scope, t: Tuple): Name -> Value {
    n => ValueOf(from, t, n)
  }

  /** The condition is true of the tuple; false and NULL are not. */
  ghost predicate IsTrue(e: Expr<Name>, from: Scope, t: Tuple) {
    Meaning(e, Env(from, t)) == Ok(Bool(true))
  }

  // ---------------------------------------------------------------- FROM and WHERE

  function TableNames(ast: SelectAst): (r: seq<string>)
    ensures |r| == |ast.joins| + 1 && r[0] == ast.table
    ensures forall k :: 0 <= k < |ast.joins| ==> r[k + 1] == ast.joins[k].table
  {
    [ast.table] + seq(|ast.joins|, k requires 0 <= k < |ast.joins| => ast.joins[k].table)
  }

  /** The tables of the names; a name without a table adds nothing. */
  function Relations(catalog: Catalog, names: seq<string>): Scope {
    if names == [] then []
    else
      Relations(catalog, names[..|names| - 1]) +
      match FindRelation(catalog, names[|names| - 1])
      case None => []
      case Some(t) => [t]
  }

  function Contents(tables: Tables, from: Scope): (r: seq<seq<Row>>)
    ensures |r| == |from| && forall i :: 0 <= i < |r| ==> r[i] == tables(from[i].id)
  {
    seq(|from|, i requires 0 <= i < |from| => tables(from[i].id))
  }

  function With(t: Tuple, rows: seq<Row>): (r: seq<Tuple>)
    ensures |r| == |rows| && forall i :: 0 <= i < |r| ==> r[i] == t + [rows[i]]
  {
    seq(|rows|, i requires 0 <= i < |rows| => t + [rows[i]])
  }

  function Extend(tuples: seq<Tuple>, rows: seq<Row>): seq<Tuple> {
    if tuples == [] then [] else Extend(tuples[..|tuples| - 1], rows) + With(tuples[|tuples| - 1], rows)
  }

  /** Every choice of one row from each table; the last table's rows change fastest. */
  function AllTuples(contents: seq<seq<Row>>): seq<Tuple> {
    if contents == [] then [[]] else Extend(AllTuples(contents[..|contents| - 1]), contents[|contents| - 1])
  }

  /** The elements that satisfy p, in order. */
  ghost function Keep<T(!new)>(ts: seq<T>, p: T -> bool): seq<T> {
    if ts == [] then []
    else Keep(ts[..|ts| - 1], p) + if p(ts[|ts| - 1]) then [ts[|ts| - 1]] else []
  }

  /** The first k ON conditions are true; each sees the relations up to its own. */
  ghost predicate Joined(ast: SelectAst, from: Scope, t: Tuple, k: nat)
    requires k <= |ast.joins|
  {
    forall j :: 0 <= j < k && j + 2 <= |from| && j + 2 <= |t| ==>
      IsTrue(ast.joins[j].condition, from[..j + 2], t[..j + 2])
  }

  ghost predicate Qualifies(ast: SelectAst, from: Scope, t: Tuple) {
    Joined(ast, from, t, |ast.joins|) && (ast.filter.Some? ==> IsTrue(ast.filter.value, from, t))
  }

  ghost function Qualifying(ast: SelectAst, from: Scope): Tuple -> bool {
    t => Qualifies(ast, from, t)
  }

  /** The tuples on which every ON and the WHERE are true. */
  ghost function Selected(ast: SelectAst, from: Scope, tables: Tables): seq<Tuple> {
    Keep(AllTuples(Contents(tables, from)), Qualifying(ast, from))
  }

  // ---------------------------------------------------------------- GROUP BY

  /** The tuples that make one output row. */
  type Unit = seq<Tuple>

  /** The grouped columns agree; NULL agrees with NULL, a NaN with nothing. */
  ghost predicate SameGroup(from: Scope, names: seq<Name>, a: Tuple, b: Tuple) {
    Keys.KeysEqual(ValuesOf(from, a, names), ValuesOf(from, b, names))
  }

  ghost function With1(from: Scope, names: seq<Name>, a: Tuple): Tuple -> bool {
    b => SameGroup(from, names, a, b)
  }

  ghost function Without1(from: Scope, names: seq<Name>, a: Tuple): Tuple -> bool {
    b => !SameGroup(from, names, a, b)
  }

  lemma {:induction false} KeepShorter<T(!new)>(ts: seq<T>, p: T -> bool)
    ensures |Keep(ts, p)| <= |ts|
  {
    if ts != [] {
      KeepShorter(ts[..|ts| - 1], p);
    }
  }

  /** The first tuple and those after it that agree with it, then the groups of the others. */
  ghost function Groups(from: Scope, names: seq<Name>, ts: seq<Tuple>): seq<Unit>
    decreases |ts|
  {
    if ts == [] then []
    else
      KeepShorter(ts[1..], Without1(from, names, ts[0]));
      [[ts[0]] + Keep(ts[1..], With1(from, names, ts[0]))] +
      Groups(from, names, Keep(ts[1..], Without1(from, names, ts[0])))
  }

  function Alone(ts: seq<Tuple>): (r: seq<Unit>)
    ensures |r| == |ts| && forall i :: 0 <= i < |r| ==> r[i] == [ts[i]]
  {
    seq(|ts|, i requires 0 <= i < |ts| => [ts[i]])
  }

  /** Aggregates without GROUP BY make one row of all tuples, even of none. */
  ghost function Units(ast: SelectAst, from: Scope, ts: seq<Tuple>): seq<Unit> {
    if ast.groupBy != [] then Groups(from, ast.groupBy, ts)
    else if HasAggregate(ast.items) then [ts]
    else Alone(ts)
  }

  // ---------------------------------------------------------------- ORDER BY

  function SortNames(keys: seq<AstSort>): (r: seq<Name>)
    ensures |r| == |keys| && forall i :: 0 <= i < |r| ==> r[i] == keys[i].name
  {
    seq(|keys|, i requires 0 <= i < |keys| => keys[i].name)
  }

  function SortDirections(keys: seq<AstSort>): (r: seq<bool>)
    ensures |r| == |keys| && forall i :: 0 <= i < |r| ==> r[i] == keys[i].ascending
  {
    seq(|keys|, i requires 0 <= i < |keys| => keys[i].ascending)
  }

  /** The values a unit is sorted by, those of its first tuple. */
  ghost function OrderValues(from: Scope, keys: seq<AstSort>, u: Unit): (r: seq<Value>)
    ensures |r| == |keys|
  {
    ValuesOf(from, if u == [] then [] else u[0], SortNames(keys))
  }

  /** u enters behind every unit that may stand before it. */
  ghost function PutInOrder(from: Scope, keys: seq<AstSort>, us: seq<Unit>, u: Unit): seq<Unit> {
    if us == [] then [u]
    else
      var last := us[|us| - 1];
      if InOrder(OrderValues(from, keys, last), OrderValues(from, keys, u), SortDirections(keys)) then us + [u]
      else PutInOrder(from, keys, us[..|us| - 1], u) + [last]
  }

  /** In order at the first key that differs, NULLs last; ties as they came. */
  ghost function InSortOrder(from: Scope, keys: seq<AstSort>, us: seq<Unit>): seq<Unit> {
    if us == [] || keys == [] then us
    else PutInOrder(from, keys, InSortOrder(from, keys, us[..|us| - 1]), us[|us| - 1])
  }

  // ---------------------------------------------------------------- the items

  function SumOfDoubles(f: Floats, values: seq<Value>): nat {
    if values == [] then 0
    else
      var last := values[|values| - 1];
      f.addDouble(SumOfDoubles(f, values[..|values| - 1]), if last.Double? then last.bits else 0)
  }

  function Total(f: Floats, values: seq<Value>): nat {
    if values == [] then 0 else f.addExtended(Total(f, values[..|values| - 1]), f.extend(values[|values| - 1]))
  }

  function IntegerSum(values: seq<Value>): int {
    if values == [] then 0
    else
      var last := values[|values| - 1];
      IntegerSum(values[..|values| - 1]) + if last.Int? then last.i else if last.BigInt? then last.n else 0
  }

  /** The first of the values that no other precedes, or that precedes no other. */
  ghost function Best(largest: bool, values: seq<Value>): Value
    requires values != []
  {
    if |values| == 1 then values[0]
    else
      var best, last := Best(largest, values[..|values| - 1]), values[|values| - 1];
      if (if largest then Precedes(best, last) else Precedes(last, best)) then last else best
  }

  /** An aggregate of the non-NULL values of a column of the type. */
  ghost function AggregateOf(f: Floats, kind: AggregateKind, ty: Type, values: seq<Value>): Value {
    if kind.Count? then BigInt(|values|)
    else if values == [] then Null
    else
      match kind
      case Sum => if ty.DoubleType? then Double(SumOfDoubles(f, values)) else BigInt(IntegerSum(values))
      case Avg => Double(f.average(Total(f, values), |values|))
      case Min => Best(false, values)
      case Max => Best(true, values)
  }

  /** The non-NULL values of a column, in the order of the tuples. */
  function Present(u: Unit, p: Place): seq<Value> {
    if u == [] then []
    else
      var v := ValueAt(u[|u| - 1], p);
      Present(u[..|u| - 1], p) + if v.Null? then [] else [v]
  }

  ghost function ItemValue(f: Floats, from: Scope, item: AstItem, u: Unit): Value {
    match item
    case AstColumn(name) => ValueOf(from, if u == [] then [] else u[0], name)
    case AstAggregate(_, None) => BigInt(|u|)
    case AstAggregate(kind, Some(name)) =>
      match PlaceOf(from, name)
      case None => Null
      case Some(p) => AggregateOf(f, kind, from[p.relation].columns[p.column].ty, Present(u, p))
  }

  function Flat(t: Tuple): Row {
    if t == [] then [] else Flat(t[..|t| - 1]) + t[|t| - 1]
  }

  /** Item i in position i; a star is all columns of all relations. */
  ghost function OutputOf(f: Floats, ast: SelectAst, from: Scope, u: Unit): Row {
    if ast.selectAll then Flat(if u == [] then [] else u[0])
    else seq(|ast.items|, i requires 0 <= i < |ast.items| => ItemValue(f, from, ast.items[i], u))
  }

  ghost function OutputsOf(f: Floats, ast: SelectAst, from: Scope, us: seq<Unit>): (r: seq<Row>)
    ensures |r| == |us| && forall i :: 0 <= i < |r| ==> r[i] == OutputOf(f, ast, from, us[i])
  {
    seq(|us|, i requires 0 <= i < |us| => OutputOf(f, ast, from, us[i]))
  }

  /** The answer of the statement. */
  ghost function SqlAnswer(f: Floats, ast: SelectAst, catalog: Catalog, tables: Tables): seq<Row> {
    var from := Relations(catalog, TableNames(ast));
    OutputsOf(f, ast, from, InSortOrder(from, ast.orderBy, Units(ast, from, Selected(ast, from, tables))))
  }
}
