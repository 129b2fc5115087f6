/** INSERT and UPDATE: literals coerced by the analyzer (src/compiler/semantic.cpp) pass the executor's row checks
    (src/core/executor.cpp). */
module Writes {
  import opened Common
  import opened Values
  import opened Expressions
  import opened Binding
  import opened Plans
  import opened Distinct

  // ---------------------------------------------------------------- coercion

  /** coerce_assignment: the value itself, an INT widened, or a refusal. */
  function Coerce(v: Value, c: ColumnMeta): (r: Option<Value>)
    ensures r.Some? ==> ValueMatches(r.value, c)
    ensures r.Some? && v.Null? ==> r.value.Null?
  {
    match v
    case Null => if c.nullable then Some(Null) else None
    case Int(i) =>
      (match c.ty
       case IntType => Some(v)
       case BigIntType => Some(BigInt(i))
       case DoubleType => Some(Double(DoubleOfInt(i)))
       case _ => None)
    case BigInt(n) =>
      (match c.ty
       case BigIntType => Some(v)
       case DoubleType => Some(Double(DoubleOfInt(n)))
       case _ => None)
    case Double(_) => if c.ty.DoubleType? then Some(v) else None
    case Bool(_) => if c.ty.BooleanType? then Some(v) else None
    case Text(_) => if c.ty.VarcharType? then Some(v) else None
  }

  /** Coercion refuses exactly what cannot be stored: NULL in a NOT NULL column, or a type that does not widen. */
  lemma CoerceRefuses(v: Value, c: ColumnMeta)
    ensures Coerce(v, c).None? <==>
            if v.Null? then !c.nullable
            else
              var t := TypeOfValue(v);
              !(t == DeclaredType(c.ty) || (t.TInt? && (c.ty.BigIntType? || c.ty.DoubleType?)) ||
                  (t.TBigInt? && c.ty.DoubleType?))
  {
  }

  // ---------------------------------------------------------------- the column list

  /** The column list of an INSERT: each name found, none twice. */
  function BindNames(t: TableMeta, names: seq<string>): (r: Option<seq<nat>>)
    ensures r.Some? ==> |r.value| == |names|
    ensures r.Some? ==> forall i :: 0 <= i < |names| ==>
      r.value[i] < |t.columns| && t.columns[r.value[i]].name == names[i]
    ensures r.Some? ==> NoRepeats(r.value)
  {
    if names == [] then Some([])
    else
      var n := |names| - 1;
      match BindNames(t, names[..n])
      case None => None
      case Some(before) =>
        match FindColumn(t.columns, names[n])
        case None => None
        case Some(c) => if c in before then None else Some(before + [c])
  }

  predicate Covers(columns: seq<nat>, count: nat) {
    forall c :: 0 <= c < count ==> c in columns
  }

  /** The list names every column; an empty list stands for all of them. */
  predicate IsPermutation(columns: seq<nat>, count: nat) {
    |columns| == count && NoRepeats(columns) && forall i :: 0 <= i < |columns| ==> columns[i] < count
  }

  /** Distinct columns are all of them exactly when there are as many: the analyzer's search for a missing
      column always finds one when the counts differ. */
  lemma MissingIffShort(columns: seq<nat>, count: nat)
    requires NoRepeats(columns) && forall i :: 0 <= i < |columns| ==> columns[i] < count
    ensures Covers(columns, count) <==> |columns| == count
    ensures |columns| <= count
  {
    DistinctFit(columns, count);
    DistinctBelow(columns, count);
  }

  // ---------------------------------------------------------------- analyze_insert

  datatype InsertPlan = InsertPlan(table: nat, columns: seq<nat>, rows: seq<Row>)

  function Target(columns: seq<nat>, i: nat): nat
    requires columns == [] || i < |columns|
  {
    if columns == [] then i else columns[i]
  }

  /** The values of one VALUES row, coerced to their target columns. */
  function CoerceRow(t: TableMeta, columns: seq<nat>, row: Row): (r: Option<Row>)
    requires columns == [] || (|row| <= |columns| && forall i :: 0 <= i < |columns| ==> columns[i] < |t.columns|)
    requires |row| <= |t.columns|
    ensures r.Some? ==> |r.value| == |row|
    ensures r.Some? ==> forall i :: 0 <= i < |row| ==> Coerce(row[i], t.columns[Target(columns, i)]) == Some(r.value[i])
  {
    if row == [] then Some([])
    else
      var n := |row| - 1;
      match CoerceRow(t, columns, row[..n])
      case None => None
      case Some(before) =>
        match Coerce(row[n], t.columns[Target(columns, n)])
        case None => None
        case Some(v) => Some(before + [v])
  }

  function CoerceRows(t: TableMeta, columns: seq<nat>, rows: seq<Row>): (r: Option<seq<Row>>)
    requires columns == [] || IsPermutation(columns, |t.columns|)
    ensures r.Some? ==> |r.value| == |rows|
    ensures r.Some? ==> forall i :: 0 <= i < |rows| ==>
      |rows[i]| == |t.columns| && CoerceRow(t, columns, rows[i]) == Some(r.value[i])
  {
    if rows == [] then Some([])
    else
      var n := |rows| - 1;
      match CoerceRows(t, columns, rows[..n])
      case None => None
      case Some(before) =>
        if |rows[n]| != |t.columns| then None
        else
          match CoerceRow(t, columns, rows[n])
          case None => None
          case Some(row) => Some(before + [row])
  }

  /** analyze_insert, for the table the name resolves to. */
  function AnalyzeInsert(t: TableMeta, names: seq<string>, rows: seq<Row>): Option<InsertPlan> {
    match BindNames(t, names)
    case None => None
    case Some(columns) =>
      if names != [] && !Covers(columns, |t.columns|) then None
      else
        MissingIffShort(columns, |t.columns|);
        match CoerceRows(t, columns, rows)
        case None => None
        case Some(bound) => Some(InsertPlan(t.id, columns, bound))
  }

  // ---------------------------------------------------------------- execute_insert

  /** The physical row: value i goes to column columns[i]. */
  function Scatter(columns: seq<nat>, row: Row, into: Row): (r: Row)
    requires |row| <= |columns| && forall i :: 0 <= i < |columns| ==> columns[i] < |into|
    ensures |r| == |into|
  {
    if row == [] then into else Scatter(columns, row[..|row| - 1], into)[columns[|row| - 1] := row[|row| - 1]]
  }

  function PhysicalRow(t: TableMeta, columns: seq<nat>, row: Row): Row
    requires columns == [] || (|row| <= |columns| && forall i :: 0 <= i < |columns| ==> columns[i] < |t.columns|)
  {
    if columns == [] then row else Scatter(columns, row, seq(|t.columns|, _ => Null))
  }

  lemma {:induction false} ScatterPlaces(columns: seq<nat>, row: Row, into: Row, i: nat)
    requires NoRepeats(columns) && i < |row| <= |columns| && forall k :: 0 <= k < |columns| ==> columns[k] < |into|
    ensures Scatter(columns, row, into)[columns[i]] == row[i]
    decreases |row|
  {
    if i < |row| - 1 {
      ScatterPlaces(columns, row[..|row| - 1], into, i);
    }
  }

  /** The executor's checks on an insert plan. */
  predicate InsertAccepted(t: TableMeta, plan: InsertPlan) {
    && plan.table == t.id && plan.rows != []
    && (plan.columns == [] || IsPermutation(plan.columns, |t.columns|))
    && (forall i :: 0 <= i < |plan.rows| ==>
        |plan.rows[i]| == |t.columns| && PhysicalOk(t, PhysicalRow(t, plan.columns, plan.rows[i])))
  }

  lemma RowAccepted(t: TableMeta, columns: seq<nat>, row: Row, bound: Row)
    requires columns == [] || IsPermutation(columns, |t.columns|)
    requires |row| == |t.columns| && CoerceRow(t, columns, row) == Some(bound)
    ensures PhysicalOk(t, PhysicalRow(t, columns, bound))
    ensures forall i :: 0 <= i < |row| ==>
      Coerce(row[i], t.columns[Target(columns, i)]) == Some(PhysicalRow(t, columns, bound)[Target(columns, i)])
  {
    var physical := PhysicalRow(t, columns, bound);
    forall i | 0 <= i < |row| ensures physical[Target(columns, i)] == bound[i] {
      if columns != [] {
        ScatterPlaces(columns, bound, seq(|t.columns|, _ => Null), i);
      }
    }
    if columns != [] {
      MissingIffShort(columns, |t.columns|);
    }
    forall c | 0 <= c < |physical| ensures ValueMatches(physical[c], t.columns[c]) {
      var i := if columns == [] then c else IndexOf(columns, c);
      assert Target(columns, i) == c;
    }
  }

  function IndexOf(s: seq<nat>, x: nat): (i: nat)
    requires x in s
    ensures i < |s| && s[i] == x
  {
    if s[0] == x then 0 else 1 + IndexOf(s[1..], x)
  }

  /** In the row stored for input row i every value is in the column named for it, coerced to the column's type. */
  ghost predicate EachInPlace(t: TableMeta, plan: InsertPlan, rows: seq<Row>, i: nat) {
    && i < |rows| && i < |plan.rows| && |rows[i]| == |plan.rows[i]| == |t.columns|
    && (plan.columns == [] || IsPermutation(plan.columns, |t.columns|))
    && var stored := PhysicalRow(t, plan.columns, plan.rows[i]);
       && |stored| == |t.columns|
       && forall k :: 0 <= k < |rows[i]| ==>
            Target(plan.columns, k) < |stored| &&
            Coerce(rows[i][k], t.columns[Target(plan.columns, k)]) == Some(stored[Target(plan.columns, k)])
  }

  /** Every analyzed INSERT passes the executor's checks, and each column gets its own value, coerced. */
  lemma InsertIsAccepted(t: TableMeta, names: seq<string>, rows: seq<Row>)
    requires AnalyzeInsert(t, names, rows).Some? && rows != [] && t.columns != []
    ensures InsertAccepted(t, AnalyzeInsert(t, names, rows).value) &&
      |AnalyzeInsert(t, names, rows).value.rows| == |rows|
    ensures forall i :: 0 <= i < |rows| ==> EachInPlace(t, AnalyzeInsert(t, names, rows).value, rows, i)
  {
    var plan := AnalyzeInsert(t, names, rows).value;
    MissingIffShort(plan.columns, |t.columns|);
    forall i | 0 <= i < |plan.rows|
      ensures |plan.rows[i]| == |t.columns| && PhysicalOk(t, PhysicalRow(t, plan.columns, plan.rows[i]))
      ensures EachInPlace(t, plan, rows, i)
    {
      RowAccepted(t, plan.columns, rows[i], plan.rows[i]);
    }
  }

  // ---------------------------------------------------------------- updates

  datatype Assignment = Assignment(column: nat, value: Value)

  datatype AstAssignment = AstAssignment(name: string, value: Value)

  /** The SET list of an UPDATE: columns found, none twice, values coerced. */
  function BindAssignments(t: TableMeta, assignments: seq<AstAssignment>): (r: Option<seq<Assignment>>)
    ensures r.Some? ==> |r.value| == |assignments|
    ensures r.Some? ==> AssignmentsOk(t, r.value)
  {
    if assignments == [] then Some([])
    else
      var n := |assignments| - 1;
      match BindAssignments(t, assignments[..n])
      case None => None
      case Some(before) =>
        match FindColumn(t.columns, assignments[n].name)
        case None => None
        case Some(c) =>
          if exists i :: 0 <= i < |before| && before[i].column == c then None
          else
            match Coerce(assignments[n].value, t.columns[c])
            case None => None
            case Some(v) => Some(before + [Assignment(c, v)])
  }

  /** The executor's checks on the assignments. */
  predicate AssignmentsOk(t: TableMeta, assignments: seq<Assignment>) {
    && (forall i :: 0 <= i < |assignments| ==>
          assignments[i].column < |t.columns| && ValueMatches(assignments[i].value, t.columns[assignments[i].column]))
    && (forall i, j :: 0 <= i < j < |assignments| ==> assignments[i].column != assignments[j].column)
  }

  function Assign(row: Row, assignments: seq<Assignment>): (r: Row)
    requires forall i :: 0 <= i < |assignments| ==> assignments[i].column < |row|
    ensures |r| == |row|
  {
    if assignments == [] then row
    else
      var n := |assignments| - 1;
      Assign(row, assignments[..n])[assignments[n].column := assignments[n].value]
  }

  /** Every row an accepted UPDATE writes passes the row check, and only assigned columns change. */
  lemma {:induction false} UpdatedRowIsAccepted(t: TableMeta, row: Row, assignments: seq<Assignment>)
    requires PhysicalOk(t, row) && AssignmentsOk(t, assignments)
    ensures PhysicalOk(t, Assign(row, assignments))
    ensures forall c :: 0 <= c < |row| && (forall i :: 0 <= i < |assignments| ==> assignments[i].column != c) ==>
      Assign(row, assignments)[c] == row[c]
    ensures forall i :: 0 <= i < |assignments| ==>
      Assign(row, assignments)[assignments[i].column] == assignments[i].value
  {
    if assignments != [] {
      UpdatedRowIsAccepted(t, row, assignments[..|assignments| - 1]);
    }
  }
}
