/** DELETE and UPDATE: analysis and planning (src/compiler/semantic.cpp, src/compiler/planner.cpp), and the records
    the executor then touches (src/core/executor.cpp). */
module Mutations {
  import opened Common
  import opened Values
  import opened Expressions
  import opened Optimizer
  import opened Binding
  import opened Pipeline
  import opened Plans
  import opened Select
  import opened SelectAnalysis
  import opened Writes
  import SelectPlans
  import Parser

  /** A parsed DELETE has no SET list. */
  datatype MutationAst = MutationAst(table: string, filter: Option<Expr<Name>>, sets: Option<seq<AstAssignment>>)

  datatype BoundMutation = BoundMutation(table: nat, filter: Option<Expr<BoundColumn>>, sets: Option<seq<Assignment>>)

  datatype MutationPlan = MutationPlan(table: nat, columns: seq<ScanColumn>, filter: Option<Expr<nat>>,
      sets: Option<seq<Assignment>>)

  datatype Stored = Stored(rid: nat, row: Row)

  // ---------------------------------------------------------------- compilation

  function BindSets(t: TableMeta, sets: Option<seq<AstAssignment>>): Option<Option<seq<Assignment>>> {
    if sets.None? then Some(None) else Wrap(BindAssignments(t, sets.value))
  }

  function BindFilter(t: TableMeta, filter: Option<Expr<Name>>): Option<Option<Expr<BoundColumn>>> {
    if filter.None? then Some(None) else Wrap(AnalyzePredicate(filter.value, [t]))
  }

  /** analyze_delete and analyze_update. */
  function AnalyzeMutation(ast: MutationAst, catalog: Catalog): Option<BoundMutation> {
    match FindRelation(catalog, ast.table)
    case None => None
    case Some(t) =>
      match BindSets(t, ast.sets)
      case None => None
      case Some(sets) =>
        match BindFilter(t, ast.filter)
        case None => None
        case Some(filter) => Some(BoundMutation(t.id, filter, sets))
  }

  function OptimizeMutation(b: BoundMutation): BoundMutation {
    b.(filter := OptimizePredicate(b.filter))
  }

  /** generate_plan for DELETE and UPDATE. */
  function GenerateMutation(b: BoundMutation, catalog: Catalog): Option<MutationPlan> {
    match FindTable(catalog, b.table)
    case None => None
    case Some(t) =>
      match PlanFilter(b.filter, BuildBindings([t], 0))
      case None => None
      case Some(filter) =>
        if b.sets.Some? && exists i :: 0 <= i < |b.sets.value| && b.sets.value[i].column >= |t.columns| then None
        else Some(MutationPlan(t.id, ScanColumns(|t.columns|, 0), filter, b.sets))
  }

  function CompileMutation(ast: MutationAst, catalog: Catalog): Option<MutationPlan> {
    match AnalyzeMutation(ast, catalog)
    case None => None
    case Some(b) => GenerateMutation(OptimizeMutation(b), catalog)
  }

  // ---------------------------------------------------------------- the executor

  /** The checks of execute_delete and execute_update before they open the table. */
  predicate MutationValid(t: TableMeta, plan: MutationPlan) {
    && MetadataOk(t) && ScanOk(t, plan.columns)
    && (plan.sets.Some? ==> plan.sets.value != [] && AssignmentsOk(t, plan.sets.value))
    && (plan.filter.Some? ==> ValidPredicate(plan.filter.value, Materialize(ValidationRow(t), plan.columns)))
  }

  /** The row an update writes; a delete leaves it as it is. */
  function Rewrite(row: Row, sets: Option<seq<Assignment>>): (r: Row)
    requires sets.Some? ==> forall i :: 0 <= i < |sets.value| ==> sets.value[i].column < |row|
    ensures |r| == |row|
  {
    if sets.None? then row else Assign(row, sets.value)
  }

  /** What the scan callback does with one record: None when the predicate is not true of it. */
  function TargetOf(t: TableMeta, plan: MutationPlan, record: Stored): Result<Option<Stored>, Error>
    requires plan.sets.Some? ==> AssignmentsOk(t, plan.sets.value)
  {
    if !PhysicalOk(t, record.row) || !ScanOk(t, plan.columns) then Err(BadType)
    else
      var keep := if plan.filter.None? then Ok(true)
          else EvaluatePredicate(plan.filter.value, Materialize(record.row, plan.columns));
      match keep
      case Err(error) => Err(error)
      case Ok(false) => Ok(None)
      case Ok(true) =>
        var row := Rewrite(record.row, plan.sets);
        if plan.sets.Some? && !PhysicalOk(t, row) then Err(BadType) else Ok(Some(Stored(record.rid, row)))
  }

  function Targets(t: TableMeta, plan: MutationPlan, records: seq<Stored>): Result<seq<Stored>, Error>
    requires plan.sets.Some? ==> AssignmentsOk(t, plan.sets.value)
  {
    if records == [] then Ok([])
    else
      match Targets(t, plan, records[..|records| - 1])
      case Err(error) => Err(error)
      case Ok(before) =>
        match TargetOf(t, plan, records[|records| - 1])
        case Err(error) => Err(error)
        case Ok(None) => Ok(before)
        case Ok(Some(target)) => Ok(before + [target])
  }

  lemma {:induction false} TargetsStop(t: TableMeta, plan: MutationPlan, records: seq<Stored>, i: nat)
    requires plan.sets.Some? ==> AssignmentsOk(t, plan.sets.value)
    requires i <= |records| && Targets(t, plan, records[..i]).Err?
    ensures Targets(t, plan, records) == Targets(t, plan, records[..i])
    decreases |records|
  {
    var n := |records| - 1;
    if i == |records| {
      assert records[..i] == records;
    } else {
      assert records[..n][..i] == records[..i];
      TargetsStop(t, plan, records[..n], i);
    }
  }

  /** The scan of execute_delete and execute_update. */
  method ScanTargets(t: TableMeta, plan: MutationPlan, records: seq<Stored>) returns (r: Result<seq<Stored>, Error>)
    requires plan.sets.Some? ==> AssignmentsOk(t, plan.sets.value)
    ensures r == Targets(t, plan, records)
  {
    var targets := [];
    for i := 0 to |records|
      invariant Targets(t, plan, records[..i]) == Ok(targets)
    {
      assert records[..i + 1][..i] == records[..i];
      match TargetOf(t, plan, records[i])
      case Err(error) =>
        TargetsStop(t, plan, records, i + 1);
        return Err(error);
      case Ok(None) =>
      case Ok(Some(target)) =>
        targets := targets + [target];
    }
    assert records[..|records|] == records;
    r := Ok(targets);
  }

  // ---------------------------------------------------------------- acceptance

  /** What the parser guarantees: the predicate was read within the budget, and a SET list is not empty. */
  ghost predicate ReadMutation(ast: MutationAst) {
    && (ast.filter.Some? ==> exists source :: ReadFilter(ast.filter.value, source))
    && (ast.sets.Some? ==> ast.sets.value != [])
  }

  /** A statement on table t that passed parsing and analysis over an open database's catalog. */
  ghost predicate AnalyzedMutation(ast: MutationAst, catalog: Catalog, t: TableMeta) {
    && CatalogOk(catalog) && AnalyzeMutation(ast, catalog).Some? && FindRelation(catalog, ast.table) == Some(t)
    && ReadMutation(ast)
  }

  /** The parser read the predicate with its whole budget. */
  predicate ReadFilter(e: Expr<Name>, source: Parser.Tokens) {
    Parser.ParsedInOrder([e], [source], Parser.MAX_EXPRESSION_COMPLEXITY)
  }

  ghost predicate GoodMutation(b: BoundMutation, t: TableMeta) {
    && b.table == t.id && MetadataOk(t)
    && (b.filter.Some? ==> GoodPredicate(b.filter.value, [t]))
    && (b.sets.Some? ==> b.sets.value != [] && AssignmentsOk(t, b.sets.value))
  }

  lemma MutationGood(ast: MutationAst, catalog: Catalog, t: TableMeta)
    requires AnalyzedMutation(ast, catalog, t)
    ensures FindTable(catalog, t.id) == Some(t) && GoodMutation(AnalyzeMutation(ast, catalog).value, t)
  {
    SelectPlans.FindTableOf(catalog, t);
    if ast.filter.Some? {
      var source :| ReadFilter(ast.filter.value, source);
      Parser.StatementWithinBudget([ast.filter.value], [source], Parser.MAX_EXPRESSION_COMPLEXITY);
      assert [ast.filter.value][0] == ast.filter.value;
      PredicateGood(ast.filter.value, [t]);
    }
  }

  lemma OneRelationRow(t: TableMeta)
    ensures RowOf([t], 0, Declared([t])) == Materialize(ValidationRow(t), ScanColumns(|t.columns|, 0))
    ensures ScanOk(t, ScanColumns(|t.columns|, 0))
  {
    assert RowOf([t][1..], |t.columns|, Declared([t])) == [];
    forall c | 0 <= c < |t.columns| ensures Declared([t])(BoundColumn(t.id, c)) == ValidationValue(t.columns[c].ty) {
    }
  }

  /** Every analyzed DELETE and UPDATE is planned, and its plan passes the executor's checks. */
  lemma MutationIsAccepted(ast: MutationAst, catalog: Catalog, t: TableMeta)
    requires AnalyzedMutation(ast, catalog, t)
    ensures CompileMutation(ast, catalog).Some? && MutationValid(t, CompileMutation(ast, catalog).value)
  {
    MutationGood(ast, catalog, t);
    var b := AnalyzeMutation(ast, catalog).value;
    OneRelationRow(t);
    if OptimizePredicate(b.filter).Some? {
      FilterIsValid(b.filter.value, t);
    }
  }

  lemma FilterIsValid(e: Expr<BoundColumn>, t: TableMeta)
    requires GoodPredicate(e, [t])
    ensures var plan := GenerateExpr(Optimize(e).expr, BuildBindings([t], 0));
            plan.Some? && ValidPredicate(plan.value, Materialize(ValidationRow(t), ScanColumns(|t.columns|, 0)))
  {
    OptimizeGoodPredicate(e, [t]);
    OneRelationRow(t);
    GenerateKeepsType(Optimize(e).expr, [t], 0, 0);
  }

  // ---------------------------------------------------------------- exactly the matching records

  /** The columns of the one relation, as a stored row holds them. */
  ghost function EnvOfRow(t: TableMeta, row: Row): BoundColumn -> Value {
    (b: BoundColumn) => if b.table == t.id && b.column < |row| then row[b.column] else Null
  }

  lemma RowOfTable(t: TableMeta, row: Row)
    requires PhysicalOk(t, row)
    ensures RowHolds(Materialize(row, ScanColumns(|t.columns|, 0)), [t], 0, EnvOfRow(t, row))
    ensures EnvOk(EnvOfRow(t, row), Types([t]))
  {
    var env := EnvOfRow(t, row);
    assert RowOf([t][1..], |t.columns|, env) == [];
    assert RowOf([t], 0, env) == Materialize(row, ScanColumns(|t.columns|, 0));
    RowOfHolds([t], 0, env);
    forall b ensures HasType(env(b), Types([t])(b)) {
      assert [t][1..] == [];
    }
  }

  /** Reference: the records, in order, of which the analyzed predicate is true, with the rows they get. */
  ghost function Chosen(t: TableMeta, b: BoundMutation, records: seq<Stored>): seq<Stored>
    requires b.sets.Some? ==> AssignmentsOk(t, b.sets.value)
    requires forall i :: 0 <= i < |records| ==> PhysicalOk(t, records[i].row)
  {
    if records == [] then []
    else
      var last := records[|records| - 1];
      assert PhysicalOk(t, last.row);
      Chosen(t, b, records[..|records| - 1]) +
      if Passes(b.filter, EnvOfRow(t, last.row)) then [Stored(last.rid, Rewrite(last.row, b.sets))] else []
  }

  lemma FilterDecides(t: TableMeta, filter: Option<Expr<BoundColumn>>, row: Row)
    requires PhysicalOk(t, row) && (filter.Some? ==> GoodPredicate(filter.value, [t]))
    ensures var o := OptimizePredicate(filter);
            var plan := PlanFilter(o, BuildBindings([t], 0));
            && plan.Some?
            && Passes(filter, EnvOfRow(t, row)) ==
               (plan.value.None? || EvaluatePredicate(plan.value.value,
                   Materialize(row, ScanColumns(|t.columns|, 0))) == Ok(true))
            && (plan.value.Some? ==>
                EvaluatePredicate(plan.value.value, Materialize(row, ScanColumns(|t.columns|, 0))).Ok?)
  {
    RowOfTable(t, row);
    if filter.Some? {
      SameRowsSelected(filter, EnvOfRow(t, row), Types([t]));
      OptimizedPredicateIsSound(filter.value, [t], 0, Materialize(row, ScanColumns(|t.columns|, 0)), EnvOfRow(t, row));
    }
  }

  lemma TargetIsChosen(t: TableMeta, b: BoundMutation, plan: MutationPlan, record: Stored)
    requires GoodMutation(b, t) && PhysicalOk(t, record.row)
    requires PlanFilter(OptimizePredicate(b.filter), BuildBindings([t], 0)) == Some(plan.filter)
    requires plan.columns == ScanColumns(|t.columns|, 0) && plan.sets == b.sets
    ensures TargetOf(t, plan, record) ==
            Ok(if Passes(b.filter, EnvOfRow(t, record.row)) then Some(Stored(record.rid, Rewrite(record.row, b.sets)))
                else None)
  {
    OneRelationRow(t);
    FilterDecides(t, b.filter, record.row);
    if b.sets.Some? {
      UpdatedRowIsAccepted(t, record.row, b.sets.value);
    }
  }

  lemma {:induction false} TargetsAreChosen(t: TableMeta, b: BoundMutation, plan: MutationPlan, records: seq<Stored>)
    requires GoodMutation(b, t) && forall i :: 0 <= i < |records| ==> PhysicalOk(t, records[i].row)
    requires PlanFilter(OptimizePredicate(b.filter), BuildBindings([t], 0)) == Some(plan.filter)
    requires plan.columns == ScanColumns(|t.columns|, 0) && plan.sets == b.sets
    ensures Targets(t, plan, records) == Ok(Chosen(t, b, records))
  {
    if records != [] {
      var last := records[|records| - 1];
      TargetsAreChosen(t, b, plan, records[..|records| - 1]);
      TargetIsChosen(t, b, plan, last);
      var before := Chosen(t, b, records[..|records| - 1]);
      assert before + [] == before;
    }
  }

  /** On every table that matches its schema, an analyzed DELETE or UPDATE meets no evaluation error and touches
      exactly the records of which its predicate, as analyzed, is true, in scan order. */
  lemma MutationTouchesMatches(ast: MutationAst, catalog: Catalog, t: TableMeta, records: seq<Stored>)
    requires AnalyzedMutation(ast, catalog, t)
    requires forall i :: 0 <= i < |records| ==> PhysicalOk(t, records[i].row)
    ensures CompileMutation(ast, catalog).Some? && MutationValid(t, CompileMutation(ast, catalog).value)
    ensures GoodMutation(AnalyzeMutation(ast, catalog).value, t)
    ensures Targets(t, CompileMutation(ast, catalog).value, records) ==
      Ok(Chosen(t, AnalyzeMutation(ast, catalog).value, records))
  {
    MutationIsAccepted(ast, catalog, t);
    MutationGood(ast, catalog, t);
    TargetsAreChosen(t, AnalyzeMutation(ast, catalog).value, CompileMutation(ast, catalog).value, records);
  }

  /** Every row an UPDATE writes matches the schema again. */
  lemma {:induction false} ChosenRowsMatch(t: TableMeta, b: BoundMutation, records: seq<Stored>)
    requires b.sets.Some? ==> AssignmentsOk(t, b.sets.value)
    requires forall i :: 0 <= i < |records| ==> PhysicalOk(t, records[i].row)
    ensures forall i :: 0 <= i < |Chosen(t, b, records)| ==> PhysicalOk(t, Chosen(t, b, records)[i].row)
  {
    if records != [] {
      ChosenRowsMatch(t, b, records[..|records| - 1]);
      if b.sets.Some? {
        UpdatedRowIsAccepted(t, records[|records| - 1].row, b.sets.value);
      }
    }
  }
}
