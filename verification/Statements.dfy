/** Every kind of statement, from what the parser read to its result in a script
    (src/compiler/compiler.cpp, src/core/executor.cpp, src/core/script.cpp). */
module Statements {
  import opened Common
  import opened Binding
  import opened Plans
  import opened Select
  import opened SelectAnalysis
  import opened SelectAccepted
  import opened Writes
  import opened Mutations
  import opened Catalogs
  import opened Outcomes
  import opened CreateTables
  import opened StatementEnds
  import opened FiniteData
  import opened Scripts
  import Execution

  datatype StatementAst =
    | CreateStatement(create: CreateAst)
    | InsertStatement(table: string, names: seq<string>, rows: seq<Plans.Row>)
    | MutationStatement(mutation: MutationAst)
    | SelectStatement(select: SelectAst)

  function CompileInsert(table: string, names: seq<string>, rows: seq<Plans.Row>, catalog: Catalog): Option<Plan> {
    match FindRelation(catalog, table)
    case None => None
    case Some(t) =>
      match AnalyzeInsert(t, names, rows)
      case None => None
      case Some(plan) => Some(InsertRows(plan))
  }

  /** compile, from the parsed statement on; None is a compile error. */
  function CompileStatement(ast: StatementAst, catalog: Catalog): Option<Plan> {
    match ast
    case CreateStatement(create) => CompileCreate(create, catalog)
    case InsertStatement(table, names, rows) => CompileInsert(table, names, rows, catalog)
    case MutationStatement(mutation) =>
      (match CompileMutation(mutation, catalog)
       case None => None
       case Some(plan) => Some(MutateRows(plan)))
    case SelectStatement(select) =>
      if AnalyzeSelect(select, catalog).None? then None
      else
        match Compile(select, catalog)
        case None => None
        case Some(plan) => Some(RunQuery(plan))
  }

  /** What the parser guarantees of a statement it returns. */
  ghost predicate ReadStatement(ast: StatementAst) {
    match ast
    case CreateStatement(create) => ReadFromText(create)
    case InsertStatement(_, _, rows) => rows != []
    case MutationStatement(mutation) => ReadMutation(mutation)
    case SelectStatement(select) => ReadByParser(select) && HasOutputs(select)
  }

  /** The storage keeps its promises while the statement runs: nothing throws, replies are complete, stored rows match
      their schemas and hold no infinities or NaNs. */
  ghost predicate KeepsPromises(ast: StatementAst, catalog: Catalog, b: Backend) {
    match ast
    case CreateStatement(_) => b.change.Changed?
    case InsertStatement(_, _, rows) => PoliteChange(b.change, |rows|)
    case MutationStatement(mutation) =>
      forall t: TableMeta :: AnalyzedMutation(mutation, catalog, t) ==> ServesMutation(mutation, catalog, t, b)
    case SelectStatement(_) => PoliteTables(b) && Execution.TablesOk(catalog, Contents(b)) && StoredFinite(Contents(b))
  }

  ghost predicate ServesMutation(mutation: MutationAst, catalog: Catalog, t: TableMeta, b: Backend)
    requires AnalyzedMutation(mutation, catalog, t)
  {
    MutationGood(mutation, catalog, t);
    var records := Delivered(b.tables(t.id).scan);
    && PoliteTable(b.tables(t.id)) && (forall i :: 0 <= i < |records| ==> PhysicalOk(t, records[i].row))
    && PoliteChange(b.change, |Chosen(t, AnalyzeMutation(mutation, catalog).value, records)|)
  }

  predicate TooDeep(ast: StatementAst) {
    ast.SelectStatement? && PlanHeight(ast.select) >= MAX_PLAN_DEPTH
  }

  // ---------------------------------------------------------------- one statement

  lemma InsertStatementEnds(ast: StatementAst, c: TableCatalog, b: Backend)
    requires ast.InsertStatement? && ReadStatement(ast) && GoodCatalog(c)
    requires CompileStatement(ast, c.tables).Some? && KeepsPromises(ast, c.tables, b)
    ensures CompileStatement(ast, c.tables).value.InsertRows?
    ensures InsertEnd(CompileStatement(ast, c.tables).value.insert, c.tables, b) != Fails(InternalKind)
  {
    var t := FindRelation(c.tables, ast.table).value;
    InsertEndsWell(t, ast.names, ast.rows, c.tables, b);
  }

  lemma MutationStatementEnds(ast: StatementAst, c: TableCatalog, b: Backend)
    requires ast.MutationStatement? && ReadStatement(ast) && GoodCatalog(c)
    requires CompileStatement(ast, c.tables).Some? && KeepsPromises(ast, c.tables, b)
    ensures CompileStatement(ast, c.tables).value.MutateRows?
    ensures MutationEnd(CompileStatement(ast, c.tables).value.mutation, c.tables, b) != Some(Fails(InternalKind))
  {
    var t := FindRelation(c.tables, ast.mutation.table).value;
    assert AnalyzedMutation(ast.mutation, c.tables, t);
    assert ServesMutation(ast.mutation, c.tables, t, b);
    MutationEndsWell(ast.mutation, c.tables, t, b);
  }

  lemma SelectStatementEnds(ast: StatementAst, c: TableCatalog, b: Backend, limit: nat)
    requires ast.SelectStatement? && ReadStatement(ast) && GoodCatalog(c)
    requires CompileStatement(ast, c.tables).Some? && KeepsPromises(ast, c.tables, b)
    ensures CompileStatement(ast, c.tables).value.RunQuery?
    ensures QueryEnd(CompileStatement(ast, c.tables).value.query, c.tables, b, limit) == Some(Fails(InternalKind)) <==>
            TooDeep(ast)
  {
    assert AnalyzedSelect(ast.select, c.tables);
    SelectIsAccepted(ast.select, c.tables);
    if !TooDeep(ast) {
      SelectEndsWell(ast.select, c.tables, b, limit);
    }
  }

  lemma CreateStatementEnds(ast: StatementAst, c: TableCatalog, b: Backend)
    requires ast.CreateStatement? && ReadStatement(ast) && GoodCatalog(c)
    requires CompileStatement(ast, c.tables).Some? && KeepsPromises(ast, c.tables, b)
    ensures CompileStatement(ast, c.tables).value.CreateTable?
    ensures CreateEnd(CompileStatement(ast, c.tables).value, c, b.change) != Fails(InternalKind)
  {
    CreateIsAccepted(ast.create, c);
    CreateEndsWell(ast.create, c, b.change);
  }

  /** Whatever passes analysis over the catalog of an open database is accepted by the executor and does not end in an
      internal error while the storage keeps its promises, except, and always, a SELECT that is too deep. */
  lemma StatementEndsWell(ast: StatementAst, c: TableCatalog, b: Backend, limit: nat)
    requires ReadStatement(ast) && GoodCatalog(c)
    requires CompileStatement(ast, c.tables).Some? && KeepsPromises(ast, c.tables, b)
    ensures var end := Execute(CompileStatement(ast, c.tables).value, c, b, limit);
            (end.Ended? && end.outcome == Fails(InternalKind)) <==> TooDeep(ast)
  {
    match ast
    case CreateStatement(_) => CreateStatementEnds(ast, c, b);
    case InsertStatement(_, _, _) => InsertStatementEnds(ast, c, b);
    case MutationStatement(_) => MutationStatementEnds(ast, c, b);
    case SelectStatement(_) => SelectStatementEnds(ast, c, b, limit);
  }

  // ---------------------------------------------------------------- in a script

  /** The statement of the script is the parsed one, compiled over the catalog in force. */
  ghost predicate CompilesAs(h: Happening, ast: StatementAst, c: TableCatalog) {
    var plan := CompileStatement(ast, c.tables);
    h.compiled(c) == if plan.None? then CompileFailed else Compiles(plan.value)
  }

  /** So no statement aborts a script but one that is too deep: it is executed, refused by the compiler or by the
      execution, or cancelled. */
  lemma StatementNeverAborts(p: Phase, h: Happening, m: Scripts.Mode, ast: StatementAst)
    requires GoodPhase(p) && p.Running? && !m.planOnly && !h.cancelled && !h.throws
    requires ReadStatement(ast) && CompilesAs(h, ast, p.catalog) && KeepsPromises(ast, p.catalog.tables, h.backend)
    ensures var v := Judge(p, h, m);
            if CompileStatement(ast, p.catalog.tables).Some? && TooDeep(ast)
            then v.status.Indeterminate? || v.status.Skipped?
            else v.status.Executed? || v.status.ExecutionError? || v.status.CompileError? || v.status.Cancelled?
  {
    if CompileStatement(ast, p.catalog.tables).Some? {
      StatementEndsWell(ast, p.catalog, h.backend, m.maxRows);
    }
  }
}
