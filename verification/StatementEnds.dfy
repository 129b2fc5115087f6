/** How statements that passed analysis end over a storage that keeps its promises: never in an internal error, but
    for a SELECT that has to sort by a stored number that is not finite (src/core/executor.cpp). */
module StatementEnds {
  import opened Common
  import opened Binding
  import opened Plans
  import opened Execution
  import opened Select
  import opened SelectAnalysis
  import opened SelectAccepted
  import opened Writes
  import opened Mutations
  import opened Outcomes
  import opened Executor
  import opened FiniteData
  import SelectPlans
  import Expressions
  import Aggregates

  // ---------------------------------------------------------------- what the storage promises

  /** Replies carry an error or a record, never both; nothing throws. */
  predicate PoliteScan(replies: seq<ScanReply>) {
    forall i :: 0 <= i < |replies| ==>
      !replies[i].ScanThrew? && !(replies[i].Next? && replies[i].error && replies[i].record.Some?)
  }

  predicate PoliteTable(r: TableReplies) {
    r.open.Opened? && r.open.error != r.open.cursor && PoliteScan(r.scan) && r.close.CursorClosed?
  }

  /** No more records than asked for, and all of them unless there is an error. */
  predicate PoliteChange(reply: ChangeReply, requested: nat) {
    reply.Changed? && reply.count <= requested && (!reply.error ==> reply.count == requested)
  }

  ghost predicate PoliteTables(b: Backend) {
    forall id :: PoliteTable(b.tables(id))
  }

  lemma {:induction false} PoliteEnding(replies: seq<ScanReply>)
    requires PoliteScan(replies)
    ensures EndingOf(replies).Trouble? ==> EndingOf(replies).kind.StorageKind?
  {
    if replies != [] {
      PoliteEnding(replies[1..]);
    }
  }

  lemma PoliteRead<T>(r: TableReplies, handled: Result<T, ErrorKind>)
    requires PoliteTable(r)
    ensures var read := ReadTable(r, handled);
            read.Interrupted? || read == Broken(StorageKind) ||
                read == if handled.Ok? then Got(handled.value) else Broken(handled.error)
  {
    PoliteEnding(r.scan);
  }

  lemma PoliteCommand(requested: nat, reply: ChangeReply)
    requires PoliteChange(reply, requested)
    ensures CommandEnd(requested, reply) != Fails(InternalKind)
    ensures !reply.error ==> CommandEnd(requested, reply) == Command(requested, None)
  {
  }

  // ---------------------------------------------------------------- INSERT

  /** An analyzed INSERT ends with its row count, a storage error, or both. */
  lemma InsertEndsWell(t: TableMeta, names: seq<string>, rows: seq<Row>, catalog: Catalog, b: Backend)
    requires CatalogOk(catalog) && t in catalog && AnalyzeInsert(t, names, rows).Some? && rows != []
    requires PoliteChange(b.change, |rows|)
    ensures InsertEnd(AnalyzeInsert(t, names, rows).value, catalog, b) == CommandEnd(|rows|, b.change)
    ensures InsertEnd(AnalyzeInsert(t, names, rows).value, catalog, b) != Fails(InternalKind)
  {
    SelectPlans.FindTableOf(catalog, t);
    InsertIsAccepted(t, names, rows);
    PoliteCommand(|rows|, b.change);
  }

  // ---------------------------------------------------------------- DELETE and UPDATE

  /** An analyzed DELETE or UPDATE is cancelled, ends in a storage error, or changes the records its predicate chose. */
  lemma MutationEndsWell(ast: MutationAst, catalog: Catalog, t: TableMeta, b: Backend)
    requires AnalyzedMutation(ast, catalog, t) && PoliteTable(b.tables(t.id))
    requires forall i :: 0 <= i < |Delivered(b.tables(t.id).scan)| ==>
      PhysicalOk(t, Delivered(b.tables(t.id).scan)[i].row)
    ensures CompileMutation(ast, catalog).Some? && GoodMutation(AnalyzeMutation(ast, catalog).value, t)
    ensures var requested := |Chosen(t, AnalyzeMutation(ast, catalog).value, Delivered(b.tables(t.id).scan))|;
            var end := MutationEnd(CompileMutation(ast, catalog).value, catalog, b);
            && (end.None? || end == Some(Fails(StorageKind)) || end == Some(CommandEnd(requested, b.change)))
            && (PoliteChange(b.change, requested) ==> end != Some(Fails(InternalKind)))
  {
    var records := Delivered(b.tables(t.id).scan);
    MutationTouchesMatches(ast, catalog, t, records);
    SelectPlans.FindTableOf(catalog, t);
    var chosen := Chosen(t, AnalyzeMutation(ast, catalog).value, records);
    PoliteRead(b.tables(t.id), Result<seq<Stored>, ErrorKind>.Ok(chosen));
  }

  // ---------------------------------------------------------------- SELECT

  /** A run was cut short by a cancellation or a storage error, or ended as the reference does. */
  predicate Mirrors(run: Read<Rows>, reference: Result<Rows, ExecError>) {
    run.Interrupted? || run == Broken(StorageKind) || run == Lift(reference)
  }

  lemma JoinMirrors(catalog: Catalog, b: Backend, node: Node, depth: nat, limit: nat)
    requires node.Join?
    requires Mirrors(RunNode(catalog, b, node.left, depth + 1, limit),
                     Reference(catalog, Contents(b), node.left, depth + 1, limit, b.floats))
    requires Mirrors(RunNode(catalog, b, node.right, depth + 1, limit),
                     Reference(catalog, Contents(b), node.right, depth + 1, limit, b.floats))
    ensures Mirrors(RunNode(catalog, b, node, depth, limit),
                    Reference(catalog, Contents(b), node, depth, limit, b.floats))
  {
  }

  lemma UnaryMirrors(catalog: Catalog, b: Backend, node: Node, depth: nat, limit: nat)
    requires node.Filter? || node.Sort? || node.Aggregate?
    requires Mirrors(RunNode(catalog, b, node.child, depth + 1, limit),
                     Reference(catalog, Contents(b), node.child, depth + 1, limit, b.floats))
    ensures Mirrors(RunNode(catalog, b, node, depth, limit),
                    Reference(catalog, Contents(b), node, depth, limit, b.floats))
  {
  }

  lemma ScanMirrors(catalog: Catalog, b: Backend, node: Node, depth: nat, limit: nat)
    requires node.Scan? && PoliteTables(b)
    ensures Mirrors(RunNode(catalog, b, node, depth, limit),
                    Reference(catalog, Contents(b), node, depth, limit, b.floats))
  {
    var t := FindTable(catalog, node.table);
    if t.Some? {
      PoliteRead(b.tables(node.table), Kinded(ScanRows(t.value, Contents(b)(node.table), node.columns, limit)));
    }
  }

  /** Over such a storage a plan is cut short by a cancellation or a storage error, or computes the reference. */
  lemma {:induction false} RunIsReference(catalog: Catalog, b: Backend, node: Node, depth: nat, limit: nat)
    requires PoliteTables(b)
    ensures Mirrors(RunNode(catalog, b, node, depth, limit),
                    Reference(catalog, Contents(b), node, depth, limit, b.floats))
    decreases node
  {
    match node
    case Scan(_, _) => ScanMirrors(catalog, b, node, depth, limit);
    case Filter(_, child) =>
      RunIsReference(catalog, b, child, depth + 1, limit);
      UnaryMirrors(catalog, b, node, depth, limit);
    case Sort(_, child) =>
      RunIsReference(catalog, b, child, depth + 1, limit);
      UnaryMirrors(catalog, b, node, depth, limit);
    case Join(_, left, right) =>
      RunIsReference(catalog, b, left, depth + 1, limit);
      RunIsReference(catalog, b, right, depth + 1, limit);
      JoinMirrors(catalog, b, node, depth, limit);
    case Aggregate(_, _, child) =>
      RunIsReference(catalog, b, child, depth + 1, limit);
      UnaryMirrors(catalog, b, node, depth, limit);
  }

  /** An analyzed SELECT that is not too deep is cancelled, ends in a storage error, or ends as its reference answer
      does: with rows, or with an execution error for the row limit, an overflow or a non-finite aggregate. */
  lemma SelectEndsAsReference(ast: SelectAst, catalog: Catalog, b: Backend, limit: nat)
    requires AnalyzedSelect(ast, catalog) && PlanHeight(ast) < MAX_PLAN_DEPTH
    requires PoliteTables(b) && TablesOk(catalog, Contents(b))
    ensures Compile(ast, catalog).Some?
    ensures var answer := Answer(catalog, Contents(b), Compile(ast, catalog).value, limit, b.floats);
            var end := QueryEnd(Compile(ast, catalog).value, catalog, b, limit);
            && (end.None? || end == Some(Fails(StorageKind)) ||
                end == Some(if answer.Ok? then Query else Fails(KindOf(answer.error))))
            && (end == Some(Fails(InternalKind)) ==> answer == Err(NonFiniteSortKey))
  {
    SelectIsAccepted(ast, catalog);
    SelectRunsSoundly(ast, catalog, Contents(b), limit, b.floats);
    var plan := Compile(ast, catalog).value;
    RunIsReference(catalog, b, plan.root, 1, limit);
  }

  /** Over stored rows without infinities and NaNs, which the record codec neither writes nor reads, an analyzed
      SELECT that is not too deep never ends in an internal error. */
  lemma SelectEndsWell(ast: SelectAst, catalog: Catalog, b: Backend, limit: nat)
    requires AnalyzedSelect(ast, catalog) && PlanHeight(ast) < MAX_PLAN_DEPTH
    requires PoliteTables(b) && TablesOk(catalog, Contents(b)) && StoredFinite(Contents(b))
    ensures Compile(ast, catalog).Some?
    ensures QueryEnd(Compile(ast, catalog).value, catalog, b, limit) != Some(Fails(InternalKind))
  {
    SelectEndsAsReference(ast, catalog, b, limit);
    FiniteDataStaysFinite(catalog, Contents(b), Compile(ast, catalog).value.root, 1, limit, b.floats);
    SelectRunsSoundly(ast, catalog, Contents(b), limit, b.floats);
  }

  // ---------------------------------------------------------------- when a SELECT does end internally

  /** The rows below the sort arrived and one of them has an ORDER BY value that is not finite. */
  ghost predicate MeetsNonFiniteKey(plan: QueryPlan, catalog: Catalog, b: Backend, limit: nat) {
    && !b.cancelFound && plan.root.Sort?
    && var input := RunNode(catalog, b, plan.root.child, 2, limit);
       input.Got? && !AllKeysFinite(input.value, plan.root.keys)
  }

  predicate SortFree(node: Node) {
    match node
    case Scan(_, _) => true
    case Filter(_, child) => SortFree(child)
    case Sort(_, _) => false
    case Join(_, left, right) => SortFree(left) && SortFree(right)
    case Aggregate(_, _, child) => SortFree(child)
  }

  lemma {:induction false} ScanRefuses(t: TableMeta, rows: seq<Row>, columns: seq<ScanColumn>, limit: nat)
    ensures ScanRows(t, rows, columns, limit) != Err(NonFiniteSortKey)
  {
    if rows != [] {
      ScanRefuses(t, rows[..|rows| - 1], columns, limit);
    }
  }

  lemma {:induction false} FilterRefuses(condition: Expressions.Expr<nat>, rows: Rows)
    ensures FilterRows(condition, rows) != Err(NonFiniteSortKey)
  {
    if rows != [] {
      FilterRefuses(condition, rows[..|rows| - 1]);
    }
  }

  lemma {:induction false} OnlySortsRefuse(catalog: Catalog, tables: Tables, node: Node, depth: nat, limit: nat,
                                           f: Aggregates.Floats)
    requires SortFree(node)
    ensures Reference(catalog, tables, node, depth, limit, f) != Err(NonFiniteSortKey)
    decreases node
  {
    match node
    case Scan(id, columns) =>
      if FindTable(catalog, id).Some? {
        ScanRefuses(FindTable(catalog, id).value, tables(id), columns, limit);
      }
    case Filter(condition, child) =>
      OnlySortsRefuse(catalog, tables, child, depth + 1, limit, f);
      var rows := Reference(catalog, tables, child, depth + 1, limit, f);
      if rows.Ok? {
        FilterRefuses(condition, rows.value);
      }
    case Join(_, left, right) =>
      OnlySortsRefuse(catalog, tables, left, depth + 1, limit, f);
      OnlySortsRefuse(catalog, tables, right, depth + 1, limit, f);
    case Aggregate(_, _, child) => OnlySortsRefuse(catalog, tables, child, depth + 1, limit, f);
  }

  lemma {:induction false} JoinTreeSortFree(s: BoundSelect, scope: Scope, n: nat)
    requires GoodFrom(s, scope) && n <= |s.joins|
    ensures SelectPlans.JoinTree(s, scope, n).Some? && SortFree(SelectPlans.JoinTree(s, scope, n).value)
  {
    if n == 0 {
      SelectPlans.FirstTree(s, scope);
    } else {
      JoinTreeSortFree(s, scope, n - 1);
      SelectPlans.JoinTreeStep(s, scope, n);
    }
  }

  /** A compiled SELECT sorts at its root or nowhere. */
  lemma PlanSortsOnce(ast: SelectAst, catalog: Catalog)
    requires AnalyzedSelect(ast, catalog)
    ensures Compile(ast, catalog).Some?
    ensures var root := Compile(ast, catalog).value.root; SortFree(if root.Sort? then root.child else root)
  {
    SelectIsAccepted(ast, catalog);
    AnalyzeGood(ast, catalog);
    FromShape(catalog, ast.table, ast.joins);
    var scope := BindFrom(catalog, ast.table, ast.joins).value.scope;
    var s := OptimizeSelect(AnalyzeSelect(ast, catalog).value);
    OptimizeGood(AnalyzeSelect(ast, catalog).value, scope);
    var tree, filter, items, keys := SelectPlanned(catalog, s, scope);
    JoinTreeSortFree(s, scope, |s.joins|);
  }

  lemma SortEnds(catalog: Catalog, b: Backend, keys: seq<SortKey>, child: Node, limit: nat)
    requires ValidateNode(catalog, Sort(keys, child), 1, []).Ok?
    requires PoliteTables(b) && TablesOk(catalog, Contents(b)) && SortFree(child)
    ensures var input := RunNode(catalog, b, child, 2, limit);
            RunNode(catalog, b, Sort(keys, child), 1, limit) == Broken(InternalKind) <==>
            input.Got? && !AllKeysFinite(input.value, keys)
  {
    ValidPlansAreSound(catalog, Contents(b), child, 2, [], limit, b.floats);
    RunIsReference(catalog, b, child, 2, limit);
    OnlySortsRefuse(catalog, Contents(b), child, 2, limit, b.floats);
    var input := RunNode(catalog, b, child, 2, limit);
    if input.Got? {
      SortRefuses(input.value, keys, ValidateNode(catalog, child, 2, []).value.row);
    }
  }

  lemma EndIsRootEnd(ast: SelectAst, catalog: Catalog, b: Backend, limit: nat)
    requires AnalyzedSelect(ast, catalog) && PlanHeight(ast) < MAX_PLAN_DEPTH
    requires PoliteTables(b) && TablesOk(catalog, Contents(b))
    ensures Compile(ast, catalog).Some?
    ensures var plan := Compile(ast, catalog).value;
            QueryEnd(plan, catalog, b, limit) == Some(Fails(InternalKind)) <==>
            !b.cancelFound && RunNode(catalog, b, plan.root, 1, limit) == Broken(InternalKind)
  {
    SelectIsAccepted(ast, catalog);
    SelectRunsSoundly(ast, catalog, Contents(b), limit, b.floats);
    RunIsReference(catalog, b, Compile(ast, catalog).value.root, 1, limit);
  }

  lemma NoSortNoFault(ast: SelectAst, catalog: Catalog, b: Backend, limit: nat)
    requires AnalyzedSelect(ast, catalog) && PlanHeight(ast) < MAX_PLAN_DEPTH
    requires PoliteTables(b) && TablesOk(catalog, Contents(b))
    requires Compile(ast, catalog).Some? && SortFree(Compile(ast, catalog).value.root)
    ensures RunNode(catalog, b, Compile(ast, catalog).value.root, 1, limit) != Broken(InternalKind)
  {
    var root := Compile(ast, catalog).value.root;
    SelectRunsSoundly(ast, catalog, Contents(b), limit, b.floats);
    RunIsReference(catalog, b, root, 1, limit);
    OnlySortsRefuse(catalog, Contents(b), root, 1, limit, b.floats);
  }

  /** Exactly then: an analyzed SELECT that is not too deep ends in an internal error if and only if the rows it has
      to sort arrive and one of them has an ORDER BY value that is not finite. */
  lemma SelectEndsInternally(ast: SelectAst, catalog: Catalog, b: Backend, limit: nat)
    requires AnalyzedSelect(ast, catalog) && PlanHeight(ast) < MAX_PLAN_DEPTH
    requires PoliteTables(b) && TablesOk(catalog, Contents(b))
    ensures Compile(ast, catalog).Some?
    ensures var plan := Compile(ast, catalog).value;
            QueryEnd(plan, catalog, b, limit) == Some(Fails(InternalKind)) <==>
            MeetsNonFiniteKey(plan, catalog, b, limit)
  {
    SelectIsAccepted(ast, catalog);
    EndIsRootEnd(ast, catalog, b, limit);
    PlanSortsOnce(ast, catalog);
    var plan := Compile(ast, catalog).value;
    if plan.root.Sort? {
      SortEnds(catalog, b, plan.root.keys, plan.root.child, limit);
    } else {
      NoSortNoFault(ast, catalog, b, limit);
    }
  }
}
