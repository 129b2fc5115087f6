/** What each statement of a script is told, case by case (src/core/script.cpp). */
module ScriptOutcomes {
  import opened Common
  import opened Catalogs
  import opened Binding
  import opened Outcomes
  import opened Scripts

  // ---------------------------------------------------------------- what can happen at one statement

  /** An ordinary failure: it does not compile, or executing it ends in an error that can be reported. */
  predicate FailsPlainly(c: TableCatalog, h: Happening, m: Mode) {
    && !h.cancelled && !h.throws
    && match h.compiled(c)
       case CompileFailed => true
       case CompilerBroke => false
       case Compiles(plan) =>
         var e := Execute(plan, c, h.backend, m.maxRows);
         e.Ended? && e.outcome != Fails(InternalKind) && !e.outcome.Query? &&
         (e.outcome.Command? ==> e.outcome.error == Some(StorageKind))
  }

  /** Cancellation is noticed before the statement or during its execution. */
  predicate IsCancelled(c: TableCatalog, h: Happening, m: Mode) {
    || h.cancelled
    || (!h.throws && h.compiled(c).Compiles? && Execute(h.compiled(c).plan, c, h.backend, m.maxRows).WasCancelled?)
  }

  /** The statement is given up: an exception, or an internal error. */
  predicate Breaks(c: TableCatalog, h: Happening, m: Mode) {
    && !h.cancelled
    && (|| h.throws || h.compiled(c).CompilerBroke?
        || (h.compiled(c).Compiles? && Execute(h.compiled(c).plan, c, h.backend, m.maxRows).Ended?
            && Execute(h.compiled(c).plan, c, h.backend, m.maxRows).outcome == Fails(InternalKind)))
  }

  /** The statement is executed to a good end. */
  predicate EndsWell(c: TableCatalog, h: Happening, m: Mode) {
    && !h.cancelled && !h.throws && h.compiled(c).Compiles?
    && var e := Execute(h.compiled(c).plan, c, h.backend, m.maxRows);
       e.Ended? && (e.outcome.Query? || (e.outcome.Command? && e.outcome.error.None?))
  }

  /** These are all the ways, and no two of them happen together. */
  lemma OneOfFour(c: TableCatalog, h: Happening, m: Mode)
    ensures EndsWell(c, h, m) || FailsPlainly(c, h, m) || IsCancelled(c, h, m) || Breaks(c, h, m)
    ensures EndsWell(c, h, m) ==> !FailsPlainly(c, h, m) && !IsCancelled(c, h, m) && !Breaks(c, h, m)
    ensures FailsPlainly(c, h, m) ==> !IsCancelled(c, h, m) && !Breaks(c, h, m)
    ensures IsCancelled(c, h, m) ==> !Breaks(c, h, m)
  {
    if h.compiled(c).Compiles? {
      ExecutionIsReportable(h.compiled(c).plan, c, h.backend, m.maxRows);
    }
  }

  // ---------------------------------------------------------------- reading off the results

  /** Result k is the verdict on statement k in the phase the statements before it lead to. */
  lemma {:induction false} ResultAt(p: Phase, script: seq<Happening>, from: nat, m: Mode, k: nat)
    requires k < |script|
    ensures var v := Judge(PhaseAfter(p, script[..k], m), script[k], m);
            Results(p, script, from, m)[k] == Entry(from + k, v.status, v.outcome)
    decreases k
  {
    if k > 0 {
      var first := Judge(p, script[0], m).after;
      ResultAt(first, script[1..], from + 1, m, k - 1);
      PhaseSplits(p, script[..k], m, 1);
      assert script[..k][1..] == script[1..][..k - 1];
      assert script[..k][..1] == [script[0]];
      assert PhaseAfter(p, [script[0]], m) == first by {
        assert [script[0]][..0] == [];
        PhaseStep(p, [script[0]], m);
      }
    }
  }

  lemma {:induction false} OverStays(p: Phase, script: seq<Happening>, m: Mode)
    requires p.Over?
    ensures PhaseAfter(p, script, m) == p
  {
    if script != [] {
      OverStays(p, script[..|script| - 1], m);
    }
  }

  /** Once the script is over, every later statement gets the same status. */
  lemma RestIs(p: Phase, script: seq<Happening>, m: Mode, k: nat, status: Status)
    requires k < |script| && PhaseAfter(p, script[..k + 1], m) == Over(status)
    ensures forall j :: k < j < |script| ==> Results(p, script, 0, m)[j] == Entry(j, status, None)
  {
    forall j | k < j < |script| ensures Results(p, script, 0, m)[j] == Entry(j, status, None) {
      PhaseSplits(p, script[..j], m, k + 1);
      assert script[..j][..k + 1] == script[..k + 1];
      OverStays(Over(status), script[..j][k + 1..], m);
      ResultAt(p, script, 0, m, j);
    }
  }

  lemma PhaseAtStep(p: Phase, script: seq<Happening>, m: Mode, k: nat)
    requires k < |script|
    ensures PhaseAfter(p, script[..k + 1], m) == Judge(PhaseAfter(p, script[..k], m), script[k], m).after
  {
    assert script[..k + 1][..k] == script[..k];
    PhaseStep(p, script[..k + 1], m);
  }

  /** Every statement after number k gets this status and no outcome. */
  ghost predicate RestGets(results: seq<Entry>, k: nat, status: Status) {
    forall j :: k < j < |results| ==> results[j] == Entry(j, status, None)
  }

  // ---------------------------------------------------------------- executing

  /** The catalog after a statement was executed: a CREATE adds its table under the next id, nothing else does. */
  function CatalogAfter(c: TableCatalog, plan: Plan): TableCatalog {
    match plan
    case CreateTable(name, columns) =>
      TableCatalog(c.tables + [TableMeta(c.next, name, columns)], c.next + 1)
    case _ => c
  }

  /** What statement k of a script is told, and what becomes of the rest, when the statements before it were
      executed over what is now the catalog c. */
  ghost predicate ToldRunning(c: TableCatalog, h: Happening, m: Mode, results: seq<Entry>, k: nat, after: Phase)
    requires k < |results|
  {
    && (EndsWell(c, h, m) ==>
          var plan := h.compiled(c).plan;
          && results[k] == Entry(k, Executed, Some(Execute(plan, c, h.backend, m.maxRows).outcome))
          && (if m.analyze && plan.CreateTable? && !h.mirrored then RestGets(results, k, Skipped)
              else after == Running(CatalogAfter(c, plan))))
    && (FailsPlainly(c, h, m) ==>
          && results[k] == (match h.compiled(c)
              case Compiles(plan) => Entry(k, ExecutionError, Some(Execute(plan, c, h.backend, m.maxRows).outcome))
              case _ => Entry(k, CompileError, Some(Fails(CompileKind))))
          && (if m.analyze then after == Analyzing(c) else RestGets(results, k, Skipped)))
    && (IsCancelled(c, h, m) ==> results[k] == Entry(k, Cancelled, None) && RestGets(results, k, Cancelled))
    && (Breaks(c, h, m) ==>
          results[k] == Entry(k, if h.effects then Indeterminate else Skipped, None) && RestGets(results, k, Skipped))
  }

  /** A statement that is reached is executed, and its result says how that ended. After a success the script goes
      on, with the new table if it was a CREATE; after a plain failure the rest is analyzed over the catalog of
      that moment or skipped, as the policy says; after a cancellation or an internal error nothing follows. */
  lemma ReachedStatementIsTold(start: TableCatalog, script: seq<Happening>, m: Mode, k: nat)
    requires !m.planOnly && k < |script| && PhaseAfter(Running(start), script[..k], m).Running?
    ensures ToldRunning(PhaseAfter(Running(start), script[..k], m).catalog, script[k], m,
                        Results(Running(start), script, 0, m), k, PhaseAfter(Running(start), script[..k + 1], m))
  {
    var p, h := Running(start), script[k];
    var c := PhaseAfter(p, script[..k], m).catalog;
    ResultAt(p, script, 0, m, k);
    PhaseAtStep(p, script, m, k);
    OneOfFour(c, h, m);
    var after := Judge(Running(c), h, m).after;
    if after.Over? {
      RestIs(p, script, m, k, after.rest);
    }
  }

  ghost predicate EndsWellAnyhow(h: Happening, m: Mode) {
    h.mirrored && forall c: TableCatalog :: EndsWell(c, h, m)
  }

  /** A script of statements that all end well is executed from end to end. */
  lemma {:induction false} GoodScriptIsExecuted(start: TableCatalog, script: seq<Happening>, m: Mode)
    requires !m.planOnly
    requires forall k :: 0 <= k < |script| ==> EndsWellAnyhow(script[k], m)
    ensures PhaseAfter(Running(start), script, m).Running?
    ensures forall k :: 0 <= k < |script| ==> Results(Running(start), script, 0, m)[k].status.Executed?
  {
    GoodScriptGoesOn(start, script, m);
    forall k | 0 <= k < |script| ensures Results(Running(start), script, 0, m)[k].status.Executed? {
      GoodScriptGoesOn(start, script[..k], m);
      assert EndsWellAnyhow(script[k], m);
      ReachedStatementIsTold(start, script, m, k);
    }
  }

  lemma {:induction false} GoodScriptGoesOn(start: TableCatalog, script: seq<Happening>, m: Mode)
    requires !m.planOnly
    requires forall k :: 0 <= k < |script| ==> EndsWellAnyhow(script[k], m)
    ensures PhaseAfter(Running(start), script, m).Running?
  {
    if script != [] {
      var n := |script| - 1;
      GoodScriptGoesOn(start, script[..n], m);
      assert EndsWellAnyhow(script[n], m);
      ReachedStatementIsTold(start, script, m, n);
      assert script[..n + 1] == script;
    }
  }

  // ---------------------------------------------------------------- analyzing

  /** The statement gets as far as a compile result. */
  predicate IsCompiled(c: TableCatalog, h: Happening) {
    !h.cancelled && !h.throws && !h.compiled(c).CompilerBroke?
  }

  /** The shadow takes a CREATE whose metadata is valid, with an id left and a new name. */
  predicate ShadowTakes(c: TableCatalog, plan: Plan) {
    plan.CreateTable? && FIRST_USER_TABLE <= c.next && RuntimeAccepts(c, plan)
  }

  /** What a statement that is only analyzed is told: it is never executed, and never skipped. */
  ghost predicate ToldAnalyzing(c: TableCatalog, h: Happening, results: seq<Entry>, k: nat, after: Phase)
    requires k < |results|
  {
    && (IsCompiled(c, h) ==>
          match h.compiled(c)
          case Compiles(plan) =>
            if ShadowTakes(c, plan) then
              results[k] == Entry(k, AnalysisOnly, None) && after == Analyzing(CatalogAfter(c, plan))
            else if plan.CreateTable? then
              results[k] == Entry(k, AnalysisError, Some(Fails(AnalysisKind))) && after == Analyzing(c)
            else
              results[k] == Entry(k, AnalysisOnly, None) && after == Analyzing(c)
          case _ => results[k] == Entry(k, CompileError, Some(Fails(CompileKind))) && after == Analyzing(c))
    && (h.cancelled ==> results[k] == Entry(k, Cancelled, None) && RestGets(results, k, Cancelled))
    && (!h.cancelled && !IsCompiled(c, h) ==>
          results[k] == Entry(k, if h.effects then Indeterminate else Skipped, None) && RestGets(results, k, Skipped))
  }

  lemma AnalyzedStatementIsTold(start: TableCatalog, script: seq<Happening>, m: Mode, k: nat)
    requires !m.planOnly && k < |script| && PhaseAfter(Running(start), script[..k], m).Analyzing?
    ensures ToldAnalyzing(PhaseAfter(Running(start), script[..k], m).catalog, script[k],
                          Results(Running(start), script, 0, m), k, PhaseAfter(Running(start), script[..k + 1], m))
  {
    var p, h := Running(start), script[k];
    var c := PhaseAfter(p, script[..k], m).catalog;
    ResultAt(p, script, 0, m, k);
    PhaseAtStep(p, script, m, k);
    var after := Judge(Analyzing(c), h, m).after;
    if after.Over? {
      RestIs(p, script, m, k, after.rest);
    }
  }

  /** Statement i only gets to its compile result, wherever the analysis stands then. */
  ghost predicate CompiledAnyhow(script: seq<Happening>, i: nat)
    requires i < |script|
  {
    forall c: TableCatalog :: IsCompiled(c, script[i])
  }

  /** Under the analyze policy, every statement after the first plain failure is analyzed and told what the analysis
      found, over the catalog of the failure and the CREATEs the analysis took since. */
  lemma {:induction false} FailureIsFollowedByAnalysis(start: TableCatalog, script: seq<Happening>, m: Mode,
                                                       j: nat, k: nat)
    requires !m.planOnly && m.analyze && j < k < |script|
    requires PhaseAfter(Running(start), script[..j], m).Running?
    requires FailsPlainly(PhaseAfter(Running(start), script[..j], m).catalog, script[j], m)
    requires forall i :: j < i < k ==> CompiledAnyhow(script, i)
    ensures PhaseAfter(Running(start), script[..k], m).Analyzing?
    ensures ToldAnalyzing(PhaseAfter(Running(start), script[..k], m).catalog, script[k],
                          Results(Running(start), script, 0, m), k, PhaseAfter(Running(start), script[..k + 1], m))
  {
    if k == j + 1 {
      ReachedStatementIsTold(start, script, m, j);
    } else {
      FailureIsFollowedByAnalysis(start, script, m, j, k - 1);
      assert CompiledAnyhow(script, k - 1);
    }
    AnalyzedStatementIsTold(start, script, m, k);
  }

  // ---------------------------------------------------------------- plans only

  /** The statement gets to a compile result, and its plan can be shown. */
  predicate IsShown(c: TableCatalog, h: Happening) {
    IsCompiled(c, h) && h.rendered
  }

  lemma PlanOnlyStep(start: TableCatalog, script: seq<Happening>, m: Mode, k: nat)
    requires m.planOnly && k < |script| && IsShown(start, script[k])
    requires script[k].compiled(start).Compiles? || m.analyze
    requires PhaseAfter(Running(start), script[..k], m) in {Running(start), Analyzing(start)}
    ensures PhaseAfter(Running(start), script[..k + 1], m) in {Running(start), Analyzing(start)}
  {
    PhaseAtStep(Running(start), script, m, k);
  }

  lemma {:induction false} PlanOnlyGoesOn(start: TableCatalog, script: seq<Happening>, m: Mode, k: nat)
    requires m.planOnly && k <= |script|
    requires forall i :: 0 <= i < k ==>
      IsShown(start, script[i]) && (script[i].compiled(start).Compiles? || m.analyze)
    ensures PhaseAfter(Running(start), script[..k], m) in {Running(start), Analyzing(start)}
  {
    if k > 0 {
      PlanOnlyGoesOn(start, script, m, k - 1);
      PlanOnlyStep(start, script, m, k - 1);
    } else {
      assert script[..0] == [];
    }
  }

  /** With plans only, each statement is told whether it compiles over the catalog the script started with; under
      the stop policy the statements after the first one that does not are skipped. */
  lemma PlanOnlyTells(start: TableCatalog, script: seq<Happening>, m: Mode, k: nat)
    requires m.planOnly && k < |script| && forall i :: 0 <= i <= k ==> IsShown(start, script[i])
    requires forall i :: 0 <= i < k ==> script[i].compiled(start).Compiles? || m.analyze
    ensures var results := Results(Running(start), script, 0, m);
            && results[k] == (if script[k].compiled(start).Compiles? then Entry(k, PlanOnly, Some(Query))
                              else Entry(k, CompileError, Some(Fails(CompileKind))))
            && (script[k].compiled(start).CompileFailed? && !m.analyze ==> RestGets(results, k, Skipped))
  {
    PlanOnlyGoesOn(start, script, m, k);
    ResultAt(Running(start), script, 0, m, k);
    if script[k].compiled(start).CompileFailed? && !m.analyze {
      StopsPlanOnly(start, script, m, k);
      PhaseAtStep(Running(start), script, m, k);
      RestIs(Running(start), script, m, k, Skipped);
    }
  }

  lemma {:induction false} StopsPlanOnly(start: TableCatalog, script: seq<Happening>, m: Mode, k: nat)
    requires m.planOnly && !m.analyze && k <= |script|
    ensures !PhaseAfter(Running(start), script[..k], m).Analyzing?
  {
    if k > 0 {
      StopsPlanOnly(start, script, m, k - 1);
      PhaseAtStep(Running(start), script, m, k - 1);
    } else {
      assert script[..0] == [];
    }
  }
}
