/** Script runs: one result per statement, whatever happens (src/core/script.cpp, src/core/analysis_catalog.cpp). */
module Scripts {
  import opened Common
  import opened Catalogs
  import opened Outcomes
  import opened Binding
  import opened SelectAnalysis

  // ---------------------------------------------------------------- results

  datatype Status =
    | Executed | CompileError | PlanOnly | ExecutionError | AnalysisError | AnalysisOnly
    | Skipped | Cancelled | Indeterminate

  datatype Entry = Entry(index: nat, status: Status, outcome: Option<Outcome>)

  /** validate_statement_result: the combinations the result factories do not reject. */
  predicate FactoryAccepts(status: Status, outcome: Option<Outcome>) {
    match status
    case Executed => outcome == Some(Query) || (outcome.Some? && outcome.value.Command? && outcome.value.error.None?)
    case CompileError => outcome == Some(Fails(CompileKind))
    case PlanOnly => outcome == Some(Query)
    case ExecutionError =>
      outcome.Some? &&
      (match outcome.value
       case Fails(k) => ExecutionErrorKind(k)
       case Command(_, e) => e.Some? && ExecutionErrorKind(e.value)
       case Query => false)
    case AnalysisError => outcome == Some(Fails(AnalysisKind))
    case _ => outcome.None?
  }

  /** Exactly one result per statement, in order, each one the factories accept. */
  ghost predicate Complete(results: seq<Entry>, n: nat) {
    |results| == n && forall k :: 0 <= k < n ==>
        results[k].index == k && FactoryAccepts(results[k].status, results[k].outcome)
  }

  /** A statement that reached the executor. */
  predicate Ran(s: Status) {
    s.Executed? || s.ExecutionError?
  }

  /** Nothing is executed after the first statement that did not simply succeed. */
  ghost predicate StopsAtFailure(results: seq<Entry>) {
    forall i, j :: 0 <= i < j < |results| && Ran(results[j].status) ==> results[i].status.Executed?
  }

  // ---------------------------------------------------------------- the environment of one statement

  /** is_execution_failure. */
  predicate IsFailure(o: Outcome) {
    o.Fails? || (o.Command? && o.error.Some?)
  }

  datatype Compiled = CompileFailed | Compiles(plan: Plan) | CompilerBroke

  /** Everything the runner meets at one statement and does not decide itself. `throws` is an exception that
      escapes before the statement has a result; `effects` tells whether storage may have been changed. */
  datatype Happening = Happening(
    cancelled: bool,
    throws: bool,
    compiled: TableCatalog -> Compiled,
    rendered: bool,
    backend: Backend,
    effects: bool,
    mirrored: bool)

  datatype Mode = Mode(analyze: bool, planOnly: bool, maxRows: nat)

  // ---------------------------------------------------------------- what a script should report

  /** Statements are executed over the runtime catalog, then only analyzed over a shadow of it, and at some
      point all the rest gets one status. */
  datatype Phase = Running(catalog: TableCatalog) | Analyzing(catalog: TableCatalog) | Over(rest: Status)

  datatype Verdict = Verdict(status: Status, outcome: Option<Outcome>, after: Phase)

  /** After a failure the rest is analyzed, or skipped. */
  function Failed(c: TableCatalog, m: Mode): Phase {
    if m.analyze then Analyzing(c) else Over(Skipped)
  }

  /** A fatal abort: the statement is indeterminate if it may have had effects. */
  function Aborted(h: Happening): Verdict {
    Verdict(if h.effects then Indeterminate else Skipped, None, Over(Skipped))
  }

  function JudgeExecuted(c: TableCatalog, plan: Plan, h: Happening, m: Mode): Verdict {
    match Execute(plan, c, h.backend, m.maxRows)
    case WasCancelled => Verdict(Cancelled, None, Over(Cancelled))
    case Ended(outcome, after) =>
      if outcome == Fails(InternalKind) then Aborted(h)
      else if IsFailure(outcome) then Verdict(ExecutionError, Some(outcome), Failed(c, m))
      else Verdict(Executed, Some(outcome),
          if m.analyze && plan.CreateTable? && !h.mirrored then Over(Skipped) else Running(after))
  }

  function JudgeAnalyzed(c: TableCatalog, plan: Plan): Verdict {
    match ApplyDdl(c, plan)
    case Rejected => Verdict(AnalysisError, Some(Fails(AnalysisKind)), Analyzing(c))
    case NotCreate => Verdict(AnalysisOnly, None, Analyzing(c))
    case Applied(after) => Verdict(AnalysisOnly, None, Analyzing(after))
  }

  /** The result of one statement and what it means for the rest. */
  function Judge(p: Phase, h: Happening, m: Mode): Verdict {
    if p.Over? then Verdict(p.rest, None, p)
    else if h.cancelled then Verdict(Cancelled, None, Over(Cancelled))
    else if h.throws then Aborted(h)
    else
      match h.compiled(p.catalog)
      case CompilerBroke => Aborted(h)
      case CompileFailed =>
        Verdict(CompileError, Some(Fails(CompileKind)), if p.Analyzing? then p else Failed(p.catalog, m))
      case Compiles(plan) =>
        if m.planOnly then (if h.rendered then Verdict(PlanOnly, Some(Query), p) else Aborted(h))
        else if p.Analyzing? then JudgeAnalyzed(p.catalog, plan)
        else JudgeExecuted(p.catalog, plan, h, m)
  }

  /** The results of the statements from `from` on. */
  function Results(p: Phase, script: seq<Happening>, from: nat, m: Mode): (r: seq<Entry>)
    ensures |r| == |script|
    decreases |script|
  {
    if script == [] then []
    else
      var v := Judge(p, script[0], m);
      [Entry(from, v.status, v.outcome)] + Results(v.after, script[1..], from + 1, m)
  }

  function PhaseAfter(p: Phase, script: seq<Happening>, m: Mode): Phase {
    if script == [] then p else Judge(PhaseAfter(p, script[..|script| - 1], m), script[|script| - 1], m).after
  }

  // ---------------------------------------------------------------- one result per statement

  predicate Resting(p: Phase) {
    p.Over? ==> p.rest.Skipped? || p.rest.Cancelled?
  }

  lemma ExecutedIsAccepted(c: TableCatalog, plan: Plan, h: Happening, m: Mode)
    ensures var v := JudgeExecuted(c, plan, h, m);
            FactoryAccepts(v.status, v.outcome) && Resting(v.after)
  {
    ExecutionIsReportable(plan, c, h.backend, m.maxRows);
  }

  /** The result factories accept whatever the runner hands them, for every plan and every answer of the storage. */
  lemma JudgeIsAccepted(p: Phase, h: Happening, m: Mode)
    requires Resting(p)
    ensures var v := Judge(p, h, m);
            FactoryAccepts(v.status, v.outcome) && Resting(v.after)
  {
    if !p.Over? && h.compiled(p.catalog).Compiles? {
      ExecutedIsAccepted(p.catalog, h.compiled(p.catalog).plan, h, m);
    }
  }

  lemma {:induction false} EntriesAreAccepted(p: Phase, script: seq<Happening>, from: nat, m: Mode)
    requires Resting(p)
    ensures forall k :: 0 <= k < |script| ==>
      var e := Results(p, script, from, m)[k];
      e.index == from + k && FactoryAccepts(e.status, e.outcome)
    decreases |script|
  {
    if script != [] {
      JudgeIsAccepted(p, script[0], m);
      var rest := Results(Judge(p, script[0], m).after, script[1..], from + 1, m);
      EntriesAreAccepted(Judge(p, script[0], m).after, script[1..], from + 1, m);
      assert forall k :: 0 < k < |script| ==> Results(p, script, from, m)[k] == rest[k - 1];
    }
  }

  /** Whatever happens, every statement has exactly one result, in order, that the factories accept. */
  lemma ResultsAreComplete(c: TableCatalog, script: seq<Happening>, m: Mode)
    ensures Complete(Results(Running(c), script, 0, m), |script|)
  {
    EntriesAreAccepted(Running(c), script, 0, m);
  }

  // ---------------------------------------------------------------- nothing runs after a failure

  predicate MayRun(p: Phase, m: Mode) {
    p.Running? && !m.planOnly
  }

  lemma {:induction false} NothingRuns(p: Phase, script: seq<Happening>, from: nat, m: Mode)
    requires Resting(p) && !MayRun(p, m)
    ensures forall k :: 0 <= k < |script| ==> !Ran(Results(p, script, from, m)[k].status)
    decreases |script|
  {
    if script != [] {
      JudgeIsAccepted(p, script[0], m);
      var rest := Results(Judge(p, script[0], m).after, script[1..], from + 1, m);
      NothingRuns(Judge(p, script[0], m).after, script[1..], from + 1, m);
      assert forall k :: 0 < k < |script| ==> Results(p, script, from, m)[k] == rest[k - 1];
    }
  }

  lemma OnlySuccessGoesOn(p: Phase, h: Happening, m: Mode)
    requires MayRun(Judge(p, h, m).after, m)
    ensures MayRun(p, m) && Judge(p, h, m).status.Executed?
  {
  }

  /** No statement is executed after the first one that did not simply succeed. */
  lemma {:induction false} ResultsStopAtFailure(p: Phase, script: seq<Happening>, from: nat, m: Mode)
    requires Resting(p)
    ensures StopsAtFailure(Results(p, script, from, m))
    decreases |script|
  {
    if script != [] {
      JudgeIsAccepted(p, script[0], m);
      var v, all := Judge(p, script[0], m), Results(p, script, from, m);
      var rest := Results(v.after, script[1..], from + 1, m);
      ResultsStopAtFailure(v.after, script[1..], from + 1, m);
      if !MayRun(v.after, m) {
        NothingRuns(v.after, script[1..], from + 1, m);
      } else {
        OnlySuccessGoesOn(p, script[0], m);
      }
      assert forall k :: 0 < k < |script| ==> all[k] == rest[k - 1];
    }
  }

  lemma {:induction false} PlanOnlyKeepsCatalog(c: TableCatalog, script: seq<Happening>, m: Mode)
    requires m.planOnly
    ensures PhaseAfter(Running(c), script, m).Over? || PhaseAfter(Running(c), script, m).catalog == c
  {
    if script != [] {
      PlanOnlyKeepsCatalog(c, script[..|script| - 1], m);
    }
  }

  /** Plan-only mode never executes anything, and leaves the catalog it started from in force. */
  lemma PlanOnlyRunsNothing(c: TableCatalog, script: seq<Happening>, m: Mode)
    requires m.planOnly
    ensures forall k :: 0 <= k < |script| ==> !Ran(Results(Running(c), script, 0, m)[k].status)
    ensures PhaseAfter(Running(c), script, m).Over? || PhaseAfter(Running(c), script, m).catalog == c
  {
    NothingRuns(Running(c), script, 0, m);
    PlanOnlyKeepsCatalog(c, script, m);
  }

  /** Nothing goes wrong at the statement. */
  predicate Succeeds(c: TableCatalog, h: Happening, m: Mode) {
    && !h.cancelled && !h.throws && h.compiled(c).Compiles?
    && (m.analyze && h.compiled(c).plan.CreateTable? ==> h.mirrored)
    && var e := Execute(h.compiled(c).plan, c, h.backend, m.maxRows); e.Ended? && !IsFailure(e.outcome)
  }

  /** Statement k is reached with nothing wrong before it, and nothing goes wrong at it. */
  predicate SucceedsAt(c: TableCatalog, script: seq<Happening>, k: nat, m: Mode)
    requires k < |script|
  {
    var p := PhaseAfter(Running(c), script[..k], m);
    p.Running? && Succeeds(p.catalog, script[k], m)
  }

  lemma GoesOnIffSucceeds(p: Phase, h: Happening, m: Mode)
    requires !m.planOnly
    ensures Judge(p, h, m).after.Running? <==> p.Running? && Succeeds(p.catalog, h, m)
  {
  }

  ghost predicate AllSucceed(c: TableCatalog, script: seq<Happening>, m: Mode) {
    forall k :: 0 <= k < |script| ==> SucceedsAt(c, script, k, m)
  }

  lemma AllSucceedStep(c: TableCatalog, script: seq<Happening>, m: Mode)
    requires script != []
    ensures AllSucceed(c, script, m) <==>
      AllSucceed(c, script[..|script| - 1], m) && SucceedsAt(c, script, |script| - 1, m)
  {
    var init := script[..|script| - 1];
    forall k | 0 <= k < |init| ensures SucceedsAt(c, init, k, m) == SucceedsAt(c, script, k, m) {
      assert init[..k] == script[..k];
    }
  }

  /** A script is executed up to exactly its first statement at which something goes wrong. */
  lemma {:induction false} ExecutedExactlyUntilFailure(c: TableCatalog, script: seq<Happening>, m: Mode)
    requires !m.planOnly
    ensures PhaseAfter(Running(c), script, m).Running? <==> AllSucceed(c, script, m)
  {
    if script != [] {
      var n := |script| - 1;
      ExecutedExactlyUntilFailure(c, script[..n], m);
      GoesOnIffSucceeds(PhaseAfter(Running(c), script[..n], m), script[n], m);
      AllSucceedStep(c, script, m);
    }
  }

  // ---------------------------------------------------------------- the catalogs

  /** A catalog in force that statements can be compiled and executed over. */
  ghost predicate GoodPhase(p: Phase) {
    !p.Over? ==> GoodCatalog(p.catalog) && p.catalog.next >= FIRST_USER_TABLE
  }

  lemma JudgeKeepsGood(p: Phase, h: Happening, m: Mode)
    requires GoodPhase(p)
    ensures GoodPhase(Judge(p, h, m).after)
  {
    if !p.Over? && h.compiled(p.catalog).Compiles? {
      var plan := h.compiled(p.catalog).plan;
      ExecuteKeepsGood(plan, p.catalog, h.backend, m.maxRows);
      if plan.CreateTable? {
        ShadowMirrorsRuntime(p.catalog, plan);
        if RuntimeAccepts(p.catalog, plan) {
          CreateKeepsGood(p.catalog, plan);
        }
      }
    }
  }

  lemma {:induction false} ScriptKeepsGood(p: Phase, script: seq<Happening>, m: Mode)
    requires GoodPhase(p)
    ensures GoodPhase(PhaseAfter(p, script, m))
  {
    if script != [] {
      ScriptKeepsGood(p, script[..|script| - 1], m);
      JudgeKeepsGood(PhaseAfter(p, script[..|script| - 1], m), script[|script| - 1], m);
    }
  }

  /** From the catalog open restores (the storage lists its system tables, so some listed id is 1 or more), every
      statement of every script meets a catalog with valid metadata, distinct ids and distinct names; and when it
      is only analyzed, a CREATE is accepted exactly as the runtime would accept it, with the same effect. */
  lemma StatementsMeetGoodCatalogs(listed: seq<TableMeta>, script: seq<Happening>, m: Mode, p: Plan)
    requires Restored(listed).Some? && exists t :: t in listed && t.id >= 1
    ensures var now := PhaseAfter(Running(Restored(listed).value), script, m);
            !now.Over? ==>
              && CatalogOk(now.catalog.tables) && DistinctNames(now.catalog.tables)
              && (p.CreateTable? ==>
                    ApplyDdl(now.catalog, p) ==
                    if RuntimeAccepts(now.catalog, p) then Applied(Added(now.catalog, p)) else Rejected)
  {
    RestoredIsGood(listed);
    ScriptKeepsGood(Running(Restored(listed).value), script, m);
    var now := PhaseAfter(Running(Restored(listed).value), script, m);
    if !now.Over? && p.CreateTable? {
      ShadowMirrorsRuntime(now.catalog, p);
    }
  }

  /** The CREATE a statement applies to the catalog of its phase. */
  function Creates(p: Phase, h: Happening, m: Mode): (r: seq<Plan>)
    ensures forall i :: 0 <= i < |r| ==> r[i].CreateTable?
  {
    if p.Over? || Judge(p, h, m).after.Over? || Judge(p, h, m).after.catalog == p.catalog then []
    else
      var plan := h.compiled(p.catalog);
      if plan.Compiles? && plan.plan.CreateTable? then [plan.plan] else []
  }

  function AllCreates(p: Phase, script: seq<Happening>, m: Mode): (r: seq<Plan>)
    ensures forall i :: 0 <= i < |r| ==> r[i].CreateTable?
  {
    if script == [] then []
    else
      var n := |script| - 1;
      AllCreates(p, script[..n], m) + Creates(PhaseAfter(p, script[..n], m), script[n], m)
  }

  lemma JudgeAddsCreates(p: Phase, h: Happening, m: Mode)
    requires !Judge(p, h, m).after.Over?
    ensures !p.Over? && Judge(p, h, m).after.catalog == AddAll(p.catalog, Creates(p, h, m))
  {
    var plans := Creates(p, h, m);
    if plans != [] {
      assert plans[..0] == [];
    }
  }

  lemma {:induction false} AddAllConcat(c: TableCatalog, a: seq<Plan>, b: seq<Plan>)
    requires forall i :: 0 <= i < |a| ==> a[i].CreateTable?
    requires forall i :: 0 <= i < |b| ==> b[i].CreateTable?
    ensures AddAll(c, a + b) == AddAll(AddAll(c, a), b)
  {
    if b == [] {
      assert a + b == a;
    } else {
      var n := |b| - 1;
      AddAllConcat(c, a, b[..n]);
      assert a + b == (a + b[..n]) + [b[n]];
      AddAllStep(c, a + b[..n], b[n]);
    }
  }

  /** The catalog in force, runtime or shadow, is the starting one with the CREATEs applied so far. */
  lemma {:induction false} CatalogIsCreates(p: Phase, script: seq<Happening>, m: Mode)
    requires !PhaseAfter(p, script, m).Over?
    ensures !p.Over? && PhaseAfter(p, script, m).catalog == AddAll(p.catalog, AllCreates(p, script, m))
  {
    if script != [] {
      var n := |script| - 1;
      var before := PhaseAfter(p, script[..n], m);
      JudgeAddsCreates(before, script[n], m);
      CatalogIsCreates(p, script[..n], m);
      AddAllConcat(p.catalog, AllCreates(p, script[..n], m), Creates(before, script[n], m));
    }
  }

  lemma ScriptSplits(script: seq<Happening>, j: nat)
    requires j < |script|
    ensures script[..|script| - 1][..j] == script[..j] && script[j..] != []
    ensures script[..|script| - 1][j..] == script[j..][..|script[j..]| - 1]
    ensures script[j..][|script[j..]| - 1] == script[|script| - 1]
  {
  }

  lemma PhaseStep(p: Phase, script: seq<Happening>, m: Mode)
    requires script != []
    ensures PhaseAfter(p, script, m) ==
            Judge(PhaseAfter(p, script[..|script| - 1], m), script[|script| - 1], m).after
  {
  }

  lemma {:induction false} PhaseSplits(p: Phase, script: seq<Happening>, m: Mode, j: nat)
    requires j <= |script|
    ensures PhaseAfter(p, script, m) == PhaseAfter(PhaseAfter(p, script[..j], m), script[j..], m)
    decreases |script|
  {
    var n := |script| - 1;
    if j == |script| {
      assert script[..j] == script && script[j..] == [];
    } else {
      PhaseSplits(p, script[..n], m, j);
      ScriptSplits(script, j);
      PhaseStep(p, script, m);
      PhaseStep(PhaseAfter(p, script[..j], m), script[j..], m);
    }
  }

  /** When statements are only analyzed, there was a first failure, at statement j; the shadow then was the
      runtime catalog of that moment, and has since grown by the CREATEs the analysis accepted. */
  lemma {:induction false} ShadowStartsAtFailure(c: TableCatalog, script: seq<Happening>, m: Mode) returns (j: nat)
    requires PhaseAfter(Running(c), script, m).Analyzing?
    ensures j < |script| && PhaseAfter(Running(c), script[..j], m).Running?
    ensures var runtime := PhaseAfter(Running(c), script[..j], m).catalog;
            && PhaseAfter(Running(c), script[..j + 1], m) == Analyzing(runtime)
            && PhaseAfter(Running(c), script, m).catalog ==
                AddAll(runtime, AllCreates(Analyzing(runtime), script[j + 1..], m))
  {
    j := FirstFailure(c, script, m);
    PhaseSplits(Running(c), script, m, j + 1);
    CatalogIsCreates(PhaseAfter(Running(c), script[..j + 1], m), script[j + 1..], m);
  }

  lemma AnalysisStarts(p: Phase, h: Happening, m: Mode)
    requires Judge(p, h, m).after.Analyzing?
    ensures !p.Over? && (p.Running? ==> Judge(p, h, m).after == Analyzing(p.catalog))
  {
  }

  lemma {:induction false} FirstFailure(c: TableCatalog, script: seq<Happening>, m: Mode) returns (j: nat)
    requires PhaseAfter(Running(c), script, m).Analyzing?
    ensures j < |script| && PhaseAfter(Running(c), script[..j], m).Running?
    ensures PhaseAfter(Running(c), script[..j + 1], m) == Analyzing(PhaseAfter(Running(c), script[..j], m).catalog)
  {
    var n := |script| - 1;
    var before := PhaseAfter(Running(c), script[..n], m);
    AnalysisStarts(before, script[n], m);
    if before.Running? {
      j := n;
      assert script[..j + 1] == script;
    } else {
      j := FirstFailure(c, script[..n], m);
      assert script[..n][..j] == script[..j] && script[..n][..j + 1] == script[..j + 1];
    }
  }

  // ---------------------------------------------------------------- the loop

  /** fill_skipped and fill_cancelled. */
  method Fill(results: seq<Entry>, n: nat, status: Status) returns (all: seq<Entry>)
    requires |results| <= n
    ensures |all| == n && all[..|results|] == results
    ensures forall k :: |results| <= k < n ==> all[k] == Entry(k, status, None)
  {
    all := results;
    while |all| < n
      invariant |results| <= |all| <= n && all[..|results|] == results
      invariant forall k :: |results| <= k < |all| ==> all[k] == Entry(k, status, None)
      decreases n - |all|
    {
      all := all + [Entry(|all|, status, None)];
    }
  }

  lemma {:induction false} RestOver(status: Status, script: seq<Happening>, from: nat, m: Mode, k: nat)
    requires k < |script|
    ensures Results(Over(status), script, from, m)[k] == Entry(from + k, status, None)
    decreases |script|
  {
    if k > 0 {
      RestOver(status, script[1..], from + 1, m, k - 1);
    }
  }

  /** The results so far followed by one status for all the rest are the results of a script that is over. */
  lemma FilledIsOver(results: seq<Entry>, all: seq<Entry>, script: seq<Happening>, status: Status, m: Mode)
    requires |all| == |results| + |script| && all[..|results|] == results
    requires forall k :: |results| <= k < |all| ==> all[k] == Entry(k, status, None)
    ensures all == results + Results(Over(status), script, |results|, m)
  {
    forall k | |results| <= k < |all| ensures all[k] == Results(Over(status), script, |results|, m)[k - |results|] {
      RestOver(status, script, |results|, m, k - |results|);
    }
  }

  /** abort_script and abort_after_exception. */
  method Abort(results: seq<Entry>, script: seq<Happening>, h: Happening, ghost m: Mode) returns (all: seq<Entry>)
    ensures all == results + [Entry(|results|, Aborted(h).status, None)] +
      Results(Over(Skipped), script, |results| + 1, m)
  {
    var some := results;
    if h.effects {
      some := results + [Entry(|results|, Indeterminate, None)];
    }
    all := Fill(some, |results| + 1 + |script|, Skipped);
    var first := results + [Entry(|results|, Aborted(h).status, None)];
    assert all[..|some|] == some;
    assert all[..|first|] == first by {
      assert forall k :: 0 <= k < |results| ==> all[k] == all[..|some|][k];
    }
    FilledIsOver(first, all, script, Skipped, m);
  }

  lemma ResultsStep(done: seq<Entry>, p: Phase, script: seq<Happening>, from: nat, m: Mode)
    requires script != []
    ensures var v := Judge(p, script[0], m);
            done + Results(p, script, from, m) ==
                done + [Entry(from, v.status, v.outcome)] + Results(v.after, script[1..], from + 1, m)
  {
  }

  /** The locals of the statement loop: `shadow` is used only under the analyze policy. */
  datatype Locals = Locals(results: seq<Entry>, allowed: bool, runtime: TableCatalog, shadow: TableCatalog)

  /** The phase the locals stand for. */
  ghost function PhaseOf(l: Locals): Phase {
    if l.allowed then Running(l.runtime) else Analyzing(l.shadow)
  }

  ghost predicate LocalsOk(l: Locals, m: Mode) {
    (l.allowed && m.analyze ==> l.shadow == l.runtime) && (!l.allowed ==> m.analyze)
  }

  datatype Next = Go(locals: Locals) | Stop(results: seq<Entry>)

  /** What one statement adds, and how the loop goes on. */
  ghost predicate Handled(next: Next, l: Locals, script: seq<Happening>, m: Mode)
    requires script != []
  {
    var v := Judge(PhaseOf(l), script[0], m);
    var results := l.results + [Entry(|l.results|, v.status, v.outcome)];
    match next
    case Go(l') => l'.results == results && LocalsOk(l', m) && PhaseOf(l') == v.after
    case Stop(all) => all == results + Results(v.after, script[1..], |results|, m)
  }

  /** The part of the loop body that executes a plan. */
  method ExecuteStatement(l: Locals, plan: Plan, script: seq<Happening>, m: Mode) returns (next: Next)
    requires script != [] && l.allowed && LocalsOk(l, m) && !m.planOnly && !script[0].cancelled && !script[0].throws
    requires script[0].compiled(l.runtime) == Compiles(plan)
    ensures Handled(next, l, script, m)
  {
    var h, i, n := script[0], |l.results|, |l.results| + |script|;
    var execution := Execute(plan, l.runtime, h.backend, m.maxRows);
    if execution.WasCancelled? {
      var results := l.results + [Entry(i, Cancelled, None)];
      var all := Fill(results, n, Cancelled);
      FilledIsOver(results, all, script[1..], Cancelled, m);
      return Stop(all);
    }
    if execution.outcome == Fails(InternalKind) {
      var all := Abort(l.results, script[1..], h, m);
      return Stop(all);
    }
    if IsFailure(execution.outcome) {
      var results := l.results + [Entry(i, ExecutionError, Some(execution.outcome))];
      if !m.analyze {
        var all := Fill(results, n, Skipped);
        FilledIsOver(results, all, script[1..], Skipped, m);
        return Stop(all);
      }
      return Go(l.(results := results, allowed := false));
    }
    var results := l.results + [Entry(i, Executed, Some(execution.outcome))];
    if m.analyze && plan.CreateTable? {
      if !h.mirrored {
        var all := Fill(results, n, Skipped);
        FilledIsOver(results, all, script[1..], Skipped, m);
        return Stop(all);
      }
      return Go(l.(results := results, runtime := execution.catalog, shadow := execution.catalog));
    }
    return Go(l.(results := results, runtime := execution.catalog));
  }

  /** The loop body. */
  method HandleStatement(l: Locals, script: seq<Happening>, m: Mode) returns (next: Next)
    requires script != [] && LocalsOk(l, m)
    ensures Handled(next, l, script, m)
  {
    var h, i, n := script[0], |l.results|, |l.results| + |script|;
    if h.cancelled {
      var results := l.results + [Entry(i, Cancelled, None)];
      var all := Fill(results, n, Cancelled);
      FilledIsOver(results, all, script[1..], Cancelled, m);
      return Stop(all);
    }
    if h.throws {
      var all := Abort(l.results, script[1..], h, m);
      return Stop(all);
    }
    match h.compiled(if l.allowed then l.runtime else l.shadow)
    case CompilerBroke =>
      var all := Abort(l.results, script[1..], h, m);
      next := Stop(all);
    case CompileFailed =>
      var results := l.results + [Entry(i, CompileError, Some(Fails(CompileKind)))];
      if l.allowed && !m.analyze {
        var all := Fill(results, n, Skipped);
        FilledIsOver(results, all, script[1..], Skipped, m);
        return Stop(all);
      }
      next := Go(l.(results := results, allowed := false));
    case Compiles(plan) =>
      if m.planOnly {
        if !h.rendered {
          var all := Abort(l.results, script[1..], h, m);
          return Stop(all);
        }
        next := Go(l.(results := l.results + [Entry(i, PlanOnly, Some(Query))]));
      } else if l.allowed {
        next := ExecuteStatement(l, plan, script, m);
      } else {
        match ApplyDdl(l.shadow, plan)
        case Rejected =>
          next := Go(l.(results := l.results + [Entry(i, AnalysisError, Some(Fails(AnalysisKind)))]));
        case NotCreate =>
          next := Go(l.(results := l.results + [Entry(i, AnalysisOnly, None)]));
        case Applied(shadow) =>
          next := Go(l.(results := l.results + [Entry(i, AnalysisOnly, None)], shadow := shadow));
      }
  }

  /** execute_script, once splitting and the count check have passed. */
  method ExecuteScript(script: seq<Happening>, m: Mode, start: TableCatalog) returns (results: seq<Entry>)
    ensures results == Results(Running(start), script, 0, m)
  {
    var l := Locals([], true, start, start);
    var i := 0;
    ghost var expected := Results(Running(start), script, 0, m);
    assert [] + expected == expected;
    while i < |script|
      invariant i <= |script| && |l.results| == i && LocalsOk(l, m)
      invariant expected == l.results + Results(PhaseOf(l), script[i..], i, m)
    {
      ResultsStep(l.results, PhaseOf(l), script[i..], i, m);
      assert script[i..][1..] == script[i + 1..];
      var next := HandleStatement(l, script[i..], m);
      if next.Stop? {
        return next.results;
      }
      l, i := next.locals, i + 1;
    }
    results := l.results;
  }
}
