/** Under its grouping and its order a SELECT works on exactly the tuples on which ON and WHERE are true. */
module SqlFilters {
  import opened Common
  import opened Values
  import opened Expressions
  import opened Optimizer
  import opened Binding
  import opened Pipeline
  import opened Aggregates
  import opened Plans
  import opened PlanRows
  import opened Select
  import opened SelectAnalysis
  import opened SelectPlans
  import opened SelectAccepted
  import opened Execution
  import opened SqlMeaning
  import opened SqlNames
  import opened SqlJoins
  import HashJoin
  import SelectOptimized

  lemma {:induction false} KeepBoth<T(!new)>(ts: seq<T>, both: T -> bool, first: T -> bool, second: T -> bool)
    requires forall i :: 0 <= i < |ts| ==> both(ts[i]) == (first(ts[i]) && second(ts[i]))
    ensures Keep(ts, both) == Keep(Keep(ts, first), second)
  {
    if ts != [] {
      var n := |ts| - 1;
      KeepBoth(ts[..n], both, first, second);
      KeepConcat(Keep(ts[..n], first), if first(ts[n]) then [ts[n]] else [], second);
      KeepOne(ts[n], second);
      assert Keep<T>([], second) == [];
    }
  }

  lemma KeepOne<T(!new)>(t: T, p: T -> bool)
    ensures Keep([t], p) == if p(t) then [t] else []
  {
    assert [t][..0] == [];
  }

  lemma {:induction false} FilterIsKept(condition: Expr<nat>, rows: Rows)
    requires HashJoin.AllSound(rows, condition)
    ensures FilterRows(condition, rows) == Ok(HashJoin.Kept(rows, condition))
  {
    if rows != [] {
      FilterIsKept(condition, rows[..|rows| - 1]);
      assert forall done: Rows :: done + [] == done;
    }
  }

  /** The joined tuples on which the WHERE is true are the selected ones. */
  lemma SelectedIsFiltered(ast: SelectAst, from: Scope, tables: Tables)
    requires |from| == |ast.joins| + 1
    ensures ast.filter.None? ==> Selected(ast, from, tables) == JoinedTuples(ast, from, tables, |ast.joins|)
    ensures ast.filter.Some? ==>
              Selected(ast, from, tables) ==
              Keep(JoinedTuples(ast, from, tables, |ast.joins|), Truths(ast.filter.value, from))
  {
    var n := |ast.joins|;
    assert Contents(tables, from)[..n + 1] == Contents(tables, from);
    var all := AllTuples(Contents(tables, from));
    if ast.filter.None? {
      KeepAgrees(all, Qualifying(ast, from), JoinedUpTo(ast, from, n));
    } else {
      KeepBoth(all, Qualifying(ast, from), JoinedUpTo(ast, from, n), Truths(ast.filter.value, from));
    }
  }

  /** How the WHERE clause got into the plan. */
  ghost predicate FilterPlannedAs(ast: SelectAst, from: Scope, filter: Option<Expr<nat>>) {
    if ast.filter.None? then filter.None?
    else
      && Accepted(ast.filter.value, from)
      && filter == if Optimize(Analyze(ast.filter.value, from).value.expr).constant == Some(True) then None
                   else Planned(ast.filter.value, from)
  }

  lemma ConstantFilter(e: Expr<Name>, from: Scope, ts: seq<Tuple>)
    requires Sane(from) && Accepted(e, from) && AllOk(from, ts)
    requires Optimize(Analyze(e, from).value.expr).constant == Some(True)
    ensures Keep(ts, Truths(e, from)) == ts
  {
    AnalyzeTyped(e, from);
    forall i | 0 <= i < |ts| ensures IsTrue(e, from, ts[i]) {
      BoundEnvOk(from, ts[i]);
      OptimizeAgrees(Analyze(e, from).value.expr, BoundEnv(from, ts[i]), Types(from));
      AnalyzeKeepsMeaning(e, from, ts[i]);
    }
    KeepAll(ts, Truths(e, from));
  }

  lemma FilteredTuples(ast: SelectAst, from: Scope, filter: Option<Expr<nat>>, ts: seq<Tuple>)
    requires Sane(from) && AllOk(from, ts) && ast.filter.Some? && FilterPlannedAs(ast, from, filter)
    ensures AllSized(|from|, ts) && AllSized(|from|, Keep(ts, Truths(ast.filter.value, from)))
    ensures if filter.None? then Keep(ts, Truths(ast.filter.value, from)) == ts
            else
              FilterRows(filter.value, PlanRowsOf(from, ts)) ==
              Ok(PlanRowsOf(from, Keep(ts, Truths(ast.filter.value, from))))
  {
    var e := ast.filter.value;
    KeepSized(|from|, ts, Truths(e, from));
    if filter.None? {
      ConditionDecides(e, from, ts);
      ConstantFilter(e, from, ts);
    } else {
      ConditionDecides(e, from, ts);
      KeptAreTuples(filter.value, from, ts, Truths(e, from));
      FilterIsKept(filter.value, PlanRowsOf(from, ts));
    }
  }

  /** Joins and filter deliver the selected tuples. */
  lemma InnerDelivers(catalog: Catalog, tables: Tables, ast: SelectAst, from: Scope, s: BoundSelect, tree: Node,
                      filter: Option<Expr<nat>>, depth: nat, limit: nat, f: Floats)
    requires FromSetting(catalog, tables, ast, from, s) && JoinTree(s, from, |s.joins|) == Some(tree)
    requires FilterPlannedAs(ast, from, filter)
    requires Reference(catalog, tables, AddFilter(filter, tree), depth, limit, f).Ok?
    ensures AllOk(from, Selected(ast, from, tables))
    ensures Reference(catalog, tables, AddFilter(filter, tree), depth, limit, f) ==
            Ok(PlanRowsOf(from, Selected(ast, from, tables)))
  {
    var n := |ast.joins|;
    var level := if filter.None? then depth else depth + 1;
    SelectOptimized.FilterReference(catalog, tables, filter, tree, depth, limit, f);
    TreeDelivers(catalog, tables, ast, from, s, n, level, limit, f);
    JoinedTuplesOk(catalog, tables, ast, from, n);
    assert from[..n + 1] == from;
    SelectedIsFiltered(ast, from, tables);
    var ts := JoinedTuples(ast, from, tables, n);
    if ast.filter.Some? {
      KeptAreThere(ts, Truths(ast.filter.value, from));
      FilteredTuples(ast, from, filter, ts);
    }
  }
}
