/** The join tree of a SELECT delivers the tuples on which its ON conditions are true, as rows of slots. */
module SqlJoins {
  import opened Common
  import opened Values
  import opened Expressions
  import opened Optimizer
  import opened Binding
  import opened Pipeline
  import opened Aggregates
  import opened Plans
  import opened PlanRows
  import opened Select
  import opened SelectAnalysis
  import opened SelectPlans
  import opened Execution
  import opened SqlMeaning
  import opened SqlNames
  import HashJoin

  // ---------------------------------------------------------------- tuples as rows of slots

  /** The row the plan makes of a tuple. */
  ghost function PlanRow(from: Scope, t: Tuple): SlotRow
    requires |t| == |from|
  {
    RowOf(from, 0, BoundEnv(from, t))
  }

  ghost predicate AllSized(n: nat, ts: seq<Tuple>) {
    forall i :: 0 <= i < |ts| ==> |ts[i]| == n
  }

  ghost predicate AllOk(from: Scope, ts: seq<Tuple>) {
    forall i :: 0 <= i < |ts| ==> TupleOk(from, ts[i])
  }

  ghost function PlanRowsOf(from: Scope, ts: seq<Tuple>): (r: Rows)
    requires AllSized(|from|, ts)
    ensures |r| == |ts| && forall i :: 0 <= i < |r| ==> r[i] == PlanRow(from, ts[i])
  {
    seq(|ts|, i requires 0 <= i < |ts| => PlanRow(from, ts[i]))
  }

  /** The row the plan makes of a stored row of relation k. */
  ghost function ScannedRow(from: Scope, k: nat, row: Row): SlotRow
    requires k < |from| && |row| == |from[k].columns|
  {
    Materialize(row, ScanColumns(|from[k].columns|, Width(from[..k])))
  }

  ghost predicate RowsFit(meta: TableMeta, rows: seq<Row>) {
    forall i :: 0 <= i < |rows| ==> PhysicalOk(meta, rows[i])
  }

  ghost function ScannedRows(from: Scope, k: nat, rows: seq<Row>): (r: Rows)
    requires k < |from| && RowsFit(from[k], rows)
    ensures |r| == |rows| && forall i :: 0 <= i < |r| ==> r[i] == ScannedRow(from, k, rows[i])
  {
    seq(|rows|, i requires 0 <= i < |rows| => ScannedRow(from, k, rows[i]))
  }

  lemma BoundValueGrows(from: Scope, k: nat, t: Tuple, row: Row, i: nat, c: nat)
    requires DistinctIds(from) && i < k < |from| && |t| == k
    ensures BoundValue(from[..k + 1], t + [row], BoundColumn(from[i].id, c)) ==
            BoundValue(from[..k], t, BoundColumn(from[i].id, c))
  {
    BoundValueAt(from[..k + 1], t + [row], Place(i, c));
    BoundValueAt(from[..k], t, Place(i, c));
  }

  lemma PlanRowGrows(from: Scope, k: nat, t: Tuple, row: Row)
    requires DistinctIds(from) && k < |from| && |t| == k && |row| == |from[k].columns|
    ensures PlanRow(from[..k + 1], t + [row]) == PlanRow(from[..k], t) + ScannedRow(from, k, row)
  {
    var env := BoundEnv(from[..k + 1], t + [row]);
    assert from[..k + 1] == from[..k] + [from[k]];
    RowAppend(from[..k], from[k], 0, env);
    forall i, c: nat | 0 <= i < |from[..k]|
      ensures env(BoundColumn(from[..k][i].id, c)) == BoundEnv(from[..k], t)(BoundColumn(from[..k][i].id, c))
    {
      BoundValueGrows(from, k, t, row, i, c);
    }
    RowOfAgrees(from[..k], 0, env, BoundEnv(from[..k], t));
    ScannedIsHead(from, k, t, row);
  }

  lemma ScannedIsHead(from: Scope, k: nat, t: Tuple, row: Row)
    requires DistinctIds(from) && k < |from| && |t| == k && |row| == |from[k].columns|
    ensures HeadRow(from[k].id, |from[k].columns|, Width(from[..k]), BoundEnv(from[..k + 1], t + [row])) ==
            ScannedRow(from, k, row)
  {
    forall c: nat | c < |row|
      ensures BoundEnv(from[..k + 1], t + [row])(BoundColumn(from[k].id, c)) == row[c]
    {
      BoundValueAt(from[..k + 1], t + [row], Place(k, c));
    }
  }

  // ---------------------------------------------------------------- keeping

  lemma {:induction false} KeepAgrees<T(!new)>(ts: seq<T>, p: T -> bool, q: T -> bool)
    requires forall i :: 0 <= i < |ts| ==> p(ts[i]) == q(ts[i])
    ensures Keep(ts, p) == Keep(ts, q)
  {
    if ts != [] {
      KeepAgrees(ts[..|ts| - 1], p, q);
    }
  }

  lemma {:induction false} KeepConcat<T(!new)>(a: seq<T>, b: seq<T>, p: T -> bool)
    ensures Keep(a + b, p) == Keep(a, p) + Keep(b, p)
  {
    if b == [] {
      assert a + b == a;
    } else {
      KeepConcat(a, b[..|b| - 1], p);
      assert (a + b)[..|a + b| - 1] == a + b[..|b| - 1];
    }
  }

  lemma {:induction false} KeptAreThere<T(!new)>(ts: seq<T>, p: T -> bool)
    ensures forall i :: 0 <= i < |Keep(ts, p)| ==> Keep(ts, p)[i] in ts && p(Keep(ts, p)[i])
  {
    if ts != [] {
      KeptAreThere(ts[..|ts| - 1], p);
    }
  }

  lemma {:induction false} KeepNothing<T(!new)>(ts: seq<T>, p: T -> bool)
    requires forall i :: 0 <= i < |ts| ==> !p(ts[i])
    ensures Keep(ts, p) == []
  {
    if ts != [] {
      KeepNothing(ts[..|ts| - 1], p);
    }
  }

  lemma ExtendAppend(ts: seq<Tuple>, t: Tuple, rows: seq<Row>)
    ensures Extend(ts + [t], rows) == Extend(ts, rows) + With(t, rows)
  {
    assert (ts + [t])[..|ts|] == ts;
  }

  /** Filtering by a condition on the first part before extending, or after, is the same. */
  lemma {:induction false} KeepExtended(ts: seq<Tuple>, rows: seq<Row>, all: Tuple -> bool, first: Tuple -> bool,
                                        last: Tuple -> bool)
    requires forall i, j :: 0 <= i < |ts| && 0 <= j < |rows| ==>
               all(ts[i] + [rows[j]]) == (first(ts[i]) && last(ts[i] + [rows[j]]))
    ensures Keep(Extend(ts, rows), all) == Keep(Extend(Keep(ts, first), rows), last)
  {
    if ts != [] {
      var n, t := |ts| - 1, ts[|ts| - 1];
      KeepExtended(ts[..n], rows, all, first, last);
      KeepConcat(Extend(ts[..n], rows), With(t, rows), all);
      if first(t) {
        ExtendAppend(Keep(ts[..n], first), t, rows);
        KeepConcat(Extend(Keep(ts[..n], first), rows), With(t, rows), last);
        KeepAgrees(With(t, rows), all, last);
      } else {
        KeepNothing(With(t, rows), all);
        assert Keep(ts[..n], first) + [] == Keep(ts[..n], first);
      }
    }
  }

  // ---------------------------------------------------------------- one scan and one join

  lemma {:induction false} ScanGives(meta: TableMeta, rows: seq<Row>, columns: seq<ScanColumn>, limit: nat)
    requires ScanRows(meta, rows, columns, limit).Ok? && ScanOk(meta, columns)
    ensures |ScanRows(meta, rows, columns, limit).value| == |rows| && RowsFit(meta, rows)
    ensures forall i :: 0 <= i < |rows| ==>
              ScanRows(meta, rows, columns, limit).value[i] == Materialize(rows[i], columns)
  {
    if rows != [] {
      ScanGives(meta, rows[..|rows| - 1], columns, limit);
    }
  }

  /** Scanning relation k gives its stored rows. */
  lemma ScanIsContents(catalog: Catalog, tables: Tables, from: Scope, k: nat, depth: nat, limit: nat, f: Floats)
    requires CatalogOk(catalog) && InCatalog(from, catalog) && k < |from|
    requires Reference(catalog, tables, ScanOf(from, k), depth, limit, f).Ok?
    ensures RowsFit(from[k], tables(from[k].id))
    ensures Reference(catalog, tables, ScanOf(from, k), depth, limit, f).value ==
            ScannedRows(from, k, tables(from[k].id))
  {
    FindTableOf(catalog, from[k]);
    ScanGives(from[k], tables(from[k].id), ScanColumns(|from[k].columns|, Width(from[..k])), limit);
  }

  lemma PairsOfOne(from: Scope, k: nat, t: Tuple, rows: seq<Row>)
    requires DistinctIds(from) && k < |from| && |t| == k && RowsFit(from[k], rows)
    ensures AllSized(k + 1, With(t, rows))
    ensures HashJoin.PairsWith(PlanRow(from[..k], t), ScannedRows(from, k, rows)) ==
            PlanRowsOf(from[..k + 1], With(t, rows))
  {
    forall i | 0 <= i < |rows|
      ensures PlanRow(from[..k], t) + ScannedRow(from, k, rows[i]) == PlanRow(from[..k + 1], t + [rows[i]])
    {
      PlanRowGrows(from, k, t, rows[i]);
    }
  }

  lemma PlanRowsConcat(from: Scope, a: seq<Tuple>, b: seq<Tuple>)
    requires AllSized(|from|, a) && AllSized(|from|, b)
    ensures AllSized(|from|, a + b) && PlanRowsOf(from, a + b) == PlanRowsOf(from, a) + PlanRowsOf(from, b)
  {
  }

  lemma {:induction false} ExtendSized(n: nat, ts: seq<Tuple>, rows: seq<Row>)
    requires AllSized(n, ts)
    ensures AllSized(n + 1, Extend(ts, rows))
  {
    if ts != [] {
      ExtendSized(n, ts[..|ts| - 1], rows);
    }
  }

  /** The nested loop goes through the extended tuples in their order. */
  lemma {:induction false} PairsAreExtended(from: Scope, k: nat, ts: seq<Tuple>, rows: seq<Row>)
    requires DistinctIds(from) && k < |from| && AllSized(k, ts) && RowsFit(from[k], rows)
    ensures AllSized(k + 1, Extend(ts, rows))
    ensures HashJoin.Pairs(PlanRowsOf(from[..k], ts), ScannedRows(from, k, rows)) ==
            PlanRowsOf(from[..k + 1], Extend(ts, rows))
  {
    if ts != [] {
      var n, t := |ts| - 1, ts[|ts| - 1];
      PairsAreExtended(from, k, ts[..n], rows);
      PairsOfOne(from, k, t, rows);
      PlanRowsConcat(from[..k + 1], Extend(ts[..n], rows), With(t, rows));
      assert PlanRowsOf(from[..k], ts)[..n] == PlanRowsOf(from[..k], ts[..n]);
    }
  }

  /** The planned condition keeps the rows of the tuples that p holds of. */
  ghost predicate Decides(condition: Expr<nat>, from: Scope, ts: seq<Tuple>, p: Tuple -> bool)
    requires AllSized(|from|, ts)
  {
    forall i :: 0 <= i < |ts| ==> EvaluatePredicate(condition, PlanRow(from, ts[i])) == Ok(p(ts[i]))
  }

  lemma KeepSized(n: nat, ts: seq<Tuple>, p: Tuple -> bool)
    requires AllSized(n, ts)
    ensures AllSized(n, Keep(ts, p))
  {
    KeptAreThere(ts, p);
  }

  lemma PlanRowsInit(from: Scope, ts: seq<Tuple>)
    requires AllSized(|from|, ts) && ts != []
    ensures AllSized(|from|, ts[..|ts| - 1])
    ensures PlanRowsOf(from, ts)[..|ts| - 1] == PlanRowsOf(from, ts[..|ts| - 1])
  {
  }

  lemma KeptOneMore(condition: Expr<nat>, rows: Rows, row: SlotRow, keep: bool)
    requires EvaluatePredicate(condition, row) == Ok(keep)
    ensures HashJoin.Kept(rows + [row], condition) == HashJoin.Kept(rows, condition) + if keep then [row] else []
  {
    assert (rows + [row])[..|rows|] == rows;
  }

  lemma {:induction false} KeptAreTuples(condition: Expr<nat>, from: Scope, ts: seq<Tuple>, p: Tuple -> bool)
    requires AllSized(|from|, ts) && Decides(condition, from, ts, p)
    ensures AllSized(|from|, Keep(ts, p))
    ensures HashJoin.Kept(PlanRowsOf(from, ts), condition) == PlanRowsOf(from, Keep(ts, p))
  {
    if ts != [] {
      var n := |ts| - 1;
      var init, last := ts[..n], if p(ts[n]) then [ts[n]] else [];
      PlanRowsInit(from, ts);
      KeptAreTuples(condition, from, init, p);
      KeptOneMore(condition, PlanRowsOf(from, init), PlanRow(from, ts[n]), p(ts[n]));
      assert PlanRowsOf(from, ts) == PlanRowsOf(from, init) + [PlanRow(from, ts[n])];
      PlanRowsConcat(from, Keep(init, p), last);
      assert PlanRowsOf(from, last) == if p(ts[n]) then [PlanRow(from, ts[n])] else [];
    }
  }

  lemma JoinKeeps(left: Rows, right: Rows, condition: Expr<nat>, limit: nat)
    requires JoinRows(left, right, condition, limit).Ok?
    requires HashJoin.AllSound(HashJoin.Pairs(left, right), condition)
    ensures JoinRows(left, right, condition, limit).value == HashJoin.Kept(HashJoin.Pairs(left, right), condition)
  {
    HashJoin.PushAllKeeps([], HashJoin.Pairs(left, right), condition, limit);
    assert [] + HashJoin.Kept(HashJoin.Pairs(left, right), condition) ==
           HashJoin.Kept(HashJoin.Pairs(left, right), condition);
  }

  /** One join of tuples: extended by the next relation's rows, kept where the condition holds. */
  lemma JoinIsKept(from: Scope, k: nat, ts: seq<Tuple>, rows: seq<Row>, condition: Expr<nat>, p: Tuple -> bool,
                   limit: nat)
    requires DistinctIds(from) && k < |from| && AllSized(k, ts) && RowsFit(from[k], rows)
    requires AllSized(k + 1, Extend(ts, rows)) && Decides(condition, from[..k + 1], Extend(ts, rows), p)
    requires JoinRows(PlanRowsOf(from[..k], ts), ScannedRows(from, k, rows), condition, limit).Ok?
    ensures AllSized(k + 1, Keep(Extend(ts, rows), p))
    ensures JoinRows(PlanRowsOf(from[..k], ts), ScannedRows(from, k, rows), condition, limit).value ==
            PlanRowsOf(from[..k + 1], Keep(Extend(ts, rows), p))
  {
    PairsAreExtended(from, k, ts, rows);
    JoinKeeps(PlanRowsOf(from[..k], ts), ScannedRows(from, k, rows), condition, limit);
    KeptAreTuples(condition, from[..k + 1], Extend(ts, rows), p);
  }

  // ---------------------------------------------------------------- the conditions

  /** The predicate the plan evaluates for a condition of the statement. */
  ghost function Planned(e: Expr<Name>, from: Scope): Option<Expr<nat>>
    requires Analyze(e, from).Some?
  {
    GenerateExpr(Optimize(Analyze(e, from).value.expr).expr, BuildBindings(from, 0))
  }

  ghost function Truths(e: Expr<Name>, from: Scope): Tuple -> bool {
    t => IsTrue(e, from, t)
  }

  lemma ConditionDecides(e: Expr<Name>, from: Scope, ts: seq<Tuple>)
    requires Sane(from) && Accepted(e, from) && AllOk(from, ts)
    ensures Planned(e, from).Some? && Decides(Planned(e, from).value, from, ts, Truths(e, from))
  {
    PlannedPredicateIsValid(e, from, 0);
    forall i | 0 <= i < |ts|
      ensures EvaluatePredicate(Planned(e, from).value, PlanRow(from, ts[i])) == Ok(IsTrue(e, from, ts[i]))
    {
      BoundEnvOk(from, ts[i]);
      PlannedPredicateIsSound(e, from, 0, BoundEnv(from, ts[i]));
      AnalyzeKeepsMeaning(e, from, ts[i]);
    }
  }

  ghost predicate ConditionBound(e: Expr<Name>, scope: Scope, bound: Expr<BoundColumn>) {
    Analyze(e, scope).Some? && Truthy(Analyze(e, scope).value.ty) && bound == Analyze(e, scope).value.expr
  }

  /** Each bound condition is the analysis of its ON. */
  ghost predicate ConditionsBound(joins: seq<AstJoin>, from: BoundFrom) {
    && |from.joins| == |joins| && |from.scope| == |joins| + 1
    && forall j :: 0 <= j < |joins| ==>
         ConditionBound(joins[j].condition, from.scope[..j + 2], from.joins[j].condition)
  }

  lemma OneMoreCondition(joins: seq<AstJoin>, before: BoundFrom, after: BoundFrom)
    requires joins != [] && ConditionsBound(joins[..|joins| - 1], before)
    requires |after.scope| == |joins| + 1 && |after.joins| == |joins|
    requires before.scope == after.scope[..|joins|] && before.joins == after.joins[..|joins| - 1]
    requires ConditionBound(joins[|joins| - 1].condition, after.scope, after.joins[|joins| - 1].condition)
    ensures ConditionsBound(joins, after)
  {
    var n := |joins| - 1;
    assert after.scope[..n + 2] == after.scope;
    forall j | 0 <= j < n ensures ConditionBound(joins[j].condition, after.scope[..j + 2], after.joins[j].condition) {
      assert before.scope[..j + 2] == after.scope[..j + 2];
      assert ConditionBound(joins[..n][j].condition, before.scope[..j + 2], before.joins[j].condition);
    }
  }

  lemma {:induction false} ConditionsAreBound(catalog: Catalog, table: string, joins: seq<AstJoin>)
    requires BindFrom(catalog, table, joins).Some?
    ensures ConditionsBound(joins, BindFrom(catalog, table, joins).value)
    decreases |joins|
  {
    FromShape(catalog, table, joins);
    if joins != [] {
      var n := |joins| - 1;
      ConditionsAreBound(catalog, table, joins[..n]);
      OneMoreCondition(joins, BindFrom(catalog, table, joins[..n]).value, BindFrom(catalog, table, joins).value);
    }
  }

  // ---------------------------------------------------------------- the join tree

  /** An analyzed FROM clause over stored rows that match the schemas; s is the bound, optimized statement. */
  ghost predicate FromSetting(catalog: Catalog, tables: Tables, ast: SelectAst, from: Scope, s: BoundSelect) {
    && CatalogOk(catalog) && InCatalog(from, catalog) && TablesOk(catalog, tables)
    && Sane(from) && GoodFrom(s, from) && |s.joins| == |ast.joins|
    && forall j :: 0 <= j < |ast.joins| ==> ConditionPlanned(ast, from, s, j)
  }

  ghost predicate ConditionPlanned(ast: SelectAst, from: Scope, s: BoundSelect, j: nat)
    requires j < |ast.joins| == |s.joins| && |from| == |s.joins| + 1
  {
    var e, scope := ast.joins[j].condition, from[..j + 2];
    Accepted(e, scope) && s.joins[j].condition == Optimize(Analyze(e, scope).value.expr).expr
  }

  ghost function JoinedUpTo(ast: SelectAst, from: Scope, k: nat): Tuple -> bool
    requires k <= |ast.joins|
  {
    t => Joined(ast, from, t, k)
  }

  /** The tuples of the first n + 1 relations on which the first n conditions are true. */
  ghost function JoinedTuples(ast: SelectAst, from: Scope, tables: Tables, n: nat): seq<Tuple>
    requires n <= |ast.joins| < |from|
  {
    Keep(AllTuples(Contents(tables, from)[..n + 1]), JoinedUpTo(ast, from, n))
  }

  lemma AllTuplesStep(contents: seq<seq<Row>>, n: nat)
    requires n < |contents|
    ensures AllTuples(contents[..n + 1]) == Extend(AllTuples(contents[..n]), contents[n])
  {
    assert contents[..n + 1][..n] == contents[..n];
  }

  lemma {:induction false} AllTuplesSized(contents: seq<seq<Row>>)
    ensures AllSized(|contents|, AllTuples(contents))
  {
    if contents != [] {
      AllTuplesSized(contents[..|contents| - 1]);
      ExtendSized(|contents| - 1, AllTuples(contents[..|contents| - 1]), contents[|contents| - 1]);
    }
  }

  lemma TuplesSized(ast: SelectAst, from: Scope, tables: Tables, n: nat)
    requires n <= |ast.joins| < |from|
    ensures AllSized(n + 1, AllTuples(Contents(tables, from)[..n + 1])) &&
            AllSized(n + 1, JoinedTuples(ast, from, tables, n))
  {
    AllTuplesSized(Contents(tables, from)[..n + 1]);
    KeptAreThere(AllTuples(Contents(tables, from)[..n + 1]), JoinedUpTo(ast, from, n));
  }

  /** The next condition is about the extended tuple, the earlier ones about its first part. */
  lemma JoinedOnce(ast: SelectAst, from: Scope, t: Tuple, row: Row, n: nat)
    requires 0 < n <= |ast.joins| < |from| && |t| == n
    ensures Joined(ast, from, t + [row], n) ==
            (Joined(ast, from, t, n - 1) && IsTrue(ast.joins[n - 1].condition, from[..n + 1], t + [row]))
  {
    assert (t + [row])[..n + 1] == t + [row];
    if Joined(ast, from, t + [row], n) {
      forall j | 0 <= j < n - 1 ensures IsTrue(ast.joins[j].condition, from[..j + 2], t[..j + 2]) {
        assert (t + [row])[..j + 2] == t[..j + 2];
      }
    }
    if Joined(ast, from, t, n - 1) && IsTrue(ast.joins[n - 1].condition, from[..n + 1], t + [row]) {
      forall j | 0 <= j < n ensures IsTrue(ast.joins[j].condition, from[..j + 2], (t + [row])[..j + 2]) {
        if j < n - 1 {
          assert (t + [row])[..j + 2] == t[..j + 2];
        }
      }
    }
  }

  lemma JoinedTuplesStep(ast: SelectAst, from: Scope, tables: Tables, n: nat)
    requires 0 < n <= |ast.joins| < |from|
    ensures JoinedTuples(ast, from, tables, n) ==
            Keep(Extend(JoinedTuples(ast, from, tables, n - 1), tables(from[n].id)),
                 Truths(ast.joins[n - 1].condition, from[..n + 1]))
  {
    var contents := Contents(tables, from);
    var before, rows := AllTuples(contents[..n]), contents[n];
    AllTuplesStep(contents, n);
    AllTuplesSized(contents[..n]);
    forall i, j | 0 <= i < |before| && 0 <= j < |rows|
      ensures JoinedUpTo(ast, from, n)(before[i] + [rows[j]]) ==
              (JoinedUpTo(ast, from, n - 1)(before[i]) &&
                 Truths(ast.joins[n - 1].condition, from[..n + 1])(before[i] + [rows[j]]))
    {
      JoinedOnce(ast, from, before[i], rows[j], n);
    }
    KeepExtended(before, rows, JoinedUpTo(ast, from, n), JoinedUpTo(ast, from, n - 1),
                 Truths(ast.joins[n - 1].condition, from[..n + 1]));
  }

  lemma FirstTuples(ast: SelectAst, from: Scope, tables: Tables)
    requires from != [] && |ast.joins| < |from|
    ensures JoinedTuples(ast, from, tables, 0) == With([], tables(from[0].id))
  {
    var contents := Contents(tables, from);
    AllTuplesStep(contents, 0);
    var none: seq<Tuple> := [[]];
    assert contents[..0] == [] && AllTuples([]) == none;
    assert none[..0] == [] && Extend(none, contents[0]) == With([], contents[0]);
    KeepAll(With([], contents[0]), JoinedUpTo(ast, from, 0));
  }

  lemma {:induction false} KeepAll<T(!new)>(ts: seq<T>, p: T -> bool)
    requires forall i :: 0 <= i < |ts| ==> p(ts[i])
    ensures Keep(ts, p) == ts
  {
    if ts != [] {
      KeepAll(ts[..|ts| - 1], p);
      assert ts == ts[..|ts| - 1] + [ts[|ts| - 1]];
    }
  }

  lemma FirstScanTuples(ast: SelectAst, from: Scope, tables: Tables)
    requires from != [] && |ast.joins| < |from| && DistinctIds(from) && RowsFit(from[0], tables(from[0].id))
    ensures AllSized(1, JoinedTuples(ast, from, tables, 0))
    ensures ScannedRows(from, 0, tables(from[0].id)) == PlanRowsOf(from[..1], JoinedTuples(ast, from, tables, 0))
  {
    FirstTuples(ast, from, tables);
    PairsOfOne(from, 0, [], tables(from[0].id));
    assert PlanRow(from[..0], []) == [];
    var rows := ScannedRows(from, 0, tables(from[0].id));
    forall i | 0 <= i < |rows| ensures [] + rows[i] == rows[i] {}
    assert HashJoin.PairsWith([], rows) == rows;
  }

  lemma {:induction false} ExtendOk(from: Scope, k: nat, ts: seq<Tuple>, rows: seq<Row>)
    requires k < |from| && AllOk(from[..k], ts) && RowsFit(from[k], rows)
    ensures AllOk(from[..k + 1], Extend(ts, rows))
  {
    if ts != [] {
      var n := |ts| - 1;
      ExtendOk(from, k, ts[..n], rows);
      forall i | 0 <= i < |rows| ensures TupleOk(from[..k + 1], ts[n] + [rows[i]]) {
        assert TupleOk(from[..k], ts[n]);
      }
    }
  }

  lemma StoredRowsFit(catalog: Catalog, tables: Tables, from: Scope, k: nat)
    requires TablesOk(catalog, tables) && InCatalog(from, catalog) && k < |from|
    ensures RowsFit(from[k], tables(from[k].id))
  {
  }

  lemma {:induction false} JoinedTuplesOk(catalog: Catalog, tables: Tables, ast: SelectAst, from: Scope, n: nat)
    requires TablesOk(catalog, tables) && InCatalog(from, catalog) && n <= |ast.joins| < |from|
    ensures AllOk(from[..n + 1], JoinedTuples(ast, from, tables, n))
    decreases n
  {
    StoredRowsFit(catalog, tables, from, n);
    if n == 0 {
      FirstTuples(ast, from, tables);
      forall i | 0 <= i < |tables(from[0].id)| ensures TupleOk(from[..1], [tables(from[0].id)[i]]) {}
    } else {
      JoinedTuplesOk(catalog, tables, ast, from, n - 1);
      JoinedTuplesStep(ast, from, tables, n);
      ExtendOk(from, n, JoinedTuples(ast, from, tables, n - 1), tables(from[n].id));
      KeptAreThere(Extend(JoinedTuples(ast, from, tables, n - 1), tables(from[n].id)),
                   Truths(ast.joins[n - 1].condition, from[..n + 1]));
    }
  }

  /** The tree over the first n + 1 relations delivers their joined tuples. */
  ghost predicate Delivers(catalog: Catalog, tables: Tables, ast: SelectAst, from: Scope, node: Node, n: nat,
                           depth: nat, limit: nat, f: Floats)
    requires n <= |ast.joins| < |from|
  {
    var r := Reference(catalog, tables, node, depth, limit, f);
    && AllSized(n + 1, JoinedTuples(ast, from, tables, n))
    && (r.Ok? ==> r.value == PlanRowsOf(from[..n + 1], JoinedTuples(ast, from, tables, n)))
  }

  lemma JoinNodeParts(catalog: Catalog, tables: Tables, node: Node, depth: nat, limit: nat, f: Floats)
    requires node.Join? && Reference(catalog, tables, node, depth, limit, f).Ok?
    ensures var l := Reference(catalog, tables, node.left, depth + 1, limit, f);
            var r := Reference(catalog, tables, node.right, depth + 1, limit, f);
            && l.Ok? && r.Ok?
            && Reference(catalog, tables, node, depth, limit, f) == JoinRows(l.value, r.value, node.condition, limit)
  {
  }

  /** A join whose inputs deliver the tuples so far and the next relation delivers the tuples joined with it. */
  lemma JoinedInputs(catalog: Catalog, tables: Tables, ast: SelectAst, from: Scope, s: BoundSelect, n: nat,
                     condition: Expr<nat>, limit: nat)
    requires FromSetting(catalog, tables, ast, from, s) && 0 < n <= |s.joins|
    requires Accepted(ast.joins[n - 1].condition, from[..n + 1])
    requires Some(condition) == Planned(ast.joins[n - 1].condition, from[..n + 1])
    requires AllSized(n, JoinedTuples(ast, from, tables, n - 1)) && RowsFit(from[n], tables(from[n].id))
    requires var l, r := PlanRowsOf(from[..n], JoinedTuples(ast, from, tables, n - 1)),
               ScannedRows(from, n, tables(from[n].id));
             JoinRows(l, r, condition, limit).Ok?
    ensures AllSized(n + 1, JoinedTuples(ast, from, tables, n))
    ensures var l, r := PlanRowsOf(from[..n], JoinedTuples(ast, from, tables, n - 1)),
              ScannedRows(from, n, tables(from[n].id));
            JoinRows(l, r, condition, limit).value == PlanRowsOf(from[..n + 1], JoinedTuples(ast, from, tables, n))
  {
    var e, scope := ast.joins[n - 1].condition, from[..n + 1];
    var before, rows := JoinedTuples(ast, from, tables, n - 1), tables(from[n].id);
    SanePrefix(from, n + 1);
    JoinedTuplesOk(catalog, tables, ast, from, n - 1);
    ExtendOk(from, n, before, rows);
    ExtendSized(n, before, rows);
    assert ConditionPlanned(ast, from, s, n - 1);
    ConditionDecides(e, scope, Extend(before, rows));
    JoinIsKept(from, n, before, rows, condition, Truths(e, scope), limit);
    JoinedTuplesStep(ast, from, tables, n);
  }

  lemma TreeStepDelivers(catalog: Catalog, tables: Tables, ast: SelectAst, from: Scope, s: BoundSelect, n: nat,
                         depth: nat, limit: nat, f: Floats)
    requires FromSetting(catalog, tables, ast, from, s) && 0 < n <= |s.joins|
    requires JoinTree(s, from, n - 1).Some? && JoinTree(s, from, n).Some?
    requires Delivers(catalog, tables, ast, from, JoinTree(s, from, n - 1).value, n - 1, depth + 1, limit, f)
    ensures Delivers(catalog, tables, ast, from, JoinTree(s, from, n).value, n, depth, limit, f)
  {
    TuplesSized(ast, from, tables, n);
    var node := JoinTree(s, from, n).value;
    if Reference(catalog, tables, node, depth, limit, f).Ok? {
      JoinTreeStep(s, from, n);
      JoinNodeParts(catalog, tables, node, depth, limit, f);
      ScanIsContents(catalog, tables, from, n, depth + 1, limit, f);
      BuildPrefix(from, n + 1);
      assert ConditionPlanned(ast, from, s, n - 1);
      JoinedInputs(catalog, tables, ast, from, s, n, node.condition, limit);
    }
  }

  lemma {:induction false} TreeDelivers(catalog: Catalog, tables: Tables, ast: SelectAst, from: Scope, s: BoundSelect,
                                        n: nat, depth: nat, limit: nat, f: Floats)
    requires FromSetting(catalog, tables, ast, from, s) && n <= |s.joins|
    ensures JoinTree(s, from, n).Some?
    ensures Delivers(catalog, tables, ast, from, JoinTree(s, from, n).value, n, depth, limit, f)
    decreases n
  {
    if n == 0 {
      FirstTree(s, from);
      StoredRowsFit(catalog, tables, from, 0);
      FirstScanTuples(ast, from, tables);
      if Reference(catalog, tables, ScanOf(from, 0), depth, limit, f).Ok? {
        ScanIsContents(catalog, tables, from, 0, depth, limit, f);
      }
    } else {
      TreeDelivers(catalog, tables, ast, from, s, n - 1, depth + 1, limit, f);
      JoinTreePlanned(s, from, n);
      TreeStepDelivers(catalog, tables, ast, from, s, n, depth, limit, f);
    }
  }
}
