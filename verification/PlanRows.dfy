/** The rows of the planner's join tree: slot bindings of a prefix of the FROM list, and the typed row they give. */
module PlanRows {
  import opened Values
  import opened Expressions
  import opened Binding
  import opened Pipeline
  import opened Plans

  // ---------------------------------------------------------------- prefixes of the FROM list

  lemma {:induction false} WidthAppend(scope: Scope, t: TableMeta)
    ensures Width(scope + [t]) == Width(scope) + |t.columns|
  {
    if scope == [] {
      assert [t][1..] == [] && [] + [t] == [t];
    } else {
      assert (scope + [t])[1..] == scope[1..] + [t];
      WidthAppend(scope[1..], t);
    }
  }

  lemma {:induction false} BuildAppend(scope: Scope, t: TableMeta, first: nat)
    ensures BuildBindings(scope + [t], first) ==
            BuildBindings(scope, first) + [SlotBinding(t, ScanColumns(|t.columns|, first + Width(scope)))]
  {
    if scope == [] {
      assert [t][1..] == [] && [] + [t] == [t];
      BuildStep([t], first);
    } else {
      assert (scope + [t])[1..] == scope[1..] + [t];
      BuildAppend(scope[1..], t, first + |scope[0].columns|);
      BuildStep(scope, first);
      BuildStep(scope + [t], first);
    }
  }

  lemma RowStep(scope: Scope, first: nat, env: BoundColumn -> Value)
    requires scope != []
    ensures RowOf(scope, first, env) ==
            HeadRow(scope[0].id, |scope[0].columns|, first, env) + RowOf(scope[1..], first + |scope[0].columns|, env)
  {
  }

  lemma AppendAssociative(a: SlotRow, b: SlotRow, c: SlotRow)
    ensures a + (b + c) == (a + b) + c
  {
  }

  lemma {:induction false} RowAppend(scope: Scope, t: TableMeta, first: nat, env: BoundColumn -> Value)
    ensures RowOf(scope + [t], first, env) ==
      RowOf(scope, first, env) + HeadRow(t.id, |t.columns|, first + Width(scope), env)
  {
    RowStep(scope + [t], first, env);
    if scope == [] {
      assert scope + [t] == [t] && [t][1..] == [];
    } else {
      var tail, after := scope[1..], first + |scope[0].columns|;
      assert (scope + [t])[1..] == tail + [t] && (scope + [t])[0] == scope[0];
      assert Width(scope) == |scope[0].columns| + Width(tail);
      RowAppend(tail, t, after, env);
      RowStep(scope, first, env);
      AppendAssociative(HeadRow(scope[0].id, |scope[0].columns|, first, env), RowOf(tail, after, env),
                        HeadRow(t.id, |t.columns|, after + Width(tail), env));
    }
  }

  lemma {:induction false} BuildPrefix(scope: Scope, k: nat)
    requires k <= |scope|
    ensures BuildBindings(scope, 0)[..k] == BuildBindings(scope[..k], 0)
    decreases |scope|
  {
    if k == |scope| {
      assert scope[..k] == scope;
    } else {
      var n := |scope| - 1;
      assert scope == scope[..n] + [scope[n]];
      BuildAppend(scope[..n], scope[n], 0);
      BuildPrefix(scope[..n], k);
      assert scope[..n][..k] == scope[..k];
    }
  }

  lemma BuildAt(scope: Scope, k: nat)
    requires k < |scope|
    ensures BuildBindings(scope, 0)[k] == SlotBinding(scope[k], ScanColumns(|scope[k].columns|, Width(scope[..k])))
  {
    BuildPrefix(scope, k + 1);
    assert scope[..k + 1] == scope[..k] + [scope[k]];
    BuildAppend(scope[..k], scope[k], 0);
    assert BuildBindings(scope, 0)[k] == BuildBindings(scope, 0)[..k + 1][k];
  }

  // ---------------------------------------------------------------- the typed row

  /** The validation row of the first k relations, with the types of the whole FROM list. */
  ghost function TypedRow(scope: Scope, k: nat): SlotRow
    requires k <= |scope|
  {
    RowOf(scope[..k], 0, Declared(scope))
  }

  lemma TypedRowGrows(scope: Scope, k: nat)
    requires k < |scope|
    ensures TypedRow(scope, k + 1) ==
            TypedRow(scope, k) + HeadRow(scope[k].id, |scope[k].columns|, Width(scope[..k]), Declared(scope))
  {
    assert scope[..k + 1] == scope[..k] + [scope[k]];
    RowAppend(scope[..k], scope[k], 0, Declared(scope));
  }

  lemma {:induction false} DeclaredAt(scope: Scope, k: nat, c: nat)
    requires DistinctIds(scope) && k < |scope| && c < |scope[k].columns|
    ensures Declared(scope)(BoundColumn(scope[k].id, c)) == ValidationValue(scope[k].columns[c].ty)
    decreases |scope|
  {
    if k > 0 {
      DeclaredAt(scope[1..], k - 1, c);
      assert Declared(scope[1..])(BoundColumn(scope[k].id, c)) == ValidationIn(scope[1..], BoundColumn(scope[k].id, c));
    }
  }

  /** Scanning relation k under its bindings gives its part of the typed row. */
  lemma ScanRowIs(scope: Scope, k: nat, first: nat)
    requires DistinctIds(scope) && k < |scope|
    ensures var t := scope[k];
            && ScanOk(t, ScanColumns(|t.columns|, first))
            && Materialize(ValidationRow(t), ScanColumns(|t.columns|, first)) ==
                HeadRow(t.id, |t.columns|, first, Declared(scope))
  {
    var t := scope[k];
    forall c | 0 <= c < |t.columns| ensures Declared(scope)(BoundColumn(t.id, c)) == ValidationValue(t.columns[c].ty) {
      DeclaredAt(scope, k, c);
    }
  }

  lemma {:induction false} DeclaredPrefix(scope: Scope, k: nat, b: BoundColumn)
    requires DistinctIds(scope) && k <= |scope| && exists i :: 0 <= i < k && scope[i].id == b.table
    ensures ValidationIn(scope[..k], b) == ValidationIn(scope, b)
    decreases k
  {
    if scope[0].id != b.table {
      var i :| 0 <= i < k && scope[i].id == b.table;
      assert scope[1..][i - 1].id == b.table;
      assert scope[..k][1..] == scope[1..][..k - 1];
      DeclaredPrefix(scope[1..], k - 1, b);
    }
  }

  lemma {:induction false} RowOfAgrees(scope: Scope, first: nat, env: BoundColumn -> Value, env': BoundColumn -> Value)
    requires forall i, c: nat :: 0 <= i < |scope| ==>
      env(BoundColumn(scope[i].id, c)) == env'(BoundColumn(scope[i].id, c))
    ensures RowOf(scope, first, env) == RowOf(scope, first, env')
  {
    if scope != [] {
      HeadAgrees(scope[0].id, |scope[0].columns|, first, env, env');
      assert forall i :: 0 <= i < |scope[1..]| ==> scope[1..][i] == scope[i + 1];
      RowOfAgrees(scope[1..], first + |scope[0].columns|, env, env');
    }
  }

  lemma HeadAgrees(id: nat, count: nat, first: nat, env: BoundColumn -> Value, env': BoundColumn -> Value)
    requires forall c: nat :: env(BoundColumn(id, c)) == env'(BoundColumn(id, c))
    ensures HeadRow(id, count, first, env) == HeadRow(id, count, first, env')
  {
  }

  /** A predicate bound in the first k relations sees the same typed row as in its own scope. */
  lemma TypedRowOfPrefix(scope: Scope, k: nat)
    requires DistinctIds(scope) && k <= |scope|
    ensures RowOf(scope[..k], 0, Declared(scope[..k])) == TypedRow(scope, k)
  {
    forall i, c: nat | 0 <= i < |scope[..k]|
      ensures Declared(scope[..k])(BoundColumn(scope[..k][i].id, c)) ==
        Declared(scope)(BoundColumn(scope[..k][i].id, c))
    {
      assert scope[i].id == scope[..k][i].id;
      DeclaredPrefix(scope, k, BoundColumn(scope[..k][i].id, c));
    }
    RowOfAgrees(scope[..k], 0, Declared(scope[..k]), Declared(scope));
  }

  /** Slots of the first k relations are below those of the rest. */
  lemma TypedRowBindings(scope: Scope, k: nat, slot: nat)
    requires k <= |scope|
    ensures Bindings(TypedRow(scope, k), slot) == if slot < Width(scope[..k]) then 1 else 0
  {
    RowBindings(scope[..k], 0, Declared(scope), slot);
  }
}
