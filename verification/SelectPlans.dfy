/** Every SELECT that passes analysis is planned, and the plan passes the executor's validation. */
module SelectPlans {
  import opened Common
  import opened Expressions
  import opened Binding
  import opened Pipeline
  import opened Plans
  import opened PlanRows
  import opened Select
  import opened SelectAnalysis

  // ---------------------------------------------------------------- rows with new slots

  lemma FirstIsNew(before: SlotRow, row: SlotRow)
    requires row != [] && Unique(before + row)
    ensures Bindings(before, row[0].slot) == 0 && before + row == before + [row[0]] + row[1..]
  {
    BindingsConcat(before, row, row[0].slot);
  }

  lemma {:induction false} AppendNew(types: SlotRow, row: SlotRow)
    requires Unique(types + row)
    ensures AppendTypes(types, row) == types + row
    decreases |row|
  {
    if row == [] {
      assert types + row == types;
    } else {
      FirstIsNew(types, row);
      AppendNew(types + [row[0]], row[1..]);
    }
  }

  lemma {:induction false} MergeNew(merged: SlotRow, row: SlotRow)
    requires Unique(merged + row)
    ensures Merge(merged, row) == Ok(merged + row)
    decreases |row|
  {
    if row == [] {
      assert merged + row == merged;
    } else {
      FirstIsNew(merged, row);
      MergeNew(merged + [row[0]], row[1..]);
    }
  }

  /** A slot known to the types keeps its type as rows are appended. */
  lemma {:induction false} AppendKeeps(types: SlotRow, row: SlotRow, slot: nat)
    requires Bindings(types, slot) > 0
    ensures FirstBinding(AppendTypes(types, row), slot) == FirstBinding(types, slot)
    decreases |row|
  {
    if row != [] {
      BindingsConcat(types, [row[0]], slot);
      AppendKeeps(if Bindings(types, row[0].slot) > 0 then types else types + [row[0]], row[1..], slot);
    }
  }

  // ---------------------------------------------------------------- the scope is found again

  lemma {:induction false} FindTableOf(catalog: Catalog, t: TableMeta)
    requires DistinctIds(catalog) && t in catalog
    ensures FindTable(catalog, t.id) == Some(t)
  {
    var i :| 0 <= i < |catalog| && catalog[i] == t;
    if i > 0 {
      assert t in catalog[1..];
      FindTableOf(catalog[1..], t);
    }
  }

  ghost predicate InCatalog(scope: Scope, catalog: Catalog) {
    forall i :: 0 <= i < |scope| ==> scope[i] in catalog
  }

  lemma {:induction false} PlanScopePrefix(catalog: Catalog, s: BoundSelect, scope: Scope, n: nat)
    requires CatalogOk(catalog) && GoodFrom(s, scope) && InCatalog(scope, catalog) && n <= |s.joins|
    ensures PlanScope(catalog, s.table, s.joins[..n]) == Some(scope[..n + 1])
  {
    FindTableOf(catalog, scope[n]);
    if n > 0 {
      PlanScopePrefix(catalog, s, scope, n - 1);
      assert s.joins[..n][..n - 1] == s.joins[..n - 1];
      assert scope[..n + 1] == scope[..n] + [scope[n]];
    } else {
      assert scope[..1] == [scope[0]];
    }
  }

  lemma PlanScopeIs(catalog: Catalog, s: BoundSelect, scope: Scope)
    requires CatalogOk(catalog) && GoodFrom(s, scope) && InCatalog(scope, catalog)
    ensures PlanScope(catalog, s.table, s.joins) == Some(scope)
  {
    PlanScopePrefix(catalog, s, scope, |s.joins|);
    assert s.joins[..|s.joins|] == s.joins && scope[..|s.joins| + 1] == scope;
  }

  // ---------------------------------------------------------------- predicates

  lemma GoodPredicateValid(e: Expr<BoundColumn>, scope: Scope)
    requires GoodPredicate(e, scope) && DistinctIds(scope)
    ensures GenerateExpr(e, BuildBindings(scope, 0)).Some?
    ensures ValidPredicate(GenerateExpr(e, BuildBindings(scope, 0)).value, RowOf(scope, 0, Declared(scope)))
  {
    GenerateKeepsType(e, scope, 0, 0);
  }

  lemma JoinConditionValid(s: BoundSelect, scope: Scope, i: nat)
    requires GoodFrom(s, scope) && i < |s.joins|
    ensures GenerateExpr(s.joins[i].condition, BuildBindings(scope, 0)[..i + 2]).Some?
    ensures ValidPredicate(GenerateExpr(s.joins[i].condition, BuildBindings(scope, 0)[..i + 2]).value,
      TypedRow(scope, i + 2))
  {
    BuildPrefix(scope, i + 2);
    GoodPredicateValid(s.joins[i].condition, scope[..i + 2]);
    TypedRowOfPrefix(scope, i + 2);
  }

  // ---------------------------------------------------------------- the join tree

  ghost function JoinTree(s: BoundSelect, scope: Scope, n: nat): Option<Node>
    requires n <= |s.joins| < |scope|
  {
    PlanJoins(s.joins[..n], BuildBindings(scope, 0))
  }

  ghost function ScanOf(scope: Scope, k: nat): Node
    requires k < |scope|
  {
    Scan(scope[k].id, ScanColumns(|scope[k].columns|, Width(scope[..k])))
  }

  /** One more join: the next relation on the right, the condition over all relations so far. */
  lemma JoinTreeStep(s: BoundSelect, scope: Scope, n: nat)
    requires GoodFrom(s, scope) && 0 < n <= |s.joins| && JoinTree(s, scope, n - 1).Some?
    ensures var condition := GenerateExpr(s.joins[n - 1].condition, BuildBindings(scope, 0)[..n + 1]);
            && condition.Some? && ValidPredicate(condition.value, TypedRow(scope, n + 1))
            && JoinTree(s, scope, n) == Some(Join(condition.value, JoinTree(s, scope, n - 1).value, ScanOf(scope, n)))
  {
    JoinConditionValid(s, scope, n - 1);
    BuildAt(scope, n);
    assert s.joins[..n][..n - 1] == s.joins[..n - 1];
  }

  lemma FirstTree(s: BoundSelect, scope: Scope)
    requires GoodFrom(s, scope)
    ensures JoinTree(s, scope, 0) == Some(ScanOf(scope, 0))
  {
    BuildAt(scope, 0);
  }

  lemma {:induction false} JoinTreePlanned(s: BoundSelect, scope: Scope, n: nat)
    requires GoodFrom(s, scope) && n <= |s.joins|
    ensures JoinTree(s, scope, n).Some?
  {
    if n == 0 {
      FirstTree(s, scope);
    } else {
      JoinTreePlanned(s, scope, n - 1);
      JoinTreeStep(s, scope, n);
    }
  }

  lemma TypedRowUnique(scope: Scope, k: nat)
    requires k <= |scope|
    ensures Unique(TypedRow(scope, k))
  {
    forall slot ensures Bindings(TypedRow(scope, k), slot) <= 1 { TypedRowBindings(scope, k, slot); }
  }

  ghost function Part(scope: Scope, k: nat): SlotRow
    requires k < |scope|
  {
    HeadRow(scope[k].id, |scope[k].columns|, Width(scope[..k]), Declared(scope))
  }

  /** Scanning relation k after the first k adds its columns to the types. */
  lemma ScanValid(catalog: Catalog, scope: Scope, k: nat, depth: nat)
    requires CatalogOk(catalog) && InCatalog(scope, catalog) && DistinctIds(scope) && k < |scope| &&
      depth < MAX_PLAN_DEPTH
    ensures ValidateNode(catalog, ScanOf(scope, k), depth, TypedRow(scope, k)) ==
      Ok(Checked(Part(scope, k), TypedRow(scope, k + 1)))
  {
    FindTableOf(catalog, scope[k]);
    ScanRowIs(scope, k, Width(scope[..k]));
    TypedRowGrows(scope, k);
    TypedRowUnique(scope, k + 1);
    AppendNew(TypedRow(scope, k), Part(scope, k));
  }

  lemma MergeValid(scope: Scope, k: nat)
    requires k < |scope|
    ensures Merge(TypedRow(scope, k), Part(scope, k)) == Ok(TypedRow(scope, k + 1))
  {
    TypedRowGrows(scope, k);
    TypedRowUnique(scope, k + 1);
    MergeNew(TypedRow(scope, k), Part(scope, k));
  }

  lemma FirstTypedRow(scope: Scope)
    requires scope != []
    ensures TypedRow(scope, 0) == [] && TypedRow(scope, 1) == Part(scope, 0)
  {
    TypedRowGrows(scope, 0);
    assert TypedRow(scope, 0) == [];
    assert [] + Part(scope, 0) == Part(scope, 0);
  }

  lemma FirstScanValid(catalog: Catalog, scope: Scope, depth: nat)
    requires CatalogOk(catalog) && InCatalog(scope, catalog) && DistinctIds(scope) && scope != [] &&
      depth < MAX_PLAN_DEPTH
    ensures ValidateNode(catalog, ScanOf(scope, 0), depth, []) == Ok(Checked(TypedRow(scope, 1), TypedRow(scope, 1)))
  {
    FirstTypedRow(scope);
    ScanValid(catalog, scope, 0, depth);
  }

  lemma JoinValid(catalog: Catalog, node: Node, depth: nat, types: SlotRow, l: Checked, r: Checked, row: SlotRow)
    requires node.Join? && depth < MAX_PLAN_DEPTH
    requires ValidateNode(catalog, node.left, depth + 1, types) == Ok(l)
    requires ValidateNode(catalog, node.right, depth + 1, l.types) == Ok(r)
    requires Merge(l.row, r.row) == Ok(row) && ValidPredicate(node.condition, row)
    ensures ValidateNode(catalog, node, depth, types) == Ok(Checked(row, r.types))
  {
  }

  ghost predicate TreeValid(catalog: Catalog, s: BoundSelect, scope: Scope, n: nat, depth: nat)
    requires n <= |s.joins| < |scope|
  {
    && JoinTree(s, scope, n).Some?
    && ValidateNode(catalog, JoinTree(s, scope, n).value, depth, []) ==
        Ok(Checked(TypedRow(scope, n + 1), TypedRow(scope, n + 1)))
  }

  lemma TreeValidStep(catalog: Catalog, s: BoundSelect, scope: Scope, n: nat, depth: nat)
    requires CatalogOk(catalog) && GoodFrom(s, scope) && InCatalog(scope, catalog) && 0 < n <= |s.joins| &&
      depth + 1 < MAX_PLAN_DEPTH
    requires TreeValid(catalog, s, scope, n - 1, depth + 1)
    ensures TreeValid(catalog, s, scope, n, depth)
  {
    JoinTreeStep(s, scope, n);
    ScanValid(catalog, scope, n, depth + 1);
    MergeValid(scope, n);
    var before := Checked(TypedRow(scope, n), TypedRow(scope, n));
    var added := Checked(Part(scope, n), TypedRow(scope, n + 1));
    JoinValid(catalog, JoinTree(s, scope, n).value, depth, [], before, added, TypedRow(scope, n + 1));
  }

  /** The join tree over the first n + 1 relations validates to their typed row. */
  lemma {:induction false} JoinTreeValid(catalog: Catalog, s: BoundSelect, scope: Scope, n: nat, depth: nat)
    requires CatalogOk(catalog) && GoodFrom(s, scope) && InCatalog(scope, catalog) && n <= |s.joins| &&
      depth + n < MAX_PLAN_DEPTH
    ensures TreeValid(catalog, s, scope, n, depth)
    decreases n
  {
    if n == 0 {
      FirstTree(s, scope);
      FirstScanValid(catalog, scope, depth);
    } else {
      JoinTreeValid(catalog, s, scope, n - 1, depth + 1);
      TreeValidStep(catalog, s, scope, n, depth);
    }
  }
}
