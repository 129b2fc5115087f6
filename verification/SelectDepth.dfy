/** How deep an accepted SELECT can be: the parser's budget admits statements whose plans the executor refuses
    (src/compiler/parser.cpp, src/core/executor.cpp). */
module SelectDepth {
  import opened Common
  import opened Values
  import opened Expressions
  import opened Binding
  import opened Plans
  import opened Select
  import opened SelectAnalysis
  import opened SelectAccepted
  import Parser

  /** The first n joins of SELECT * FROM c[0] JOIN c[1] ON TRUE JOIN c[2] ON TRUE ... */
  function CrossJoins(catalog: Catalog, n: nat): (r: seq<AstJoin>)
    requires n < |catalog|
    ensures |r| == n && forall i :: 0 <= i < n ==> r[i] == AstJoin(catalog[i + 1].name, Literal(Bool(true)))
  {
    seq(n, i requires 0 <= i < n => AstJoin(catalog[i + 1].name, Literal(Bool(true))))
  }

  function CrossSelect(catalog: Catalog, n: nat): SelectAst
    requires n < |catalog|
  {
    SelectAst(catalog[0].name, CrossJoins(catalog, n), true, [], None, [], [])
  }

  lemma {:induction false} FindByName(catalog: Catalog, k: nat)
    requires DistinctNames(catalog) && k < |catalog|
    ensures FindRelation(catalog, catalog[k].name) == Some(catalog[k])
  {
    if k > 0 {
      FindByName(catalog[1..], k - 1);
    }
  }

  lemma {:induction false} CrossFrom(catalog: Catalog, n: nat)
    requires CatalogOk(catalog) && DistinctNames(catalog) && n < |catalog|
    ensures BindFrom(catalog, catalog[0].name, CrossJoins(catalog, n)).Some?
    ensures BindFrom(catalog, catalog[0].name, CrossJoins(catalog, n)).value.scope == catalog[..n + 1]
  {
    FindByName(catalog, n);
    if n > 0 {
      CrossFrom(catalog, n - 1);
      assert CrossJoins(catalog, n)[..n - 1] == CrossJoins(catalog, n - 1);
      assert catalog[..n] + [catalog[n]] == catalog[..n + 1];
    }
  }

  // ---------------------------------------------------------------- the budget

  const TRUE_SOURCE: Parser.Tokens := [Parser.TrueToken]

  lemma ReadTrue(b: nat)
    requires b > 0
    ensures Parser.ParseOr(TRUE_SOURCE, b) == Ok(Parser.Parsed(Literal(Bool(true)), [], b - 1))
  {
    assert TRUE_SOURCE[1..] == [];
    assert Parser.ParsePrimary(TRUE_SOURCE, b) == Ok(Parser.Parsed(Literal(Bool(true)), [], b - 1));
  }

  function TrueSources(n: nat): (r: seq<Parser.Tokens>)
    ensures |r| == n
  {
    if n == 0 then [] else [TRUE_SOURCE] + TrueSources(n - 1)
  }

  lemma ReadMore(e: Expr<Name>, es: seq<Expr<Name>>, source: Parser.Tokens, sources: seq<Parser.Tokens>, b: nat)
    requires Parser.ParseOr(source, b).Ok? && Parser.ParseOr(source, b).value.expr == e
    requires Parser.ParsedInOrder(es, sources, Parser.ParseOr(source, b).value.budget)
    ensures Parser.ParsedInOrder([e] + es, [source] + sources, b)
  {
    assert ([e] + es)[1..] == es && ([source] + sources)[1..] == sources;
  }

  /** n conditions TRUE cost n of the budget. */
  lemma {:induction false} ReadTrues(es: seq<Expr<Name>>, b: nat)
    requires |es| <= b && forall i :: 0 <= i < |es| ==> es[i] == Literal(Bool(true))
    ensures Parser.ParsedInOrder(es, TrueSources(|es|), b)
    decreases |es|
  {
    if es != [] {
      ReadTrue(b);
      ReadTrues(es[1..], b - 1);
      ReadMore(es[0], es[1..], TRUE_SOURCE, TrueSources(|es| - 1), b);
      assert [es[0]] + es[1..] == es;
    }
  }

  /** For every number of joins the budget admits: the statement is parsed and analyzed, and the executor refuses
      it exactly when it joins 256 tables or more. */
  lemma CrossSelectDepth(catalog: Catalog, n: nat)
    requires CatalogOk(catalog) && DistinctNames(catalog) && n < |catalog| && n <= Parser.MAX_EXPRESSION_COMPLEXITY
    ensures AnalyzedSelect(CrossSelect(catalog, n), catalog) && Compile(CrossSelect(catalog, n), catalog).Some?
    ensures ValidateQuery(catalog, Compile(CrossSelect(catalog, n), catalog).value).Err? <==> n + 1 >= MAX_PLAN_DEPTH
  {
    var ast := CrossSelect(catalog, n);
    CrossFrom(catalog, n);
    ReadTrues(ExpressionsOf(ast), Parser.MAX_EXPRESSION_COMPLEXITY);
    assert ReadByParser(ast);
    SelectIsAccepted(ast, catalog);
  }

  // ---------------------------------------------------------------- it happens

  /** Two letters tell 256 tables apart. */
  function WideName(i: nat): string
    requires i < 256
  {
    ['a' + (i / 16) as char, 'a' + (i % 16) as char]
  }

  function WideCatalog(): (r: Catalog)
    ensures |r| == 256 &&
      forall i :: 0 <= i < 256 ==> r[i] == TableMeta(i, WideName(i), [ColumnMeta("c", IntType, true)])
  {
    seq(256, i requires 0 <= i < 256 => TableMeta(i, WideName(i), [ColumnMeta("c", IntType, true)]))
  }

  /** A statement of 255 joins is within the parser's budget and passes analysis, but its plan is refused. */
  lemma DeepStatementIsRefused()
    ensures AnalyzedSelect(CrossSelect(WideCatalog(), 255), WideCatalog())
    ensures Compile(CrossSelect(WideCatalog(), 255), WideCatalog()).Some?
    ensures ValidateQuery(WideCatalog(), Compile(CrossSelect(WideCatalog(), 255), WideCatalog()).value).Err?
  {
    var catalog := WideCatalog();
    forall i, j | 0 <= i < j < |catalog| ensures catalog[i].name != catalog[j].name {
      assert i == 16 * (i / 16) + i % 16 && j == 16 * (j / 16) + j % 16;
    }
    forall t | t in catalog ensures MetadataOk(t) {
    }
    CrossSelectDepth(catalog, 255);
  }
}
