/** CREATE TABLE from its text to its end: parsing (src/compiler/parser.cpp), analysis (src/compiler/semantic.cpp) and
    execution (src/core/executor.cpp). */
module CreateTables {
  import opened Common
  import opened Values
  import opened Binding
  import opened Plans
  import opened Catalogs
  import opened Outcomes
  import Lexer
  import Parser
  import SqlTokens

  datatype CreateAst = CreateAst(name: string, columns: seq<ColumnMeta>)

  // ---------------------------------------------------------------- parse_create_table

  function TypeOfToken(token: Parser.Token): Option<Type> {
    if token == Parser.OtherToken("int") then Some(IntType)
    else if token == Parser.OtherToken("bigint") then Some(BigIntType)
    else if token == Parser.OtherToken("double") then Some(DoubleType)
    else if token == Parser.OtherToken("boolean") then Some(BooleanType)
    else if token == Parser.OtherToken("varchar") then Some(VarcharType)
    else None
  }

  /** What was read, and the tokens after it. */
  datatype Read<T> = Read(value: T, rest: Parser.Tokens)

  /** The optional NULL or NOT NULL after a column's type. */
  function ParseNullable(ts: Parser.Tokens): (r: Option<Read<bool>>)
    ensures r.Some? ==> |r.value.rest| <= |ts|
  {
    if Parser.Head(ts).NullToken? then Some(Read(true, ts[1..]))
    else if Parser.Head(ts).NotToken? then
      if Parser.Head(ts[1..]).NullToken? then Some(Read(false, ts[2..])) else None
    else Some(Read(true, ts))
  }

  function ParseColumn(ts: Parser.Tokens): (r: Option<Read<ColumnMeta>>)
    ensures r.Some? ==> |r.value.rest| < |ts|
  {
    if !Parser.Head(ts).Identifier? || TypeOfToken(Parser.Head(ts[1..])).None? then None
    else
      match ParseNullable(ts[2..])
      case None => None
      case Some(n) => Some(Read(ColumnMeta(ts[0].name, TypeOfToken(ts[1]).value, n.value), n.rest))
  }

  /** The columns, one after another, separated by commas. */
  function ParseColumns(ts: Parser.Tokens): (r: Option<Read<seq<ColumnMeta>>>)
    ensures r.Some? ==> r.value.value != []
    decreases |ts|
  {
    match ParseColumn(ts)
    case None => None
    case Some(first) =>
      if Parser.Head(first.rest) != Parser.OtherToken(",") then Some(Read([first.value], first.rest))
      else
        match ParseColumns(first.rest[1..])
        case None => None
        case Some(more) => Some(Read([first.value] + more.value, more.rest))
  }

  /** CREATE TABLE name ( columns ) ; and nothing after it. */
  function ParseCreate(ts: Parser.Tokens): Option<CreateAst> {
    if |ts| < 4 || ts[0] != Parser.OtherToken("create") || ts[1] != Parser.OtherToken("table") ||
       !ts[2].Identifier? || !ts[3].LeftParen? then None
    else
      match ParseColumns(ts[4..])
      case None => None
      case Some(columns) =>
        if columns.rest == [Parser.RightParen, Parser.OtherToken(";"), Parser.EndToken]
        then Some(CreateAst(ts[2].name, columns.value)) else None
  }

  // ---------------------------------------------------------------- parsing undoes printing

  function TypeToken(t: Type): (token: Parser.Token)
    ensures TypeOfToken(token) == Some(t)
  {
    match t
    case IntType => Parser.OtherToken("int")
    case BigIntType => Parser.OtherToken("bigint")
    case DoubleType => Parser.OtherToken("double")
    case BooleanType => Parser.OtherToken("boolean")
    case VarcharType => Parser.OtherToken("varchar")
  }

  function PrintColumn(c: ColumnMeta): Parser.Tokens {
    [Parser.Identifier(c.name), TypeToken(c.ty)] + if c.nullable then [] else [Parser.NotToken, Parser.NullToken]
  }

  function PrintColumns(columns: seq<ColumnMeta>): Parser.Tokens
    requires columns != []
  {
    PrintColumn(columns[0]) + if |columns| == 1 then [] else [Parser.OtherToken(",")] + PrintColumns(columns[1..])
  }

  const CLOSING: Parser.Tokens := [Parser.RightParen, Parser.OtherToken(";"), Parser.EndToken]

  function PrintCreate(ast: CreateAst): Parser.Tokens
    requires ast.columns != []
  {
    [Parser.OtherToken("create"), Parser.OtherToken("table"), Parser.Identifier(ast.name), Parser.LeftParen] +
    PrintColumns(ast.columns) + CLOSING
  }

  lemma ColumnRoundTrip(c: ColumnMeta, rest: Parser.Tokens)
    requires rest != [] && !rest[0].NullToken? && !rest[0].NotToken?
    ensures ParseColumn(PrintColumn(c) + rest) == Some(Read(c, rest))
  {
    var ts := PrintColumn(c) + rest;
    if c.nullable {
      assert ts[2..] == rest;
    } else {
      assert ts[2..] == [Parser.NotToken, Parser.NullToken] + rest;
      assert ts[2..][1..] == [Parser.NullToken] + rest && ts[2..][2..] == rest;
    }
  }

  lemma {:induction false} ColumnsRoundTrip(columns: seq<ColumnMeta>)
    requires columns != []
    ensures ParseColumns(PrintColumns(columns) + CLOSING) == Some(Read(columns, CLOSING))
  {
    if |columns| == 1 {
      assert PrintColumns(columns) == PrintColumn(columns[0]);
      ColumnRoundTrip(columns[0], CLOSING);
      assert columns == [columns[0]];
    } else {
      var more := PrintColumns(columns[1..]) + CLOSING;
      var rest := [Parser.OtherToken(",")] + more;
      assert PrintColumns(columns) + CLOSING == PrintColumn(columns[0]) + rest;
      ColumnRoundTrip(columns[0], rest);
      ColumnsRoundTrip(columns[1..]);
      assert rest[1..] == more && [columns[0]] + columns[1..] == columns;
    }
  }

  /** Every CREATE TABLE with a column can be written down, and reads back as itself. */
  lemma CreateRoundTrip(ast: CreateAst)
    requires ast.columns != []
    ensures ParseCreate(PrintCreate(ast)) == Some(ast)
  {
    var ts := PrintCreate(ast);
    ColumnsRoundTrip(ast.columns);
    assert ts[4..] == PrintColumns(ast.columns) + CLOSING;
  }

  // ---------------------------------------------------------------- the names it reads

  /** Every identifier among the tokens is valid. */
  ghost predicate ValidNames(ts: Parser.Tokens) {
    forall k :: 0 <= k < |ts| && ts[k].Identifier? ==> ValidIdentifier(ts[k].name)
  }

  lemma TailNames(ts: Parser.Tokens, n: nat)
    requires ValidNames(ts) && n <= |ts|
    ensures ValidNames(ts[n..])
  {
  }

  lemma ColumnNames(ts: Parser.Tokens)
    requires ValidNames(ts) && ParseColumn(ts).Some?
    ensures ValidIdentifier(ParseColumn(ts).value.value.name) && ValidNames(ParseColumn(ts).value.rest)
  {
    TailNames(ts, 2);
    var rest := ts[2..];
    if Parser.Head(rest).NullToken? {
      TailNames(rest, 1);
    } else if Parser.Head(rest).NotToken? {
      TailNames(rest, 2);
    }
  }

  lemma {:induction false} ColumnsNames(ts: Parser.Tokens)
    requires ValidNames(ts) && ParseColumns(ts).Some?
    ensures forall k :: 0 <= k < |ParseColumns(ts).value.value| ==>
      ValidIdentifier(ParseColumns(ts).value.value[k].name)
    decreases |ts|
  {
    ColumnNames(ts);
    var first := ParseColumn(ts).value;
    if Parser.Head(first.rest) == Parser.OtherToken(",") {
      TailNames(first.rest, 1);
      ColumnsNames(first.rest[1..]);
    }
  }

  ghost predicate NamesOk(ast: CreateAst) {
    && ValidIdentifier(ast.name) && ast.columns != []
    && forall k :: 0 <= k < |ast.columns| ==> ValidIdentifier(ast.columns[k].name)
  }

  lemma CreateNames(ts: Parser.Tokens)
    requires ValidNames(ts) && ParseCreate(ts).Some?
    ensures NamesOk(ParseCreate(ts).value)
  {
    TailNames(ts, 4);
    ColumnsNames(ts[4..]);
  }

  /** The statement was lexed and parsed from some text. */
  ghost predicate ReadFromText(ast: CreateAst) {
    exists t, checks, double :: ReadFrom(ast, t, checks, double)
  }

  ghost predicate ReadFrom(ast: CreateAst, t: SqlTokens.Text, checks: Lexer.Checks, double: string -> Option<nat>) {
    && Lexer.Lex(t, 0, checks).Ok? && SqlTokens.TokensOk(t, Lexer.Lex(t, 0, checks).value)
    && ParseCreate(SqlTokens.TokensOf(t, Lexer.Lex(t, 0, checks).value, double)) == Some(ast)
  }

  /** Whatever is read from a text names its table and at least one column by valid identifiers. */
  lemma TextGivesNames(ast: CreateAst)
    requires ReadFromText(ast)
    ensures NamesOk(ast)
  {
    var t, checks, double :| ReadFrom(ast, t, checks, double);
    SqlTokens.LexedTokens(t, checks, double);
    CreateNames(SqlTokens.TokensOf(t, Lexer.Lex(t, 0, checks).value, double));
  }

  // ---------------------------------------------------------------- analyze_create

  predicate RepeatsColumn(columns: seq<ColumnMeta>, index: nat)
    requires index < |columns|
  {
    exists k :: 0 <= k < index && columns[k].name == columns[index].name
  }

  /** analyze_create and the plan it becomes. */
  function CompileCreate(ast: CreateAst, catalog: Catalog): Option<Plan> {
    if FindRelation(catalog, ast.name).Some? then None
    else if exists i :: 0 <= i < |ast.columns| && RepeatsColumn(ast.columns, i) then None
    else Some(CreateTable(ast.name, ast.columns))
  }

  /** The loop over the columns of analyze_create. */
  method FindRepeatedColumn(columns: seq<ColumnMeta>) returns (r: Option<nat>)
    ensures r.None? <==> forall i, j :: 0 <= i < j < |columns| ==> columns[i].name != columns[j].name
    ensures r.Some? ==> r.value < |columns| && RepeatsColumn(columns, r.value)
    ensures r.Some? ==> forall i :: 0 <= i < r.value ==> !RepeatsColumn(columns, i)
  {
    for index := 0 to |columns|
      invariant forall i :: 0 <= i < index ==> !RepeatsColumn(columns, i)
      invariant forall i, j :: 0 <= i < j < index ==> columns[i].name != columns[j].name
    {
      for previous := 0 to index
        invariant forall i :: 0 <= i < previous ==> columns[i].name != columns[index].name
      {
        if columns[previous].name == columns[index].name {
          return Some(index);
        }
      }
    }
    r := None;
  }

  lemma {:induction false} NotFound(catalog: Catalog, name: string)
    ensures FindRelation(catalog, name).None? <==> forall i :: 0 <= i < |catalog| ==> catalog[i].name != name
  {
    if catalog != [] {
      NotFound(catalog[1..], name);
      assert forall i :: 0 < i < |catalog| ==> catalog[i] == catalog[1..][i - 1];
    }
  }

  // ---------------------------------------------------------------- how it ends

  /** An analyzed CREATE passes the checks of the executor over every catalog of an open database, unless the table ids
      are exhausted. */
  lemma CreateIsAccepted(ast: CreateAst, c: TableCatalog)
    requires ReadFromText(ast) && GoodCatalog(c) && CompileCreate(ast, c.tables).Some?
    ensures var plan := CompileCreate(ast, c.tables).value;
            plan.CreateTable? && MetadataOk(NewTable(c, plan)) && (RuntimeAccepts(c, plan) <==> c.next <= MAX_TABLE_ID)
  {
    TextGivesNames(ast);
    NotFound(c.tables, ast.name);
    forall i, j | 0 <= i < j < |ast.columns| ensures ast.columns[i].name != ast.columns[j].name {
      assert !RepeatsColumn(ast.columns, j);
    }
    assert forall i :: 0 <= i < |c.tables| ==> c.tables[i] in c.tables;
  }

  /** It ends in an execution error exactly when the ids are exhausted, else in the storage's error or in success. */
  lemma CreateEndsWell(ast: CreateAst, c: TableCatalog, reply: ChangeReply)
    requires ReadFromText(ast) && GoodCatalog(c) && CompileCreate(ast, c.tables).Some? && reply.Changed?
    ensures CreateEnd(CompileCreate(ast, c.tables).value, c, reply) ==
            if c.next > MAX_TABLE_ID then Fails(ExecuteKind)
            else if reply.error then Fails(StorageKind)
            else Command(0, None)
  {
    CreateIsAccepted(ast, c);
  }
}
