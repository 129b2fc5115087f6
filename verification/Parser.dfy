/** The expression grammar and its statement-wide node budget (src/compiler/parser.cpp). */
module Parser {
  import opened Common
  import opened Values
  import opened Expressions
  import Binding

  type Name = Binding.Name

  /** A numeric literal carries the value its text converts to, if it converts. */
  datatype Token =
    | Identifier(name: string)
    | IntegerLiteral(value: Option<Value>)
    | DoubleLiteral(value: Option<Value>)
    | StringLiteral(s: seq<byte>)
    | TrueToken | FalseToken | NullToken | IsToken | NotToken | AndToken | OrToken
    | CompareToken(op: CmpOp)
    | Dot | LeftParen | RightParen | OtherToken(text: string) | EndToken

  type Tokens = seq<Token>

  datatype ParseError = TooComplex | BadSyntax

  /** An expression, the tokens after it, and the budget left. */
  datatype Parsed = Parsed(expr: Expr<Name>, rest: Tokens, budget: nat)

  type Outcome = Result<Parsed, ParseError>

  const MAX_EXPRESSION_COMPLEXITY: nat := 256

  /** Past the last token the parser sees an end token. */
  function Head(ts: Tokens): Token {
    if ts == [] then EndToken else ts[0]
  }

  // ---------------------------------------------------------------- the grammar

  function ParseOr(ts: Tokens, b: nat): (r: Outcome)
    ensures r.Ok? ==> |r.value.rest| < |ts| && Nodes(r.value.expr) + r.value.budget <= b
    decreases |ts|, 5
  {
    match ParseAnd(ts, b)
    case Err(error) => Err(error)
    case Ok(p) => OrTail(p.expr, p.rest, p.budget)
  }

  /** The loop of parse_or: left-associative. */
  function OrTail(lhs: Expr<Name>, ts: Tokens, b: nat): (r: Outcome)
    ensures r.Ok? ==> |r.value.rest| <= |ts| && Nodes(r.value.expr) + r.value.budget <= Nodes(lhs) + b
    decreases |ts|, 4
  {
    if !Head(ts).OrToken? then Ok(Parsed(lhs, ts, b))
    else if b == 0 then Err(TooComplex)
    else
      match ParseAnd(ts[1..], b - 1)
      case Err(error) => Err(error)
      case Ok(p) => OrTail(Logic(Or, lhs, p.expr), p.rest, p.budget)
  }

  function ParseAnd(ts: Tokens, b: nat): (r: Outcome)
    ensures r.Ok? ==> |r.value.rest| < |ts| && Nodes(r.value.expr) + r.value.budget <= b
    decreases |ts|, 3
  {
    match ParseNot(ts, b)
    case Err(error) => Err(error)
    case Ok(p) => AndTail(p.expr, p.rest, p.budget)
  }

  /** The loop of parse_and: left-associative. */
  function AndTail(lhs: Expr<Name>, ts: Tokens, b: nat): (r: Outcome)
    ensures r.Ok? ==> |r.value.rest| <= |ts| && Nodes(r.value.expr) + r.value.budget <= Nodes(lhs) + b
    decreases |ts|, 2
  {
    if !Head(ts).AndToken? then Ok(Parsed(lhs, ts, b))
    else if b == 0 then Err(TooComplex)
    else
      match ParseNot(ts[1..], b - 1)
      case Err(error) => Err(error)
      case Ok(p) => AndTail(Logic(And, lhs, p.expr), p.rest, p.budget)
  }

  function ParseNot(ts: Tokens, b: nat): (r: Outcome)
    ensures r.Ok? ==> |r.value.rest| < |ts| && Nodes(r.value.expr) + r.value.budget <= b
    decreases |ts|, 2
  {
    if !Head(ts).NotToken? then ParseComparison(ts, b)
    else if b == 0 then Err(TooComplex)
    else
      match ParseNot(ts[1..], b - 1)
      case Err(error) => Err(error)
      case Ok(p) => Ok(Parsed(Not(p.expr), p.rest, p.budget))
  }

  function ParseComparison(ts: Tokens, b: nat): (r: Outcome)
    ensures r.Ok? ==> |r.value.rest| < |ts| && Nodes(r.value.expr) + r.value.budget <= b
    decreases |ts|, 1
  {
    match ParsePrimary(ts, b)
    case Err(error) => Err(error)
    case Ok(p) =>
      if Head(p.rest).IsToken? then
        if p.budget == 0 then Err(TooComplex) else ParseNullTest(p.expr, p.rest[1..], p.budget - 1)
      else if Head(p.rest).CompareToken? then
        if p.budget == 0 then Err(TooComplex)
        else
          match ParsePrimary(p.rest[1..], p.budget - 1)
          case Err(error) => Err(error)
          case Ok(q) => Ok(Parsed(Compare(p.rest[0].op, p.expr, q.expr), q.rest, q.budget))
      else Ok(p)
  }

  /** After IS. */
  function ParseNullTest(x: Expr<Name>, ts: Tokens, b: nat): (r: Outcome)
    ensures r.Ok? ==> |r.value.rest| < |ts| && Nodes(r.value.expr) == Nodes(x) + 1 && r.value.budget == b
  {
    var negated := Head(ts).NotToken?;
    var after := if negated then ts[1..] else ts;
    if Head(after).NullToken? then Ok(Parsed(NullTest(if negated then IsNotNull else IsNull, x), after[1..], b))
    else Err(BadSyntax)
  }

  function LiteralOf(t: Token): Option<Value> {
    match t
    case IntegerLiteral(v) => v
    case DoubleLiteral(v) => v
    case StringLiteral(s) => Some(Text(s))
    case TrueToken => Some(Bool(true))
    case FalseToken => Some(Bool(false))
    case NullToken => Some(Null)
    case _ => None
  }

  predicate LiteralToken(t: Token) {
    t.IntegerLiteral? || t.DoubleLiteral? || t.StringLiteral? || t.TrueToken? || t.FalseToken? || t.NullToken?
  }

  function ParsePrimary(ts: Tokens, b: nat): (r: Outcome)
    ensures r.Ok? ==> |r.value.rest| < |ts| && Nodes(r.value.expr) + r.value.budget <= b
    decreases |ts|, 0
  {
    var t := Head(ts);
    if t.Identifier? then
      if b == 0 then Err(TooComplex) else ParseColumn(ts, b - 1)
    else if LiteralToken(t) then
      if b == 0 then Err(TooComplex)
      else
        match LiteralOf(t)
        case None => Err(BadSyntax)
        case Some(v) => Ok(Parsed(Literal(v), ts[1..], b - 1))
    else if t.LeftParen? then
      if b == 0 then Err(TooComplex)
      else
        match ParseOr(ts[1..], b - 1)
        case Err(error) => Err(error)
        case Ok(p) => if Head(p.rest).RightParen? then Ok(Parsed(p.expr, p.rest[1..], p.budget)) else Err(BadSyntax)
    else Err(BadSyntax)
  }

  /** parse_column_reference. */
  function ParseColumn(ts: Tokens, b: nat): (r: Outcome)
    requires Head(ts).Identifier?
    ensures r.Ok? ==> |r.value.rest| < |ts| && r.value.expr.Column? && r.value.budget == b
  {
    var name := ts[0].name;
    if !Head(ts[1..]).Dot? then Ok(Parsed(Column(Binding.Name(None, name)), ts[1..], b))
    else if Head(ts[2..]).Identifier? then Ok(Parsed(Column(Binding.Name(Some(name), ts[2].name)), ts[3..], b))
    else Err(BadSyntax)
  }

  // ---------------------------------------------------------------- printing

  datatype Level = OrLevel | AndLevel | NotLevel | CmpLevel | PrimaryLevel

  function Rank(l: Level): nat {
    match l
    case OrLevel => 0
    case AndLevel => 1
    case NotLevel => 2
    case CmpLevel => 3
    case PrimaryLevel => 4
  }

  function LevelOf(e: Expr<Name>): Level {
    match e
    case Logic(Or, _, _) => OrLevel
    case Logic(And, _, _) => AndLevel
    case Not(_) => NotLevel
    case Compare(_, _, _) => CmpLevel
    case NullTest(_, _) => CmpLevel
    case _ => PrimaryLevel
  }

  function LiteralText(v: Value): Token {
    match v
    case Null => NullToken
    case Int(_) => IntegerLiteral(Some(v))
    case BigInt(_) => IntegerLiteral(Some(v))
    case Double(_) => DoubleLiteral(Some(v))
    case Bool(b) => if b then TrueToken else FalseToken
    case Text(s) => StringLiteral(s)
  }

  function NameText(n: Name): Tokens {
    if n.qualifier.Some? then [Identifier(n.qualifier.value), Dot, Identifier(n.name)] else [Identifier(n.name)]
  }

  /** The tokens of an expression where the grammar expects the level; parentheses only where needed. */
  function Print(e: Expr<Name>, level: Level): Tokens
    decreases e, 1
  {
    if Rank(LevelOf(e)) < Rank(level) then [LeftParen] + Bare(e) + [RightParen] else Bare(e)
  }

  function Bare(e: Expr<Name>): Tokens
    decreases e, 0
  {
    match e
    case Column(n) => NameText(n)
    case Literal(v) => [LiteralText(v)]
    case Compare(op, l, r) => Print(l, PrimaryLevel) + [CompareToken(op)] + Print(r, PrimaryLevel)
    case Logic(Or, l, r) => Print(l, OrLevel) + [OrToken] + Print(r, AndLevel)
    case Logic(And, l, r) => Print(l, AndLevel) + [AndToken] + Print(r, NotLevel)
    case NullTest(op, x) =>
      Print(x, PrimaryLevel) + (if op.IsNull? then [IsToken, NullToken] else [IsToken, NotToken, NullToken])
    case Not(x) => [NotToken] + Print(x, NotLevel)
  }

  /** The budget an expression needs: its nodes and its parentheses. */
  function Cost(e: Expr<Name>, level: Level): (c: nat)
    ensures c > 0
    decreases e, 1
  {
    (if Rank(LevelOf(e)) < Rank(level) then 1 else 0) + BareCost(e)
  }

  function BareCost(e: Expr<Name>): (c: nat)
    ensures c > 0
    decreases e, 0
  {
    match e
    case Column(_) => 1
    case Literal(_) => 1
    case Compare(_, l, r) => Cost(l, PrimaryLevel) + 1 + Cost(r, PrimaryLevel)
    case Logic(Or, l, r) => Cost(l, OrLevel) + 1 + Cost(r, AndLevel)
    case Logic(And, l, r) => Cost(l, AndLevel) + 1 + Cost(r, NotLevel)
    case NullTest(_, x) => Cost(x, PrimaryLevel) + 1
    case Not(x) => 1 + Cost(x, NotLevel)
  }

  // ---------------------------------------------------------------- parsing undoes printing

  /** Tokens that cannot continue an expression of the level. */
  predicate Ends(ts: Tokens, level: Level) {
    && !Head(ts).Dot?
    && (Rank(level) <= 3 ==> !Head(ts).IsToken? && !Head(ts).CompareToken?)
    && (Rank(level) <= 1 ==> !Head(ts).AndToken?)
    && (Rank(level) <= 0 ==> !Head(ts).OrToken?)
  }

  function Parse(ts: Tokens, b: nat, level: Level): Outcome {
    match level
    case OrLevel => ParseOr(ts, b)
    case AndLevel => ParseAnd(ts, b)
    case NotLevel => ParseNot(ts, b)
    case CmpLevel => ParseComparison(ts, b)
    case PrimaryLevel => ParsePrimary(ts, b)
  }

  /** Reading the expression, or running out of budget exactly when it costs more than there is. */
  function Expect(e: Expr<Name>, rest: Tokens, b: nat, cost: nat): Outcome {
    if cost > b then Err(TooComplex) else Ok(Parsed(e, rest, b - cost))
  }

  /** After the first operand an operator level goes on with its loop. */
  function Continue(e: Expr<Name>, rest: Tokens, b: nat, cost: nat, level: Level): Outcome {
    if cost > b then Err(TooComplex)
    else if level.OrLevel? then OrTail(e, rest, b - cost)
    else if level.AndLevel? then AndTail(e, rest, b - cost)
    else Ok(Parsed(e, rest, b - cost))
  }

  lemma HeadAppend(first: Tokens, rest: Tokens)
    requires first != []
    ensures Head(first + rest) == first[0] && (first + rest)[1..] == first[1..] + rest
  {
  }

  lemma ParsesColumn(n: Name, rest: Tokens, b: nat)
    requires !Head(rest).Dot?
    ensures ParsePrimary(NameText(n) + rest, b) == Expect(Column(n), rest, b, 1)
  {
    var ts := NameText(n) + rest;
    assert Head(ts) == NameText(n)[0];
    if n.qualifier.Some? {
      assert ts[1] == Dot && ts[2] == Identifier(n.name);
      assert Head(ts[1..]) == Dot && Head(ts[2..]) == Identifier(n.name) && ts[3..] == rest;
    } else {
      assert ts[1..] == rest;
    }
  }

  lemma ParsesLiteral(v: Value, rest: Tokens, b: nat)
    ensures ParsePrimary([LiteralText(v)] + rest, b) == Expect(Literal(v), rest, b, 1)
  {
    var ts := [LiteralText(v)] + rest;
    assert Head(ts) == LiteralText(v) && ts[1..] == rest;
  }

  /** Parentheses: one unit of budget, then an expression of the lowest level. */
  lemma ParsesParens(e: Expr<Name>, inner: Tokens, rest: Tokens, b: nat, cost: nat)
    requires b > 0 ==> ParseOr(inner + ([RightParen] + rest), b - 1) == Expect(e, [RightParen] + rest, b - 1, cost)
    ensures ParsePrimary([LeftParen] + inner + [RightParen] + rest, b) == Expect(e, rest, b, cost + 1)
  {
    var ts := [LeftParen] + inner + [RightParen] + rest;
    assert Head(ts) == LeftParen && ts[1..] == inner + ([RightParen] + rest);
    assert Head([RightParen] + rest) == RightParen && ([RightParen] + rest)[1..] == rest;
  }

  lemma StartsPrimary(e: Expr<Name>, level: Level)
    requires Rank(level) >= 3
    ensures Print(e, level) != [] && !Print(e, level)[0].NotToken?
    decreases e
  {
    match e
    case Compare(_, l, _) => StartsPrimary(l, PrimaryLevel);
    case NullTest(_, x) => StartsPrimary(x, PrimaryLevel);
    case _ =>
  }

  /** A comparison operand followed by its operator. */
  lemma ReadsCompare(ts: Tokens, t: Tokens, op: CmpOp, l: Expr<Name>, b: nat, ca: nat)
    requires ParsePrimary(ts, b) == Expect(l, t, b, ca) && t != [] && t[0] == CompareToken(op)
    ensures ParseComparison(ts, b) ==
            if ca >= b then Err(TooComplex)
            else
              match ParsePrimary(t[1..], b - ca - 1)
              case Err(error) => Err(error)
              case Ok(q) => Ok(Parsed(Compare(op, l, q.expr), q.rest, q.budget))
  {
  }

  lemma ParsesCompare(op: CmpOp, l: Expr<Name>, r: Expr<Name>, a: Tokens, c: Tokens, rest: Tokens, b: nat, ca: nat,
                      cc: nat)
    requires Reads(a, l, PrimaryLevel, [CompareToken(op)] + (c + rest), b, ca)
    requires b > ca ==> Reads(c, r, PrimaryLevel, rest, b - ca - 1, cc)
    requires cc > 0
    ensures Reads(a + [CompareToken(op)] + c, Compare(op, l, r), CmpLevel, rest, b, ca + 1 + cc)
  {
    Regroup(a, CompareToken(op), c, rest);
    var t := [CompareToken(op)] + (c + rest);
    ReadsCompare(a + t, t, op, l, b, ca);
    assert t[1..] == c + rest;
  }

  lemma ParsesNullTest(op: NullOp, x: Expr<Name>, a: Tokens, test: Tokens, rest: Tokens, b: nat, cost: nat)
    requires test == if op.IsNull? then [IsToken, NullToken] else [IsToken, NotToken, NullToken]
    requires ParsePrimary(a + (test + rest), b) == Expect(x, test + rest, b, cost)
    ensures ParseComparison(a + test + rest, b) == Expect(NullTest(op, x), rest, b, cost + 1)
  {
    assert a + test + rest == a + (test + rest);
    var after := test[1..] + rest;
    HeadAppend(test, rest);
    HeadAppend(test[1..], rest);
    if op.IsNull? {
      assert after[1..] == rest;
    } else {
      assert after[1] == NullToken && Head(after[1..]) == NullToken && after[1..][1..] == rest;
    }
  }

  // ---------------------------------------------------------------- one level at a time

  function Next(level: Level): Level
    requires !level.PrimaryLevel?
  {
    match level
    case OrLevel => AndLevel
    case AndLevel => NotLevel
    case NotLevel => CmpLevel
    case CmpLevel => PrimaryLevel
  }

  /** What may not follow when a level reads its first operand: an operator level reads its own operator. */
  function Stop(level: Level): Level {
    match level
    case OrLevel => AndLevel
    case AndLevel => NotLevel
    case _ => level
  }

  /** Printing at the level and parsing at the level agree. */
  predicate Agree(e: Expr<Name>, level: Level, rest: Tokens, b: nat) {
    Reads(Print(e, level), e, level, rest, b, Cost(e, level))
  }

  /** The tokens read as the expression at the level, for the given cost. */
  predicate Reads(ts: Tokens, e: Expr<Name>, level: Level, rest: Tokens, b: nat, cost: nat) {
    Parse(ts + rest, b, level) == Continue(e, rest, b, cost, level)
  }

  lemma LiftStep(e: Expr<Name>, level: Level, rest: Tokens, b: nat)
    requires !level.PrimaryLevel? && LevelOf(e) != level && Ends(rest, Stop(level)) && Agree(e, Next(level), rest, b)
    ensures Agree(e, level, rest, b)
  {
    PrintNext(e, level);
    if level.NotLevel? {
      StartsPrimary(e, CmpLevel);
    }
    LiftReads(Print(e, level), e, level, rest, b, Cost(e, level));
  }

  lemma PrintNext(e: Expr<Name>, level: Level)
    requires !level.PrimaryLevel? && LevelOf(e) != level
    ensures Print(e, level) == Print(e, Next(level)) && Cost(e, level) == Cost(e, Next(level))
  {
  }

  lemma LiftReads(ts: Tokens, e: Expr<Name>, level: Level, rest: Tokens, b: nat, cost: nat)
    requires !level.PrimaryLevel? && Ends(rest, Stop(level)) && Reads(ts, e, Next(level), rest, b, cost)
    requires level.NotLevel? ==> ts != [] && !ts[0].NotToken?
    ensures Reads(ts, e, level, rest, b, cost)
  {
    if level.NotLevel? {
      HeadAppend(ts, rest);
    }
  }

  /** The right operand of OR ends where no AND follows. */
  lemma AndDone(r: Expr<Name>, rest: Tokens, b: nat)
    requires Ends(rest, AndLevel) && Agree(r, AndLevel, rest, b)
    ensures ParseAnd(Print(r, AndLevel) + rest, b) == Expect(r, rest, b, Cost(r, AndLevel))
  {
  }

  /** One turn of the OR loop. */
  lemma OrTurn(l: Expr<Name>, r: Expr<Name>, more: Tokens, rest: Tokens, b: nat, cost: nat)
    requires b > 0 ==> ParseAnd(more, b - 1) == Expect(r, rest, b - 1, cost)
    requires cost > 0
    ensures OrTail(l, [OrToken] + more, b) ==
            if cost + 1 > b then Err(TooComplex) else OrTail(Logic(Or, l, r), rest, b - 1 - cost)
  {
    HeadAppend([OrToken], more);
    assert [OrToken][1..] + more == more;
  }

  lemma Regroup(a: Tokens, op: Token, c: Tokens, rest: Tokens)
    ensures a + [op] + c + rest == a + ([op] + (c + rest))
  {
  }

  lemma OrReads(a: Tokens, c: Tokens, l: Expr<Name>, r: Expr<Name>, rest: Tokens, b: nat, cl: nat, cr: nat)
    requires Reads(a, l, OrLevel, [OrToken] + (c + rest), b, cl)
    requires b > cl ==> ParseAnd(c + rest, b - cl - 1) == Expect(r, rest, b - cl - 1, cr)
    requires cr > 0
    ensures Reads(a + [OrToken] + c, Logic(Or, l, r), OrLevel, rest, b, cl + 1 + cr)
  {
    Regroup(a, OrToken, c, rest);
    if b >= cl {
      OrTurn(l, r, c + rest, rest, b - cl, cr);
    }
  }

  lemma PrintOr(l: Expr<Name>, r: Expr<Name>)
    ensures Print(Logic(Or, l, r), OrLevel) == Print(l, OrLevel) + [OrToken] + Print(r, AndLevel)
    ensures Cost(Logic(Or, l, r), OrLevel) == Cost(l, OrLevel) + 1 + Cost(r, AndLevel)
  {
  }

  lemma PrintAnd(l: Expr<Name>, r: Expr<Name>)
    ensures Print(Logic(And, l, r), AndLevel) == Print(l, AndLevel) + [AndToken] + Print(r, NotLevel)
    ensures Cost(Logic(And, l, r), AndLevel) == Cost(l, AndLevel) + 1 + Cost(r, NotLevel)
  {
  }

  lemma PrintCompare(op: CmpOp, l: Expr<Name>, r: Expr<Name>)
    ensures Print(Compare(op, l, r), CmpLevel) == Print(l, PrimaryLevel) + [CompareToken(op)] + Print(r, PrimaryLevel)
    ensures Cost(Compare(op, l, r), CmpLevel) == Cost(l, PrimaryLevel) + 1 + Cost(r, PrimaryLevel)
  {
  }

  lemma OrStep(l: Expr<Name>, r: Expr<Name>, rest: Tokens, b: nat)
    requires Ends(rest, AndLevel) && Agree(l, OrLevel, [OrToken] + (Print(r, AndLevel) + rest), b)
    requires b > Cost(l, OrLevel) ==> Agree(r, AndLevel, rest, b - Cost(l, OrLevel) - 1)
    ensures Agree(Logic(Or, l, r), OrLevel, rest, b)
  {
    PrintOr(l, r);
    if b > Cost(l, OrLevel) {
      AndDone(r, rest, b - Cost(l, OrLevel) - 1);
    }
    OrReads(Print(l, OrLevel), Print(r, AndLevel), l, r, rest, b, Cost(l, OrLevel), Cost(r, AndLevel));
  }

  /** One turn of the AND loop. */
  lemma AndTurn(l: Expr<Name>, r: Expr<Name>, more: Tokens, rest: Tokens, b: nat, cost: nat)
    requires b > 0 ==> ParseNot(more, b - 1) == Expect(r, rest, b - 1, cost)
    requires cost > 0
    ensures AndTail(l, [AndToken] + more, b) ==
            if cost + 1 > b then Err(TooComplex) else AndTail(Logic(And, l, r), rest, b - 1 - cost)
  {
    HeadAppend([AndToken], more);
    assert [AndToken][1..] + more == more;
  }

  lemma AndReads(a: Tokens, c: Tokens, l: Expr<Name>, r: Expr<Name>, rest: Tokens, b: nat, cl: nat, cr: nat)
    requires Reads(a, l, AndLevel, [AndToken] + (c + rest), b, cl)
    requires b > cl ==> Reads(c, r, NotLevel, rest, b - cl - 1, cr)
    requires cr > 0
    ensures Reads(a + [AndToken] + c, Logic(And, l, r), AndLevel, rest, b, cl + 1 + cr)
  {
    Regroup(a, AndToken, c, rest);
    if b >= cl {
      AndTurn(l, r, c + rest, rest, b - cl, cr);
    }
  }

  lemma AndStep(l: Expr<Name>, r: Expr<Name>, rest: Tokens, b: nat)
    requires Agree(l, AndLevel, [AndToken] + (Print(r, NotLevel) + rest), b)
    requires b > Cost(l, AndLevel) ==> Agree(r, NotLevel, rest, b - Cost(l, AndLevel) - 1)
    ensures Agree(Logic(And, l, r), AndLevel, rest, b)
  {
    PrintAnd(l, r);
    AndReads(Print(l, AndLevel), Print(r, NotLevel), l, r, rest, b, Cost(l, AndLevel), Cost(r, NotLevel));
  }

  lemma NotStep(x: Expr<Name>, rest: Tokens, b: nat)
    requires b > 0 ==> Agree(x, NotLevel, rest, b - 1)
    ensures Agree(Not(x), NotLevel, rest, b)
  {
    var more := Print(x, NotLevel) + rest;
    assert Print(Not(x), NotLevel) + rest == [NotToken] + more;
    HeadAppend([NotToken], more);
    assert [NotToken][1..] + more == more;
  }

  lemma CompareStep(op: CmpOp, l: Expr<Name>, r: Expr<Name>, rest: Tokens, b: nat)
    requires Agree(l, PrimaryLevel, [CompareToken(op)] + (Print(r, PrimaryLevel) + rest), b)
    requires b > Cost(l, PrimaryLevel) ==> Agree(r, PrimaryLevel, rest, b - Cost(l, PrimaryLevel) - 1)
    ensures Agree(Compare(op, l, r), CmpLevel, rest, b)
  {
    PrintCompare(op, l, r);
    ParsesCompare(op, l, r, Print(l, PrimaryLevel), Print(r, PrimaryLevel), rest, b, Cost(l, PrimaryLevel),
        Cost(r, PrimaryLevel));
  }

  function TestText(op: NullOp): Tokens {
    if op.IsNull? then [IsToken, NullToken] else [IsToken, NotToken, NullToken]
  }

  lemma NullTestStep(op: NullOp, x: Expr<Name>, rest: Tokens, b: nat)
    requires Agree(x, PrimaryLevel, TestText(op) + rest, b)
    ensures Agree(NullTest(op, x), CmpLevel, rest, b)
  {
    ParsesNullTest(op, x, Print(x, PrimaryLevel), TestText(op), rest, b, Cost(x, PrimaryLevel));
  }

  lemma ParenStep(e: Expr<Name>, rest: Tokens, b: nat)
    requires !LevelOf(e).PrimaryLevel? && (b > 0 ==> Agree(e, OrLevel, [RightParen] + rest, b - 1))
    ensures Agree(e, PrimaryLevel, rest, b)
  {
    HeadAppend([RightParen], rest);
    ParsesParens(e, Bare(e), rest, b, BareCost(e));
  }

  /** Where the level stands relative to the expression's own: parenthesized levels are read last. */
  function Distance(e: Expr<Name>, level: Level): nat {
    if Rank(LevelOf(e)) < Rank(level) then 10 - Rank(level) else Rank(LevelOf(e)) - Rank(level)
  }

  lemma {:induction false} ParseContinues(e: Expr<Name>, level: Level, rest: Tokens, b: nat)
    requires Ends(rest, Stop(level))
    ensures Agree(e, level, rest, b)
    decreases e, Distance(e, level)
  {
    if LevelOf(e) == level {
      match e
      case Column(n) => ParsesColumn(n, rest, b);
      case Literal(v) => ParsesLiteral(v, rest, b);
      case Compare(op, l, r) =>
        ParseContinues(l, PrimaryLevel, [CompareToken(op)] + (Print(r, PrimaryLevel) + rest), b);
        if b > Cost(l, PrimaryLevel) {
          ParseContinues(r, PrimaryLevel, rest, b - Cost(l, PrimaryLevel) - 1);
        }
        CompareStep(op, l, r, rest, b);
      case NullTest(op, x) =>
        ParseContinues(x, PrimaryLevel, TestText(op) + rest, b);
        NullTestStep(op, x, rest, b);
      case Not(x) =>
        if b > 0 {
          ParseContinues(x, NotLevel, rest, b - 1);
        }
        NotStep(x, rest, b);
      case Logic(Or, l, r) =>
        ParseContinues(l, OrLevel, [OrToken] + (Print(r, AndLevel) + rest), b);
        if b > Cost(l, OrLevel) {
          ParseContinues(r, AndLevel, rest, b - Cost(l, OrLevel) - 1);
        }
        OrStep(l, r, rest, b);
      case Logic(And, l, r) =>
        ParseContinues(l, AndLevel, [AndToken] + (Print(r, NotLevel) + rest), b);
        if b > Cost(l, AndLevel) {
          ParseContinues(r, NotLevel, rest, b - Cost(l, AndLevel) - 1);
        }
        AndStep(l, r, rest, b);
    } else if level.PrimaryLevel? {
      if b > 0 {
        ParseContinues(e, OrLevel, [RightParen] + rest, b - 1);
      }
      ParenStep(e, rest, b);
    } else {
      ParseContinues(e, Next(level), rest, b);
      LiftStep(e, level, rest, b);
    }
  }

  /** Parsing a printed expression gives it back with the tokens after it, using exactly its cost of the
      budget, and is refused as too complex exactly when the budget is smaller. */
  lemma ParseUndoesPrint(e: Expr<Name>, rest: Tokens, b: nat)
    requires Ends(rest, OrLevel)
    ensures ParseOr(Print(e, OrLevel) + rest, b) == Expect(e, rest, b, Cost(e, OrLevel))
  {
    ParseContinues(e, OrLevel, rest, b);
  }

  /** Expressions parsed one after another share one budget: together they have at most as many nodes. */
  function TotalNodes(es: seq<Expr<Name>>): nat {
    if es == [] then 0 else Nodes(es[0]) + TotalNodes(es[1..])
  }

  /** The expressions are read in order, each from its own tokens and with what the ones before left. */
  predicate ParsedInOrder(es: seq<Expr<Name>>, sources: seq<Tokens>, b: nat) {
    && |es| == |sources|
    && (es == [] ||
        (ParseOr(sources[0], b).Ok? && ParseOr(sources[0], b).value.expr == es[0] &&
         ParsedInOrder(es[1..], sources[1..], ParseOr(sources[0], b).value.budget)))
  }

  /** The statement-wide budget bounds the nodes of all expressions of a statement, hence the depth of each. */
  lemma {:induction false} StatementWithinBudget(es: seq<Expr<Name>>, sources: seq<Tokens>, b: nat)
    requires ParsedInOrder(es, sources, b)
    ensures TotalNodes(es) <= b && forall i :: 0 <= i < |es| ==> Height(es[i]) <= Nodes(es[i]) <= b
    decreases |es|
  {
    if es != [] {
      HeightWithinNodes(es[0]);
      StatementWithinBudget(es[1..], sources[1..], ParseOr(sources[0], b).value.budget);
    }
  }

  // ---------------------------------------------------------------- the parser object

  /** parser.cpp's expression methods: they advance the index, count the complexity and record the first error. */
  class ExpressionParser {
    const tokens: Tokens
    var index: nat
    var complexity: nat
    var failure: Option<ParseError>

    ghost predicate Valid()
      reads this
    {
      index <= |tokens| && complexity <= MAX_EXPRESSION_COMPLEXITY
    }

    ghost function Rest(): Tokens
      reads this
      requires Valid()
    {
      tokens[index..]
    }

    ghost function Budget(): nat
      reads this
      requires Valid()
    {
      MAX_EXPRESSION_COMPLEXITY - complexity
    }

    /** The method's result and final state are those of the grammar function. */
    ghost predicate Returns(r: Option<Expr<Name>>, spec: Outcome)
      reads this
    {
      && Valid()
      && (match spec
          case Err(error) => r.None? && failure == Some(error)
          case Ok(p) => r == Some(p.expr) && failure.None? && Rest() == p.rest && Budget() == p.budget)
    }

    constructor (ts: Tokens)
      ensures Valid() && Rest() == ts && Budget() == MAX_EXPRESSION_COMPLEXITY && failure.None?
    {
      tokens, index, complexity, failure := ts, 0, 0, None;
    }

    function Peek(): (t: Token)
      reads this
      requires Valid()
      ensures t == Head(Rest())
    {
      if index < |tokens| then tokens[index] else EndToken
    }

    method Advance()
      requires Valid() && index < |tokens| && !tokens[index].EndToken?
      modifies this`index
      ensures Valid() && Rest() == old(Rest())[1..]
    {
      index := index + 1;
    }

    method Fail(error: ParseError) returns (r: Option<Expr<Name>>)
      requires Valid()
      modifies this`failure
      ensures r.None? && failure == if old(failure).Some? then old(failure) else Some(error)
    {
      if failure.None? {
        failure := Some(error);
      }
      r := None;
    }

    method ConsumeBudget() returns (ok: bool)
      requires Valid() && failure.None?
      modifies this`complexity, this`failure
      ensures Valid() && ok == (old(Budget()) > 0)
      ensures if ok then Budget() == old(Budget()) - 1 && failure.None?
              else Budget() == old(Budget()) && failure == Some(TooComplex)
    {
      if complexity >= MAX_EXPRESSION_COMPLEXITY {
        var _ := Fail(TooComplex);
        return false;
      }
      complexity := complexity + 1;
      return true;
    }

    method ParseOrExpression() returns (r: Option<Expr<Name>>)
      requires Valid() && failure.None?
      modifies this
      ensures Returns(r, ParseOr(old(Rest()), old(Budget())))
      decreases |tokens| - index, 5
    {
      ghost var spec := ParseOr(Rest(), Budget());
      r := ParseAndExpression();
      if r.None? { return; }
      while Peek().OrToken?
        invariant Valid() && failure.None? && r.Some? && index > old(index)
        invariant spec == OrTail(r.value, Rest(), Budget())
        decreases |tokens| - index
      {
        var ok := ConsumeBudget();
        if !ok { return None; }
        Advance();
        var rhs := ParseAndExpression();
        if rhs.None? { return None; }
        r := Some(Logic(Or, r.value, rhs.value));
      }
    }

    method ParseAndExpression() returns (r: Option<Expr<Name>>)
      requires Valid() && failure.None?
      modifies this
      ensures Returns(r, ParseAnd(old(Rest()), old(Budget())))
      ensures r.Some? ==> index > old(index)
      decreases |tokens| - index, 3
    {
      ghost var spec := ParseAnd(Rest(), Budget());
      r := ParseNotExpression();
      if r.None? { return; }
      while Peek().AndToken?
        invariant Valid() && failure.None? && r.Some? && index > old(index)
        invariant spec == AndTail(r.value, Rest(), Budget())
        decreases |tokens| - index
      {
        var ok := ConsumeBudget();
        if !ok { return None; }
        Advance();
        var rhs := ParseNotExpression();
        if rhs.None? { return None; }
        r := Some(Logic(And, r.value, rhs.value));
      }
    }

    method ParseNotExpression() returns (r: Option<Expr<Name>>)
      requires Valid() && failure.None?
      modifies this
      ensures Returns(r, ParseNot(old(Rest()), old(Budget())))
      ensures r.Some? ==> index > old(index)
      decreases |tokens| - index, 2
    {
      if !Peek().NotToken? {
        r := ParseComparisonExpression();
        return;
      }
      var ok := ConsumeBudget();
      if !ok { return None; }
      Advance();
      r := ParseNotExpression();
      if r.Some? {
        r := Some(Not(r.value));
      }
    }

    method ParseComparisonExpression() returns (r: Option<Expr<Name>>)
      requires Valid() && failure.None?
      modifies this
      ensures Returns(r, ParseComparison(old(Rest()), old(Budget())))
      ensures r.Some? ==> index > old(index)
      decreases |tokens| - index, 1
    {
      r := ParsePrimaryExpression();
      if r.None? { return; }
      if Peek().IsToken? {
        var ok := ConsumeBudget();
        if !ok { return None; }
        Advance();
        r := ParseNullTestExpression(r.value);
        return;
      }
      if !Peek().CompareToken? { return; }
      var op := Peek().op;
      var ok := ConsumeBudget();
      if !ok { return None; }
      Advance();
      var rhs := ParsePrimaryExpression();
      if rhs.None? { return None; }
      r := Some(Compare(op, r.value, rhs.value));
    }

    method ParseNullTestExpression(x: Expr<Name>) returns (r: Option<Expr<Name>>)
      requires Valid() && failure.None?
      modifies this
      ensures Returns(r, ParseNullTest(x, old(Rest()), old(Budget())))
      ensures r.Some? ==> index > old(index)
    {
      var negated := Peek().NotToken?;
      if negated {
        Advance();
      }
      if !Peek().NullToken? {
        r := Fail(BadSyntax);
        return;
      }
      Advance();
      r := Some(NullTest(if negated then IsNotNull else IsNull, x));
    }

    method ParsePrimaryExpression() returns (r: Option<Expr<Name>>)
      requires Valid() && failure.None?
      modifies this
      ensures Returns(r, ParsePrimary(old(Rest()), old(Budget())))
      ensures r.Some? ==> index > old(index)
      decreases |tokens| - index, 0
    {
      var token := Peek();
      if !token.Identifier? && !LiteralToken(token) && !token.LeftParen? {
        r := Fail(BadSyntax);
        return;
      }
      var ok := ConsumeBudget();
      if !ok { return None; }
      if token.Identifier? {
        r := ParseColumnReference();
      } else if LiteralToken(token) {
        match LiteralOf(token) {
          case None =>
            r := Fail(BadSyntax);
          case Some(v) =>
            Advance();
            r := Some(Literal(v));
        }
      } else {
        Advance();
        r := ParseOrExpression();
        if r.None? { return; }
        if !Peek().RightParen? {
          r := Fail(BadSyntax);
          return;
        }
        Advance();
      }
    }

    method ParseColumnReference() returns (r: Option<Expr<Name>>)
      requires Valid() && failure.None? && Peek().Identifier?
      modifies this
      ensures Returns(r, ParseColumn(old(Rest()), old(Budget())))
      ensures r.Some? ==> index > old(index)
    {
      var name := Peek().name;
      Advance();
      if !Peek().Dot? {
        return Some(Column(Binding.Name(None, name)));
      }
      Advance();
      if !Peek().Identifier? {
        r := Fail(BadSyntax);
        return;
      }
      r := Some(Column(Binding.Name(Some(name), Peek().name)));
      Advance();
    }
  }
}
