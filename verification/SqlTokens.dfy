/** What the parser sees of the lexer's tokens: words in lower case, keywords, literal values
    (src/compiler/lexer.cpp, src/compiler/parser.cpp). */
module SqlTokens {
  import opened Common
  import opened Values
  import opened Expressions
  import opened Lexer
  import Parser
  import Plans
  import Splitter
  import Utf8

  type Text = Splitter.Text

  // ---------------------------------------------------------------- the lexer's own checks

  /** The characters of a text are bytes. */
  function BytesOf(s: string): seq<byte> {
    seq(|s|, i requires 0 <= i < |s| => (s[i] as int % 256) as byte)
  }

  /** is_valid_utf8 on string literals; `double` is the conversion of DOUBLE literals. */
  function SourceChecks(double: string -> Option<nat>): Checks {
    Checks(s => Utf8.Valid(BytesOf(s)), s => double(s).Some? && IsFinite(double(s).value))
  }

  // ---------------------------------------------------------------- words

  function LowerChar(c: char): (l: char)
    ensures 'A' <= c <= 'Z' ==> 'a' <= l <= 'z'
    ensures !('A' <= c <= 'Z') ==> l == c
  {
    if 'A' <= c <= 'Z' then (c as int - 'A' as int + 'a' as int) as char else c
  }

  function Lowered(s: string): (l: string)
    ensures |l| == |s| && forall i :: 0 <= i < |l| ==> l[i] == LowerChar(s[i])
  {
    seq(|s|, i requires 0 <= i < |s| => LowerChar(s[i]))
  }

  /** The keywords without a token of their own in expressions. */
  const KEYWORDS: seq<string> := [
    "create", "table", "insert", "into", "values", "select", "from", "join", "inner", "on", "where", "order", "by",
    "group", "count", "sum", "avg", "min", "max", "asc", "desc", "delete", "update", "set", "int", "bigint", "double",
    "boolean", "varchar"]

  /** keyword_kind. */
  function WordToken(word: string): Parser.Token {
    if word == "and" then Parser.AndToken
    else if word == "or" then Parser.OrToken
    else if word == "not" then Parser.NotToken
    else if word == "true" then Parser.TrueToken
    else if word == "false" then Parser.FalseToken
    else if word == "null" then Parser.NullToken
    else if word == "is" then Parser.IsToken
    else if word in KEYWORDS then Parser.OtherToken(word)
    else Parser.Identifier(word)
  }

  // ---------------------------------------------------------------- symbols and literals

  function SymbolToken(s: string): Parser.Token {
    if s == "=" then Parser.CompareToken(Eq)
    else if s == "!=" then Parser.CompareToken(Ne)
    else if s == "<" then Parser.CompareToken(Lt)
    else if s == "<=" then Parser.CompareToken(Le)
    else if s == ">" then Parser.CompareToken(Gt)
    else if s == ">=" then Parser.CompareToken(Ge)
    else if s == "." then Parser.Dot
    else if s == "(" then Parser.LeftParen
    else if s == ")" then Parser.RightParen
    else Parser.OtherToken(s)
  }

  const INT32_MAX: nat := 0x7FFF_FFFF

  /** parse_integer_literal. */
  function IntegerOfText(s: string): Option<Value> {
    if s == [] || exists k :: 0 <= k < |s| && !Digit(s[k]) then None
    else
      var n := Digits(s);
      if n > INT64_MAX then None else Some(if n <= INT32_MAX then Int(n) else BigInt(n))
  }

  /** The text between the quotes, with doubled quotes halved. */
  function QuotedText(t: Text, token: Token): string
    requires token.begin < token.end <= |t|
  {
    match StringEnd(t, token.begin + 1, "")
    case NoString => ""
    case Str(text, _) => text
  }

  function TokenOf(t: Text, token: Token, double: string -> Option<nat>): Parser.Token
    requires token.begin <= token.end <= |t| && (token.kind.Quoted? ==> token.begin < token.end)
  {
    var text := t[token.begin..token.end];
    match token.kind
    case Word => WordToken(Lowered(text))
    case Integer => Parser.IntegerLiteral(IntegerOfText(text))
    case Real => Parser.DoubleLiteral(if double(text).Some? then Some(Double(double(text).value)) else None)
    case Quoted => Parser.StringLiteral(BytesOf(QuotedText(t, token)))
    case Symbol => SymbolToken(text)
    case Semi => Parser.OtherToken(text)
    case EndOfText => Parser.EndToken
  }

  predicate TokensOk(t: Text, tokens: seq<Token>) {
    forall i :: 0 <= i < |tokens| ==>
      tokens[i].begin <= tokens[i].end <= |t| && (tokens[i].kind.Quoted? ==> tokens[i].begin < tokens[i].end)
  }

  function TokensOf(t: Text, tokens: seq<Token>, double: string -> Option<nat>): (r: Parser.Tokens)
    requires TokensOk(t, tokens)
    ensures |r| == |tokens| && forall i :: 0 <= i < |r| ==> r[i] == TokenOf(t, tokens[i], double)
  {
    seq(|tokens|, i requires 0 <= i < |tokens| => TokenOf(t, tokens[i], double))
  }

  // ---------------------------------------------------------------- what lexed tokens are

  /** A token where the scanner put it. */
  ghost predicate Scans(t: Text, token: Token, checks: Checks) {
    token.begin <= token.end <= |t| &&
    if token.kind.EndOfText? then token.begin == |t|
    else token.begin < |t| && TokenAt(t, token.begin, checks) == Ok(token)
  }

  lemma {:induction false} LexedTokensScan(t: Text, i: nat, checks: Checks)
    requires i <= |t| && Lex(t, i, checks).Ok?
    ensures forall k :: 0 <= k < |Lex(t, i, checks).value| ==> Scans(t, Lex(t, i, checks).value[k], checks)
    decreases |t| - i
  {
    if i < |t| {
      if Splitter.Whitespace(t[i]) {
        LexedTokensScan(t, i + 1, checks);
      } else if LineComment(t, i) {
        LexedTokensScan(t, LineEnd(t, i + 2), checks);
      } else if BlockComment(t, i) {
        LexedTokensScan(t, BlockEnd(t, i + 2).value, checks);
      } else {
        var token := TokenAt(t, i, checks).value;
        LexedTokensScan(t, token.end, checks);
      }
    }
  }

  /** Words reach the parser as valid identifiers: a lower-case letter, then letters, digits and underscores, at most
      64 of them. */
  lemma WordIsIdentifier(t: Text, token: Token, checks: Checks)
    requires Scans(t, token, checks) && token.kind.Word?
    ensures Plans.ValidIdentifier(Lowered(t[token.begin..token.end]))
  {
  }

  /** The parser converts every integer literal the lexer lets through: both accept exactly the int64 values. */
  lemma IntegerConverts(t: Text, token: Token, checks: Checks)
    requires Scans(t, token, checks) && token.kind.Integer?
    ensures IntegerOfText(t[token.begin..token.end]).Some?
  {
    var whole := DigitsEnd(t, token.begin);
    assert token.end == whole;
  }

  /** Lexed text, as the parser sees it: in range, identifiers valid, integer literals converted. */
  lemma LexedTokens(t: Text, checks: Checks, double: string -> Option<nat>)
    requires Lex(t, 0, checks).Ok?
    ensures TokensOk(t, Lex(t, 0, checks).value)
    ensures forall k :: 0 <= k < |Lex(t, 0, checks).value| ==>
      var seen := TokensOf(t, Lex(t, 0, checks).value, double)[k];
      && (seen.Identifier? ==> Plans.ValidIdentifier(seen.name))
      && (seen.IntegerLiteral? ==> seen.value.Some?)
  {
    var tokens := Lex(t, 0, checks).value;
    LexedTokensScan(t, 0, checks);
    assert TokensOk(t, tokens);
    forall k | 0 <= k < |tokens|
      ensures var seen := TokensOf(t, tokens, double)[k];
              && (seen.Identifier? ==> Plans.ValidIdentifier(seen.name))
              && (seen.IntegerLiteral? ==> seen.value.Some?)
    {
      assert Scans(t, tokens[k], checks);
      if tokens[k].kind.Word? {
        WordIsIdentifier(t, tokens[k], checks);
      } else if tokens[k].kind.Integer? {
        IntegerConverts(t, tokens[k], checks);
      }
    }
  }

  /** With the lexer's own checks every string literal is well-formed UTF-8 within the VARCHAR limit, and every DOUBLE
      literal converts to a finite number. */
  lemma LiteralsAreStorable(t: Text, token: Token, double: string -> Option<nat>)
    requires Scans(t, token, SourceChecks(double))
    ensures token.begin <= token.end <= |t| && (token.kind.Quoted? ==> token.begin < token.end)
    ensures var seen := TokenOf(t, token, double);
            && (seen.StringLiteral? ==> Utf8.Valid(seen.s) && |seen.s| <= MAX_STRING)
            && (seen.DoubleLiteral? ==> seen.value.Some? && seen.value.value.Double? && IsFinite(seen.value.value.bits))
  {
  }
}
