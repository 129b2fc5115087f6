/** How tokens are written: in any case, with blanks and comments between them, and what the scanner makes of each
    (src/compiler/lexer.cpp). */
module SqlSpelling {
  import opened Common
  import opened Values
  import opened Expressions
  import opened Lexer
  import opened SqlTokens
  import Parser
  import Splitter
  import Utf8

  // ---------------------------------------------------------------- how a token is written

  /** The word, each letter small or capital. */
  predicate AnyCase(s: string, word: string) {
    |s| == |word| && forall i :: 0 <= i < |s| ==>
        s[i] == word[i] || ('a' <= word[i] <= 'z' && s[i] as int + 32 == word[i] as int)
  }

  /** A letter, then letters, digits and underscores, 64 characters at most. */
  predicate IsWord(word: string) {
    && 1 <= |word| <= 64 && 'a' <= word[0] <= 'z'
    && forall i :: 0 <= i < |word| ==> 'a' <= word[i] <= 'z' || '0' <= word[i] <= '9' || word[i] == '_'
  }

  const TRUTH_WORDS: seq<string> := ["and", "or", "not", "true", "false", "null", "is"]

  predicate Reserved(word: string) {
    word in KEYWORDS || word in TRUTH_WORDS
  }

  /** A number in decimal. */
  function Decimal(n: nat): (s: string)
    ensures s != []
  {
    if n < 10 then [DIGITS[n]] else Decimal(n / 10) + [DIGITS[n % 10]]
  }

  const DIGITS: string := "0123456789"

  /** The text between the quotes: a quote is written twice. */
  function Escaped(s: string): string {
    if s == [] then [] else (if s[0] == '\'' then "''" else [s[0]]) + Escaped(s[1..])
  }

  function CharsOf(bytes: seq<byte>): (s: string)
    ensures |s| == |bytes| && forall i :: 0 <= i < |s| ==> s[i] == bytes[i] as int as char
  {
    seq(|bytes|, i requires 0 <= i < |bytes| => bytes[i] as int as char)
  }

  function Operator(op: CmpOp): string {
    match op
    case Eq => "="
    case Ne => "!="
    case Lt => "<"
    case Le => "<="
    case Gt => ">"
    case Ge => ">="
  }

  /** Digits with a point among them that converts to the number. */
  predicate IsReal(s: string, bits: nat, double: string -> Option<nat>) {
    && double(s) == Some(bits) && IsFinite(bits)
    && exists k :: 0 < k < |s| - 1 && PointAt(s, k)
  }

  predicate PointAt(s: string, k: int) {
    0 < k < |s| - 1 && s[k] == '.' && forall i :: 0 <= i < |s| && i != k ==> '0' <= s[i] <= '9'
  }

  /** The text s is a way to write the token. */
  ghost predicate Spells(s: string, token: Parser.Token, double: string -> Option<nat>) {
    match token
    case Identifier(name) => IsWord(name) && !Reserved(name) && AnyCase(s, name)
    case IntegerLiteral(Some(Int(n))) => 0 <= n <= 0x7FFF_FFFF && s == Decimal(n)
    case IntegerLiteral(Some(BigInt(n))) => 0x7FFF_FFFF < n <= 0x7FFF_FFFF_FFFF_FFFF && s == Decimal(n)
    case DoubleLiteral(Some(Double(bits))) => IsReal(s, bits, double)
    case StringLiteral(bytes) =>
      |bytes| <= 1024 && Utf8.Valid(bytes) && s == "'" + Escaped(CharsOf(bytes)) + "'"
    case TrueToken => AnyCase(s, "true")
    case FalseToken => AnyCase(s, "false")
    case NullToken => AnyCase(s, "null")
    case IsToken => AnyCase(s, "is")
    case NotToken => AnyCase(s, "not")
    case AndToken => AnyCase(s, "and")
    case OrToken => AnyCase(s, "or")
    case CompareToken(op) => s == Operator(op)
    case Dot => s == "."
    case LeftParen => s == "("
    case RightParen => s == ")"
    case OtherToken(text) => (text in [",", ";", "*"] && s == text) || (text in KEYWORDS && AnyCase(s, text))
    case _ => false
  }

  // ---------------------------------------------------------------- what the scanner makes of it

  /** A character that no token goes on with. */
  predicate Breaks(c: char) {
    c == ' ' || c == '\t' || c == '\n' || c == '\r' || c as int == 11 || c as int == 12 || c == '-' || c == '/' ||
    c == ';'
  }

  predicate CharHeld(t: Text, i: nat, s: string, k: nat)
    requires k < |s|
  {
    i + k < |t| && t[i + k] == s[k]
  }

  /** The text t goes on with s from i. */
  predicate Holds(t: Text, i: nat, s: string) {
    i + |s| <= |t| && forall k: nat {:trigger CharHeld(t, i, s, k)} :: k < |s| ==> CharHeld(t, i, s, k)
  }

  lemma HeldChar(t: Text, i: nat, s: string, k: nat)
    requires Holds(t, i, s) && k < |s|
    ensures t[i + k] == s[k]
  {
    assert CharHeld(t, i, s, k);
  }

  lemma HoldsParts(t: Text, i: nat, a: string, b: string)
    requires Holds(t, i, a + b)
    ensures Holds(t, i, a) && Holds(t, i + |a|, b)
  {
    forall k: nat | k < |a| ensures CharHeld(t, i, a, k) { assert CharHeld(t, i, a + b, k); }
    var j := i + |a|;
    forall k: nat | k < |b| ensures CharHeld(t, j, b, k) { assert CharHeld(t, i, a + b, |a| + k); }
  }

  /** Three texts, one after the other. */
  lemma HoldsThree(t: Text, i: nat, a: string, b: string, c: string)
    requires Holds(t, i, a + b + c)
    ensures Holds(t, i, a) && Holds(t, i + |a|, b) && Holds(t, i + |a| + |b|, c)
  {
    HoldsParts(t, i, a + b, c);
    HoldsParts(t, i, a, b);
  }

  lemma HeldIs(t: Text, i: nat, s: string)
    requires Holds(t, i, s)
    ensures t[i..i + |s|] == s
  {
    var u := t[i..i + |s|];
    forall k | 0 <= k < |s| ensures u[k] == s[k] { HeldChar(t, i, s, k); }
  }

  lemma HoldsItself(t: Text)
    ensures Holds(t, 0, t)
  {
    forall k: nat | k < |t| ensures CharHeld(t, 0, t, k) {}
  }

  /** The text t has s at i, and then ends or has a blank, a comment or a semicolon. */
  predicate StandsAt(t: Text, i: nat, s: string) {
    Holds(t, i, s) && (i + |s| < |t| ==> Breaks(t[i + |s|]))
  }

  /** The scanner takes exactly s for the token. */
  ghost predicate Scanned(t: Text, i: nat, s: string, token: Parser.Token, double: string -> Option<nat>) {
    && s != [] && i + |s| <= |t|
    && !Splitter.Whitespace(t[i]) && !LineComment(t, i) && !BlockComment(t, i)
    && TokenAt(t, i, SourceChecks(double)).Ok?
    && var seen := TokenAt(t, i, SourceChecks(double)).value;
       seen.begin == i && seen.end == i + |s| && !seen.kind.EndOfText? && TokenOf(t, seen, double) == token
  }

  lemma CharAt(t: Text, i: nat, s: string, k: nat)
    requires StandsAt(t, i, s) && k < |s|
    ensures i + k < |t| && t[i + k] == s[k]
  {
    assert CharHeld(t, i, s, k);
  }

  // ---------------------------------------------------------------- words

  lemma {:induction false} WordEndIs(t: Text, i: nat, j: nat)
    requires i <= j <= |t| && (forall k :: i <= k < j ==> WordChar(t[k])) && (j < |t| ==> !WordChar(t[j]))
    ensures WordEnd(t, i) == j
    decreases j - i
  {
    if i < j {
      WordEndIs(t, i + 1, j);
    }
  }

  lemma CaseChar(c: char, w: char)
    requires c == w || ('a' <= w <= 'z' && c as int + 32 == w as int)
    requires 'a' <= w <= 'z' || '0' <= w <= '9' || w == '_'
    ensures WordChar(c) && LowerChar(c) == w && ('a' <= w <= 'z' ==> Letter(c))
  {
  }

  lemma LoweredIs(s: string, word: string)
    requires IsWord(word) && AnyCase(s, word)
    ensures Lowered(s) == word && Letter(s[0]) && forall i :: 0 <= i < |s| ==> WordChar(s[i])
  {
    forall i | 0 <= i < |s| ensures WordChar(s[i]) && Lowered(s)[i] == word[i] { CaseChar(s[i], word[i]); }
    CaseChar(s[0], word[0]);
  }

  lemma ScansWord(t: Text, i: nat, s: string, word: string, double: string -> Option<nat>)
    requires StandsAt(t, i, s) && IsWord(word) && AnyCase(s, word)
    ensures Scanned(t, i, s, WordToken(word), double)
  {
    LoweredIs(s, word);
    forall k | i <= k < i + |s| ensures WordChar(t[k]) { CharAt(t, i, s, k - i); }
    CharAt(t, i, s, 0);
    WordEndIs(t, i, i + |s|);
    HeldIs(t, i, s);
  }

  // ---------------------------------------------------------------- numbers

  lemma {:induction false} DigitsEndIs(t: Text, i: nat, j: nat)
    requires i <= j <= |t| && (forall k :: i <= k < j ==> Digit(t[k])) && (j < |t| ==> !Digit(t[j]))
    ensures DigitsEnd(t, i) == j
    decreases j - i
  {
    if i < j {
      DigitsEndIs(t, i + 1, j);
    }
  }

  /** The digits written are the digits read. */
  lemma {:induction false} DecimalReads(n: nat)
    ensures forall k :: 0 <= k < |Decimal(n)| ==> Digit(Decimal(n)[k])
    ensures Digits(Decimal(n)) == n
  {
    assert forall d :: 0 <= d < 10 ==> DIGITS[d] as int == '0' as int + d;
    if n >= 10 {
      DecimalReads(n / 10);
      assert Decimal(n)[..|Decimal(n)| - 1] == Decimal(n / 10);
    } else {
      assert Decimal(n)[..0] == [];
    }
  }

  /** Digits alone are an integer token, if int64 holds the number. */
  lemma IntegerIs(t: Text, i: nat, s: string)
    requires s != [] && StandsAt(t, i, s) && forall k :: 0 <= k < |s| ==> Digit(s[k])
    ensures i < |t| && Digit(t[i]) && NumberEnd(t, i) == Number(i + |s|, false)
    ensures DigitsEnd(t, i) == i + |s| && t[i..i + |s|] == s
  {
    forall k | i <= k < i + |s| ensures Digit(t[k]) { CharAt(t, i, s, k - i); }
    CharAt(t, i, s, 0);
    DigitsEndIs(t, i, i + |s|);
    HeldIs(t, i, s);
  }

  lemma DigitsConvert(s: string)
    requires s != [] && (forall k :: 0 <= k < |s| ==> Digit(s[k])) && Digits(s) <= INT64_MAX
    ensures IntegerOfText(s) == Some(if Digits(s) <= 0x7FFF_FFFF then Int(Digits(s)) else BigInt(Digits(s)))
  {
  }

  lemma ScansInteger(t: Text, i: nat, n: nat, double: string -> Option<nat>)
    requires n <= 0x7FFF_FFFF_FFFF_FFFF && StandsAt(t, i, Decimal(n))
    ensures var token := Parser.IntegerLiteral(Some(if n <= 0x7FFF_FFFF then Int(n) else BigInt(n)));
            Scanned(t, i, Decimal(n), token, double)
  {
    var s := Decimal(n);
    DecimalReads(n);
    IntegerIs(t, i, s);
    DigitsConvert(s);
  }

  lemma ScansReal(t: Text, i: nat, s: string, bits: nat, double: string -> Option<nat>)
    requires StandsAt(t, i, s) && IsReal(s, bits, double)
    ensures Scanned(t, i, s, Parser.DoubleLiteral(Some(Double(bits))), double)
  {
    var k :| 0 < k < |s| - 1 && PointAt(s, k);
    forall j | i <= j < i + |s| ensures if j == i + k then t[j] == '.' else Digit(t[j]) { CharAt(t, i, s, j - i); }
    DigitsEndIs(t, i, i + k);
    DigitsEndIs(t, i + k + 1, i + |s|);
    assert NumberEnd(t, i) == Number(i + |s|, true);
    HeldIs(t, i, s);
  }

  // ---------------------------------------------------------------- strings

  lemma EscapedChar(s: string)
    requires s != []
    ensures Escaped(s) == (if s[0] == '\'' then ['\'', '\''] else [s[0]]) + Escaped(s[1..])
  {
  }

  /** The end of what stands there stands there. */
  lemma HoldsEnd(t: Text, i: nat, s: string, w: nat, end: string)
    requires StandsAt(t, i, s) && w <= |s| && s[w..] == end
    ensures StandsAt(t, i + w, end)
  {
    assert s == s[..w] + end;
    HoldsParts(t, i, s[..w], end);
  }

  /** From inside the literal on: the characters still to come, and the closing quote. */
  lemma {:induction false} StringEndIs(t: Text, i: nat, text: string, s: string)
    requires i <= |t| && |text| + |s| <= MAX_STRING && StandsAt(t, i, Escaped(s) + "'")
    ensures StringEnd(t, i, text) == Str(text + s, i + |Escaped(s)| + 1)
    decreases |s|
  {
    var all := Escaped(s) + "'";
    CharAt(t, i, all, 0);
    if s == [] {
      assert text + s == text;
    } else {
      EscapedChar(s);
      var w := if s[0] == '\'' then 2 else 1;
      CharAt(t, i, all, w - 1);
      HoldsEnd(t, i, all, w, Escaped(s[1..]) + "'");
      StringEndIs(t, i + w, text + [s[0]], s[1..]);
      assert text + [s[0]] + s[1..] == text + s;
    }
  }

  lemma BytesBack(bytes: seq<byte>)
    ensures BytesOf(CharsOf(bytes)) == bytes
  {
  }

  lemma QuoteThenRest(s: string, chars: string)
    requires s == "'" + Escaped(chars) + "'"
    ensures s[0] == '\'' && s[1..] == Escaped(chars) + "'"
  {
  }

  lemma StringIs(t: Text, i: nat, s: string, chars: string)
    requires StandsAt(t, i, s) && |chars| <= 1024 && s == "'" + Escaped(chars) + "'"
    ensures i < |t| && t[i] == '\'' && StringEnd(t, i + 1, "") == Str(chars, i + |s|)
  {
    QuoteThenRest(s, chars);
    CharAt(t, i, s, 0);
    HoldsEnd(t, i, s, 1, Escaped(chars) + "'");
    StringEndIs(t, i + 1, "", chars);
    assert "" + chars == chars;
  }

  lemma QuotedIs(t: Text, i: nat, chars: string, end: nat, double: string -> Option<nat>)
    requires i < end <= |t| && t[i] == '\'' && StringEnd(t, i + 1, "") == Str(chars, end)
    requires Utf8.Valid(BytesOf(chars))
    ensures TokenAt(t, i, SourceChecks(double)) == Ok(Token(Quoted, i, end))
    ensures TokenOf(t, Token(Quoted, i, end), double) == Parser.StringLiteral(BytesOf(chars))
    ensures !Splitter.Whitespace(t[i]) && !LineComment(t, i) && !BlockComment(t, i)
  {
  }

  lemma ScansString(t: Text, i: nat, s: string, bytes: seq<byte>, double: string -> Option<nat>)
    requires StandsAt(t, i, s) && |bytes| <= 1024 && Utf8.Valid(bytes)
    requires s == "'" + Escaped(CharsOf(bytes)) + "'"
    ensures Scanned(t, i, s, Parser.StringLiteral(bytes), double)
  {
    StringIs(t, i, s, CharsOf(bytes));
    BytesBack(bytes);
    QuotedIs(t, i, CharsOf(bytes), i + |s|, double);
  }

  // ---------------------------------------------------------------- symbols

  lemma WidthIsOne(t: Text, i: nat, s: string)
    requires StandsAt(t, i, s) && s in ["=", "<", ">", ".", "(", ")", ",", ";", "*"]
    ensures i < |t| && t[i] == s[0] && SymbolWidth(t, i) == 1
  {
    CharAt(t, i, s, 0);
  }

  lemma WidthIsTwo(t: Text, i: nat, s: string)
    requires StandsAt(t, i, s) && s in ["!=", "<=", ">="]
    ensures i < |t| && t[i] == s[0] && SymbolWidth(t, i) == 2
  {
    CharAt(t, i, s, 0);
    CharAt(t, i, s, 1);
  }

  lemma SymbolIs(t: Text, i: nat, s: string, double: string -> Option<nat>)
    requires s != [] && Holds(t, i, s) && t[i] == s[0] && SymbolWidth(t, i) == |s|
    requires s[0] in "=!<>(),;*."
    ensures Scanned(t, i, s, SymbolToken(s), double)
  {
    HeldIs(t, i, s);
  }

  lemma ScansSymbol(t: Text, i: nat, s: string, double: string -> Option<nat>)
    requires StandsAt(t, i, s) && s in ["=", "!=", "<", "<=", ">", ">=", ".", "(", ")", ",", ";", "*"]
    ensures Scanned(t, i, s, SymbolToken(s), double)
  {
    if s in ["!=", "<=", ">="] {
      WidthIsTwo(t, i, s);
    } else {
      WidthIsOne(t, i, s);
    }
    SymbolIs(t, i, s, double);
  }

  // ---------------------------------------------------------------- all tokens

  /** A word and its keyword token. */
  predicate IsKeyword(word: string) {
    IsWord(word) && WordToken(word) == Parser.OtherToken(word)
  }

  lemma StatementKeywords(word: string)
    requires word in ["create", "table", "insert", "into"]
    ensures IsKeyword(word)
  {
  }

  lemma QueryKeywords(word: string)
    requires word in ["values", "select", "from", "join"]
    ensures IsKeyword(word)
  {
  }

  lemma ClauseKeywords(word: string)
    requires word in ["inner", "on", "where", "order", "by", "group", "asc", "desc"]
    ensures IsKeyword(word)
  {
  }

  lemma CallKeywords(word: string)
    requires word in ["count", "sum", "avg", "min", "max", "delete", "update", "set"]
    ensures IsKeyword(word)
  {
  }

  lemma TypeKeywords(word: string)
    requires word in ["int", "bigint", "double", "boolean", "varchar"]
    ensures IsKeyword(word)
  {
  }

  /** Keywords are words, and each is its own token. */
  lemma KeywordsAreWords(word: string)
    requires word in KEYWORDS
    ensures IsKeyword(word)
  {
    if word in ["create", "table", "insert", "into"] {
      StatementKeywords(word);
    } else if word in ["values", "select", "from", "join"] {
      QueryKeywords(word);
    } else if word in ["inner", "on", "where", "order", "by", "group", "asc", "desc"] {
      ClauseKeywords(word);
    } else if word in ["count", "sum", "avg", "min", "max", "delete", "update", "set"] {
      CallKeywords(word);
    } else {
      TypeKeywords(word);
    }
  }

  lemma TruthWordsAreWords(word: string)
    requires word in TRUTH_WORDS
    ensures IsWord(word)
  {
  }

  lemma ScansTruthWord(t: Text, i: nat, s: string, token: Parser.Token, double: string -> Option<nat>)
    requires StandsAt(t, i, s) && Spells(s, token, double)
    requires token in {Parser.TrueToken, Parser.FalseToken, Parser.NullToken, Parser.IsToken, Parser.NotToken,
                       Parser.AndToken, Parser.OrToken}
    ensures Scanned(t, i, s, token, double)
  {
    var word :=
      match token
      case TrueToken => "true"
      case FalseToken => "false"
      case NullToken => "null"
      case IsToken => "is"
      case NotToken => "not"
      case AndToken => "and"
      case _ => "or";
    TruthWordsAreWords(word);
    ScansWord(t, i, s, word, double);
  }

  lemma ScansOther(t: Text, i: nat, s: string, text: string, double: string -> Option<nat>)
    requires StandsAt(t, i, s) && Spells(s, Parser.OtherToken(text), double)
    ensures Scanned(t, i, s, Parser.OtherToken(text), double)
  {
    if text in KEYWORDS && AnyCase(s, text) {
      KeywordsAreWords(text);
      ScansWord(t, i, s, text, double);
    } else {
      ScansSymbol(t, i, s, double);
    }
  }

  lemma ScansLiteral(t: Text, i: nat, s: string, token: Parser.Token, double: string -> Option<nat>)
    requires StandsAt(t, i, s) && Spells(s, token, double)
    requires token.IntegerLiteral? || token.DoubleLiteral? || token.StringLiteral?
    ensures Scanned(t, i, s, token, double)
  {
    match token
    case IntegerLiteral(Some(Int(n))) => ScansInteger(t, i, n, double);
    case IntegerLiteral(Some(BigInt(n))) => ScansInteger(t, i, n, double);
    case DoubleLiteral(Some(Double(bits))) => ScansReal(t, i, s, bits, double);
    case StringLiteral(bytes) => ScansString(t, i, s, bytes, double);
  }

  lemma ScansMark(t: Text, i: nat, s: string, token: Parser.Token, double: string -> Option<nat>)
    requires StandsAt(t, i, s) && Spells(s, token, double)
    requires token.Dot? || token.LeftParen? || token.RightParen?
    ensures Scanned(t, i, s, token, double)
  {
    ScansSymbol(t, i, s, double);
  }

  lemma OperatorToken(op: CmpOp)
    ensures SymbolToken(Operator(op)) == Parser.CompareToken(op)
    ensures Operator(op) in ["=", "!=", "<", "<=", ">", ">=", ".", "(", ")", ",", ";", "*"]
  {
  }

  lemma ScansOperator(t: Text, i: nat, s: string, op: CmpOp, double: string -> Option<nat>)
    requires StandsAt(t, i, s) && s == Operator(op)
    ensures Scanned(t, i, s, Parser.CompareToken(op), double)
  {
    OperatorToken(op);
    ScansSymbol(t, i, s, double);
  }

  /** Wherever a token is written and nothing else follows directly, the scanner reads it. */
  lemma ScansWhatIsWritten(t: Text, i: nat, s: string, token: Parser.Token, double: string -> Option<nat>)
    requires StandsAt(t, i, s) && Spells(s, token, double)
    ensures Scanned(t, i, s, token, double)
  {
    match token
    case Identifier(name) => ScansWord(t, i, s, name, double);
    case IntegerLiteral(_) => ScansLiteral(t, i, s, token, double);
    case DoubleLiteral(_) => ScansLiteral(t, i, s, token, double);
    case StringLiteral(_) => ScansLiteral(t, i, s, token, double);
    case CompareToken(op) => ScansOperator(t, i, s, op, double);
    case Dot => ScansMark(t, i, s, token, double);
    case LeftParen => ScansMark(t, i, s, token, double);
    case RightParen => ScansMark(t, i, s, token, double);
    case OtherToken(text) => ScansOther(t, i, s, text, double);
    case _ => ScansTruthWord(t, i, s, token, double);
  }

  // ---------------------------------------------------------------- what can be written

  /** Tokens with a text: numbers are not negative, words are within the limit, strings are well-formed. */
  predicate Writable(token: Parser.Token) {
    match token
    case Identifier(name) => IsWord(name) && !Reserved(name)
    case IntegerLiteral(v) =>
      && v.Some?
      && ((v.value.Int? && 0 <= v.value.i <= 0x7FFF_FFFF)
          || (v.value.BigInt? && 0x7FFF_FFFF < v.value.n <= 0x7FFF_FFFF_FFFF_FFFF))
    case DoubleLiteral(_) => false
    case StringLiteral(bytes) => |bytes| <= 1024 && Utf8.Valid(bytes)
    case OtherToken(text) => text in [",", ";", "*"] || text in KEYWORDS
    case EndToken => false
    case _ => true
  }

  /** One text of the token. */
  function Written(token: Parser.Token): string
    requires Writable(token)
  {
    match token
    case Identifier(name) => name
    case IntegerLiteral(v) => Decimal(if v.value.Int? then v.value.i else v.value.n)
    case StringLiteral(bytes) => "'" + Escaped(CharsOf(bytes)) + "'"
    case TrueToken => "TRUE"
    case FalseToken => "FALSE"
    case NullToken => "NULL"
    case IsToken => "IS"
    case NotToken => "NOT"
    case AndToken => "AND"
    case OrToken => "OR"
    case CompareToken(op) => Operator(op)
    case Dot => "."
    case LeftParen => "("
    case RightParen => ")"
    case OtherToken(text) => text
  }

  /** Each of them has a text, whatever the conversion of DOUBLE literals. */
  lemma WritableTokensAreWritten(token: Parser.Token, double: string -> Option<nat>)
    requires Writable(token)
    ensures Spells(Written(token), token, double)
  {
  }
}
