/** The lexer of one statement (src/compiler/lexer.cpp). */
module Lexer {
  import opened Common
  import opened Splitter

  datatype Kind = Word | Integer | Real | Quoted | Symbol | Semi | EndOfText

  /** A token and the characters it spans. */
  datatype Token = Token(kind: Kind, begin: nat, end: nat)

  datatype LexError = BadComment | LongWord | BadNumber | BadString | BadCharacter

  type Lexed = Result<seq<Token>, LexError>

  /** The checks on literal texts that do not move the scanner: UTF-8, and the range of a DOUBLE. */
  datatype Checks = Checks(utf8: string -> bool, double: string -> bool)

  const MAX_WORD: nat := 64
  const MAX_STRING: nat := 1024

  predicate Letter(c: char) {
    'A' <= c <= 'Z' || 'a' <= c <= 'z'
  }

  predicate Digit(c: char) {
    '0' <= c <= '9'
  }

  predicate WordChar(c: char) {
    Letter(c) || Digit(c) || c == '_'
  }

  // ---------------------------------------------------------------- where each kind of lexeme ends

  function LineEnd(t: Text, i: nat): (j: nat)
    requires i <= |t|
    ensures i <= j <= |t| && (j < |t| ==> t[j] == '\n') && forall k :: i <= k < j ==> t[k] != '\n'
    decreases |t| - i
  {
    if i < |t| && t[i] != '\n' then LineEnd(t, i + 1) else i
  }

  /** The position after the comment's end. */
  function BlockEnd(t: Text, i: nat): (j: Option<nat>)
    requires i <= |t|
    ensures j.Some? ==> i < j.value <= |t|
    decreases |t| - i
  {
    if i == |t| then None
    else if t[i] == '*' && At(t, i + 1) == '/' then Some(i + 2)
    else BlockEnd(t, i + 1)
  }

  function WordEnd(t: Text, i: nat): (j: nat)
    requires i <= |t|
    ensures i <= j <= |t| && forall k :: i <= k < j ==> WordChar(t[k])
    ensures i < |t| && WordChar(t[i]) ==> j > i
    decreases |t| - i
  {
    if i < |t| && WordChar(t[i]) then WordEnd(t, i + 1) else i
  }

  function DigitsEnd(t: Text, i: nat): (j: nat)
    requires i <= |t|
    ensures i <= j <= |t| && forall k :: i <= k < j ==> Digit(t[k])
    ensures i < |t| && Digit(t[i]) ==> j > i
    decreases |t| - i
  {
    if i < |t| && Digit(t[i]) then DigitsEnd(t, i + 1) else i
  }

  /** The end of a number and whether it is a DOUBLE; an exponent is refused. */
  datatype Number = NoNumber | Number(end: nat, fractional: bool)

  function NumberEnd(t: Text, i: nat): (n: Number)
    requires i < |t| && Digit(t[i])
    ensures n.Number? ==> i < n.end <= |t| && forall k :: i <= k < n.end ==> Digit(t[k]) || t[k] == '.'
  {
    var whole := DigitsEnd(t, i);
    var dotted := whole < |t| && t[whole] == '.' && Digit(At(t, whole + 1));
    var loose := whole < |t| && t[whole] == '.' && (At(t, whole + 1) == 'e' || At(t, whole + 1) == 'E');
    var end := if dotted then DigitsEnd(t, whole + 1) else if loose then whole + 1 else whole;
    if end < |t| && (t[end] == 'e' || t[end] == 'E') then NoNumber else Number(end, dotted || loose)
  }

  const INT64_MAX: nat := 0x7FFF_FFFF_FFFF_FFFF

  function DigitValue(c: char): (d: nat)
    requires Digit(c)
    ensures d < 10
  {
    (c as int - '0' as int) as nat
  }

  function Digits(s: string): nat
    requires forall k :: 0 <= k < |s| ==> Digit(s[k])
  {
    if s == [] then 0 else 10 * Digits(s[..|s| - 1]) + DigitValue(s[|s| - 1])
  }

  /** The literal's text, its length and where it ends; None when it is unterminated or too long. */
  datatype Str = NoString | Str(text: string, end: nat)

  /** From inside a literal on, with the text so far. */
  function StringEnd(t: Text, i: nat, text: string): (s: Str)
    requires i <= |t|
    ensures s.Str? ==> i < s.end <= |t|
    ensures s.Str? && |text| <= MAX_STRING ==> |s.text| <= MAX_STRING
    decreases |t| - i
  {
    if i == |t| then NoString
    else if t[i] != '\'' then (if |text| >= MAX_STRING then NoString else StringEnd(t, i + 1, text + [t[i]]))
    else if At(t, i + 1) == '\'' then (if |text| >= MAX_STRING then NoString else StringEnd(t, i + 2, text + ['\'']))
    else Str(text, i + 1)
  }

  /** How many characters a symbol takes; 0 when none starts here. */
  function SymbolWidth(t: Text, i: nat): (w: nat)
    requires i < |t|
    ensures w <= 2 && i + w <= |t|
    ensures w == 2 ==> t[i + 1] == '='
    ensures w > 0 ==> t[i] in "=!<>(),;*."
  {
    var c := t[i];
    if c == '!' then (if At(t, i + 1) == '=' then 2 else 0)
    else if c == '<' || c == '>' then (if At(t, i + 1) == '=' then 2 else 1)
    else if c in "=(),;*." then 1
    else 0
  }

  // ---------------------------------------------------------------- the scanner

  function Prepend(token: Token, rest: Lexed): Lexed {
    if rest.Err? then rest else Ok([token] + rest.value)
  }

  function NumberToken(t: Text, i: nat, checks: Checks): Result<Token, LexError>
    requires i < |t| && Digit(t[i])
  {
    match NumberEnd(t, i)
    case NoNumber => Err(BadNumber)
    case Number(end, fractional) =>
      if fractional then (if checks.double(t[i..end]) then Ok(Token(Real, i, end)) else Err(BadNumber))
      else if Digits(t[i..DigitsEnd(t, i)]) > INT64_MAX then Err(BadNumber)
      else Ok(Token(Integer, i, end))
  }

  function StringToken(t: Text, i: nat, checks: Checks): Result<Token, LexError>
    requires i < |t| && t[i] == '\''
  {
    match StringEnd(t, i + 1, "")
    case NoString => Err(BadString)
    case Str(text, end) => if checks.utf8(text) then Ok(Token(Quoted, i, end)) else Err(BadString)
  }

  /** The token that starts at i, where neither a blank nor a comment does. */
  function TokenAt(t: Text, i: nat, checks: Checks): (r: Result<Token, LexError>)
    requires i < |t|
    ensures r.Ok? ==> r.value.begin == i < r.value.end <= |t|
  {
    if Letter(t[i]) then
      if WordEnd(t, i) - i > MAX_WORD then Err(LongWord) else Ok(Token(Word, i, WordEnd(t, i)))
    else if Digit(t[i]) then NumberToken(t, i, checks)
    else if t[i] == '\'' then StringToken(t, i, checks)
    else if SymbolWidth(t, i) == 0 then Err(BadCharacter)
    else Ok(Token(if t[i] == ';' then Semi else Symbol, i, i + SymbolWidth(t, i)))
  }

  predicate LineComment(t: Text, i: nat)
    requires i < |t|
  {
    t[i] == '-' && At(t, i + 1) == '-'
  }

  predicate BlockComment(t: Text, i: nat)
    requires i < |t|
  {
    t[i] == '/' && At(t, i + 1) == '*'
  }

  /** tokenize, from position i on. */
  function Lex(t: Text, i: nat, checks: Checks): Lexed
    requires i <= |t|
    decreases |t| - i
  {
    if i == |t| then Ok([Token(EndOfText, i, i)])
    else if Whitespace(t[i]) then Lex(t, i + 1, checks)
    else if LineComment(t, i) then Lex(t, LineEnd(t, i + 2), checks)
    else if BlockComment(t, i) then
      match BlockEnd(t, i + 2)
      case None => Err(BadComment)
      case Some(j) => Lex(t, j, checks)
    else
      match TokenAt(t, i, checks)
      case Err(error) => Err(error)
      case Ok(token) => Prepend(token, Lex(t, token.end, checks))
  }

  // ---------------------------------------------------------------- the integer range test

  /** The overflow test of scan_number, digit by digit: None once the value would leave int64. */
  function Accumulated(s: string): Option<nat>
    requires forall k :: 0 <= k < |s| ==> Digit(s[k])
  {
    if s == [] then Some(0)
    else
      var digit := DigitValue(s[|s| - 1]);
      match Accumulated(s[..|s| - 1])
      case None => None
      case Some(v) => if v > (INT64_MAX - digit) / 10 then None else Some(v * 10 + digit)
  }

  /** The test refuses exactly the numbers beyond int64. */
  lemma {:induction false} OverflowTestIsExact(s: string)
    requires forall k :: 0 <= k < |s| ==> Digit(s[k])
    ensures Accumulated(s) == if Digits(s) <= INT64_MAX then Some(Digits(s)) else None
  {
    if s != [] {
      OverflowTestIsExact(s[..|s| - 1]);
    }
  }

  /** The digit loop of scan_number. */
  method OverflowsInt64(s: string) returns (overflow: bool)
    requires forall k :: 0 <= k < |s| ==> Digit(s[k])
    ensures overflow <==> Digits(s) > INT64_MAX
  {
    var value: nat := 0;
    overflow := false;
    for cursor := 0 to |s|
      invariant Accumulated(s[..cursor]) == if overflow then None else Some(value)
    {
      assert s[..cursor + 1][..cursor] == s[..cursor];
      var digit := DigitValue(s[cursor]);
      if !overflow && value > (INT64_MAX - digit) / 10 {
        overflow := true;
      } else if !overflow {
        value := value * 10 + digit;
      }
    }
    assert s[..|s|] == s;
    OverflowTestIsExact(s);
  }

  // ---------------------------------------------------------------- the scanner object

  class Scanner {
    const sql: Text
    const checks: Checks
    var index: nat
    var tokens: seq<Token>

    constructor (t: Text, c: Checks)
      ensures sql == t && checks == c && index == 0 && tokens == []
    {
      sql, checks, index, tokens := t, c, 0, [];
    }

    function Peek(): char
      reads this
    {
      At(sql, index + 1)
    }

    method SkipLineComment()
      requires index < |sql| && LineComment(sql, index)
      modifies this`index
      ensures index == LineEnd(sql, old(index) + 2)
    {
      index := index + 2;
      ghost var start := index;
      while index < |sql| && sql[index] != '\n'
        invariant start <= index <= |sql| && LineEnd(sql, index) == LineEnd(sql, start)
      {
        index := index + 1;
      }
    }

    method SkipBlockComment() returns (closed: bool)
      requires index < |sql| && BlockComment(sql, index)
      modifies this`index
      ensures closed <==> BlockEnd(sql, old(index) + 2).Some?
      ensures closed ==> index == BlockEnd(sql, old(index) + 2).value
      ensures index <= |sql|
    {
      index := index + 2;
      ghost var start := index;
      while index < |sql|
        invariant start <= index <= |sql| && BlockEnd(sql, index) == BlockEnd(sql, start)
      {
        if sql[index] == '*' && Peek() == '/' {
          index := index + 2;
          return true;
        }
        index := index + 1;
      }
      return false;
    }

    /** scan_string; the text so far is bounded by the VARCHAR limit. */
    method ScanString() returns (error: Option<LexError>)
      requires index < |sql| && sql[index] == '\''
      modifies this
      ensures Scanned(error, StringToken(sql, old(index), checks), old(tokens))
    {
      var begin := index;
      index := index + 1;
      ghost var start := index;
      var text := "";
      while index < |sql|
        invariant start <= index <= |sql| && tokens == old(tokens)
        invariant StringEnd(sql, start, "") == StringEnd(sql, index, text)
      {
        if sql[index] != '\'' {
          if |text| >= MAX_STRING {
            return Some(BadString);
          }
          text, index := text + [sql[index]], index + 1;
        } else if Peek() == '\'' {
          if |text| >= MAX_STRING {
            return Some(BadString);
          }
          text, index := text + ['\''], index + 2;
        } else {
          index := index + 1;
          if !checks.utf8(text) {
            return Some(BadString);
          }
          tokens := tokens + [Token(Quoted, begin, index)];
          return None;
        }
      }
      return Some(BadString);
    }

    /** A scan step either failed as the specification does, or added its token and stands behind it. */
    ghost predicate Scanned(error: Option<LexError>, spec: Result<Token, LexError>, before: seq<Token>)
      reads this
    {
      match spec
      case Err(e) => error == Some(e)
      case Ok(token) => error.None? && tokens == before + [token] && index == token.end
    }

    method ScanWord() returns (error: Option<LexError>)
      requires index < |sql| && Letter(sql[index])
      modifies this
      ensures Scanned(error, TokenAt(sql, old(index), checks), old(tokens))
    {
      var begin := index;
      while index < |sql| && WordChar(sql[index])
        invariant begin <= index <= |sql| && index - begin <= MAX_WORD && tokens == old(tokens)
        invariant WordEnd(sql, begin) == WordEnd(sql, index)
      {
        if index - begin >= MAX_WORD {
          return Some(LongWord);
        }
        index := index + 1;
      }
      tokens := tokens + [Token(Word, begin, index)];
      return None;
    }

    method SkipDigits()
      requires index <= |sql|
      modifies this`index
      ensures index == DigitsEnd(sql, old(index))
    {
      ghost var start := index;
      while index < |sql| && Digit(sql[index])
        invariant start <= index <= |sql| && DigitsEnd(sql, index) == DigitsEnd(sql, start)
      {
        index := index + 1;
      }
    }

    method ScanNumber() returns (error: Option<LexError>)
      requires index < |sql| && Digit(sql[index])
      modifies this
      ensures Scanned(error, NumberToken(sql, old(index), checks), old(tokens))
    {
      var begin := index;
      SkipDigits();
      var whole := index;
      var fractional := false;
      if index < |sql| && sql[index] == '.' && Digit(Peek()) {
        fractional := true;
        index := index + 1;
        SkipDigits();
      } else if index < |sql| && sql[index] == '.' && (Peek() == 'e' || Peek() == 'E') {
        fractional := true;
        index := index + 1;
      }
      if index < |sql| && (sql[index] == 'e' || sql[index] == 'E') {
        return Some(BadNumber);
      }
      if fractional {
        if !checks.double(sql[begin..index]) {
          return Some(BadNumber);
        }
        tokens := tokens + [Token(Real, begin, index)];
        return None;
      }
      var overflow := OverflowsInt64(sql[begin..whole]);
      if overflow {
        return Some(BadNumber);
      }
      tokens := tokens + [Token(Integer, begin, index)];
      return None;
    }

    /** Scanner::run. */
    method Run() returns (error: Option<LexError>)
      requires index == 0 && tokens == []
      modifies this
      ensures match Lex(sql, 0, checks) { case Err(e) => error == Some(e) case Ok(all) => error.None? && tokens == all }
    {
      ghost var spec := Lex(sql, 0, checks);
      assert spec.Ok? ==> [] + spec.value == spec.value;
      while index < |sql|
        invariant index <= |sql| && spec == Onward(tokens, Lex(sql, index, checks))
        decreases |sql| - index
      {
        if Whitespace(sql[index]) {
          index := index + 1;
          continue;
        }
        if sql[index] == '-' && Peek() == '-' {
          SkipLineComment();
          continue;
        }
        if sql[index] == '/' && Peek() == '*' {
          var closed := SkipBlockComment();
          if !closed {
            return Some(BadComment);
          }
          continue;
        }
        ghost var done, i := tokens, index;
        error := ScanToken();
        if error.Some? {
          return error;
        }
        OnwardStep(done, TokenAt(sql, i, checks).value, Lex(sql, index, checks));
      }
      tokens := tokens + [Token(EndOfText, index, index)];
      return None;
    }

    /** The dispatch on the first character of a token. */
    method ScanToken() returns (error: Option<LexError>)
      requires index < |sql|
      modifies this
      ensures Scanned(error, TokenAt(sql, old(index), checks), old(tokens))
    {
      if Letter(sql[index]) {
        error := ScanWord();
      } else if Digit(sql[index]) {
        error := ScanNumber();
      } else if sql[index] == '\'' {
        error := ScanString();
      } else {
        var width := SymbolWidth(sql, index);
        if width == 0 {
          return Some(BadCharacter);
        }
        tokens := tokens + [Token(if sql[index] == ';' then Semi else Symbol, index, index + width)];
        index := index + width;
        return None;
      }
    }
  }

  lemma OnwardStep(done: seq<Token>, token: Token, rest: Lexed)
    ensures Onward(done, Prepend(token, rest)) == Onward(done + [token], rest)
  {
    assert rest.Ok? ==> done + ([token] + rest.value) == done + [token] + rest.value;
  }

  /** The tokens so far, then those to come. */
  function Onward(done: seq<Token>, rest: Lexed): Lexed {
    if rest.Err? then rest else Ok(done + rest.value)
  }
}
