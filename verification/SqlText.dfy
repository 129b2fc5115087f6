/** Statements as text: whatever is written down is lexed and parsed back, however it is spaced, commented and
    capitalised (src/compiler/lexer.cpp, src/compiler/parser.cpp). */
module SqlText {
  import opened Common
  import opened Values
  import opened Expressions
  import opened Lexer
  import opened SqlTokens
  import opened SqlSpelling
  import Binding
  import CreateTables
  import Parser
  import Splitter

  // ---------------------------------------------------------------- blanks and comments

  predicate IsSpace(s: string) {
    |s| == 1 &&
    (s[0] == ' ' || s[0] == '\t' || s[0] == '\n' || s[0] == '\r' || s[0] as int == 11 || s[0] as int == 12)
  }

  predicate LineNote(s: string, note: string) {
    s == "--" + note + "\n" && '\n' !in note
  }

  predicate BlockNote(s: string, note: string) {
    s == "/*" + note + "*/" && forall k :: 0 <= k < |note| - 1 ==> !(note[k] == '*' && note[k + 1] == '/')
  }

  /** A blank, or a comment. */
  ghost predicate IsBlank(s: string) {
    IsSpace(s) || (exists note :: LineNote(s, note)) || (exists note :: BlockNote(s, note))
  }

  function Joined(ss: seq<string>): string {
    if ss == [] then "" else ss[0] + Joined(ss[1..])
  }

  ghost predicate IsGap(gap: seq<string>) {
    forall k {:trigger IsBlank(gap[k])} :: 0 <= k < |gap| ==> IsBlank(gap[k])
  }

  lemma {:induction false} LineEndIs(t: Text, i: nat, j: nat)
    requires i <= j < |t| && t[j] == '\n' && forall k :: i <= k < j ==> t[k] != '\n'
    ensures LineEnd(t, i) == j
    decreases j - i
  {
    if i < j {
      LineEndIs(t, i + 1, j);
    }
  }

  lemma {:induction false} BlockEndIs(t: Text, i: nat, j: nat)
    requires i <= j && j + 2 <= |t| && t[j] == '*' && t[j + 1] == '/'
    requires forall k :: i <= k < j ==> !(t[k] == '*' && t[k + 1] == '/')
    ensures BlockEnd(t, i) == Some(j + 2)
    decreases j - i
  {
    if i < j {
      BlockEndIs(t, i + 1, j);
    }
  }

  lemma LineNoteEnds(t: Text, i: nat, s: string, note: string)
    requires LineNote(s, note) && Holds(t, i, s)
    ensures i < |t| && LineComment(t, i) && i + 2 <= |t| && LineEnd(t, i + 2) == i + |s| - 1
    ensures t[i + |s| - 1] == '\n'
  {
    HeldChar(t, i, s, 0);
    HeldChar(t, i, s, 1);
    HeldChar(t, i, s, |note| + 2);
    forall k | i + 2 <= k < i + 2 + |note| ensures t[k] != '\n' {
      HeldChar(t, i, s, k - i);
      assert s[k - i] == note[k - i - 2];
    }
    LineEndIs(t, i + 2, i + 2 + |note|);
  }

  lemma BlockNoteEnds(t: Text, i: nat, s: string, note: string)
    requires BlockNote(s, note) && Holds(t, i, s)
    ensures i < |t| && BlockComment(t, i) && i + 2 <= |t| && BlockEnd(t, i + 2) == Some(i + |s|)
  {
    forall k: nat | k < |s| ensures t[i + k] == s[k] { HeldChar(t, i, s, k); }
    assert t[i] == s[0] && t[i + 1] == s[1];
    forall k | i + 2 <= k < i + 2 + |note| ensures !(t[k] == '*' && t[k + 1] == '/') {
      assert t[k] == s[k - i] == note[k - i - 2];
      assert t[k + 1] == s[k + 1 - i];
      if k - i - 2 < |note| - 1 {
        assert s[k + 1 - i] == note[k - i - 1];
      }
    }
    var j := i + 2 + |note|;
    assert t[j] == s[j - i] && t[j + 1] == s[j + 1 - i];
    BlockEndIs(t, i + 2, j);
  }

  function LexAt(t: Text, j: nat, checks: Checks): Lexed {
    if j <= |t| then Lex(t, j, checks) else Err(BadComment)
  }

  lemma LexSkipsSpace(t: Text, i: nat, s: string, checks: Checks)
    requires IsSpace(s) && Holds(t, i, s)
    ensures LexAt(t, i, checks) == LexAt(t, i + |s|, checks)
  {
    HeldChar(t, i, s, 0);
  }

  lemma LexSkipsLine(t: Text, i: nat, s: string, note: string, checks: Checks)
    requires LineNote(s, note) && Holds(t, i, s)
    ensures LexAt(t, i, checks) == LexAt(t, i + |s|, checks)
  {
    LineNoteEnds(t, i, s, note);
    var k := i + |s| - 1;
    assert Lex(t, i, checks) == Lex(t, k, checks);
    assert Lex(t, k, checks) == Lex(t, k + 1, checks);
  }

  lemma LexSkipsBlock(t: Text, i: nat, s: string, note: string, checks: Checks)
    requires BlockNote(s, note) && Holds(t, i, s)
    ensures LexAt(t, i, checks) == LexAt(t, i + |s|, checks)
  {
    BlockNoteEnds(t, i, s, note);
  }

  /** The scanner passes over blanks and comments. */
  lemma LexSkipsBlank(t: Text, i: nat, s: string, checks: Checks)
    requires IsBlank(s) && Holds(t, i, s)
    ensures LexAt(t, i, checks) == LexAt(t, i + |s|, checks)
  {
    if note :| LineNote(s, note) {
      LexSkipsLine(t, i, s, note, checks);
    } else if note :| BlockNote(s, note) {
      LexSkipsBlock(t, i, s, note, checks);
    } else {
      LexSkipsSpace(t, i, s, checks);
    }
  }

  ghost predicate BlanksDoNotMatter<T(!new)>(t: Text, f: nat -> T) {
    forall j: nat, s: string :: IsBlank(s) && Holds(t, j, s) ==> f(j) == f(j + |s|)
  }

  lemma GapTail(gap: seq<string>)
    requires gap != [] && IsGap(gap)
    ensures IsBlank(gap[0]) && IsGap(gap[1..])
  {
    assert IsBlank(gap[0]);
    forall k | 0 <= k < |gap[1..]| ensures IsBlank(gap[1..][k]) { assert IsBlank(gap[k + 1]); }
  }

  /** What no single blank changes, no gap changes. */
  lemma {:induction false} GapChangesNothing<T(!new)>(t: Text, i: nat, gap: seq<string>, f: nat -> T)
    requires IsGap(gap) && Holds(t, i, Joined(gap))
    requires BlanksDoNotMatter(t, f)
    ensures f(i) == f(i + |Joined(gap)|)
    decreases |gap|
  {
    if gap != [] {
      GapTail(gap);
      HoldsParts(t, i, gap[0], Joined(gap[1..]));
      GapChangesNothing(t, i + |gap[0]|, gap[1..], f);
    }
  }

  function LexFrom(t: Text, checks: Checks): nat -> Lexed {
    (j: nat) => LexAt(t, j, checks)
  }

  lemma LexSkipsBlanks(t: Text, checks: Checks)
    ensures BlanksDoNotMatter(t, LexFrom(t, checks))
  {
    var f := LexFrom(t, checks);
    forall j: nat, s: string | IsBlank(s) && Holds(t, j, s) ensures f(j) == f(j + |s|) {
      LexSkipsBlank(t, j, s, checks);
    }
  }

  /** The scanner passes over the text, wherever it stands. */
  ghost predicate LexSkips(s: string, checks: Checks) {
    forall t: Text, i: nat :: Holds(t, i, s) ==> LexFrom(t, checks)(i) == LexFrom(t, checks)(i + |s|)
  }

  lemma LexSkipsGap(gap: seq<string>, checks: Checks)
    requires IsGap(gap)
    ensures LexSkips(Joined(gap), checks)
  {
    forall t: Text, i: nat | Holds(t, i, Joined(gap))
      ensures LexFrom(t, checks)(i) == LexFrom(t, checks)(i + |Joined(gap)|)
    {
      LexSkipsBlanks(t, checks);
      GapChangesNothing(t, i, gap, LexFrom(t, checks));
    }
  }

  // ---------------------------------------------------------------- texts

  /** A token as it is written, with the blanks before it. */
  datatype Piece = Piece(gap: seq<string>, text: string, token: Parser.Token)

  function PieceTokens(ps: seq<Piece>): (r: Parser.Tokens)
    ensures |r| == |ps| && forall k :: 0 <= k < |r| ==> r[k] == ps[k].token
  {
    seq(|ps|, k requires 0 <= k < |ps| => ps[k].token)
  }

  /** The pieces, and the blanks after the last one. */
  function TextOf(ps: seq<Piece>, last: seq<string>): string {
    if ps == [] then Joined(last) else Joined(ps[0].gap) + ps[0].text + TextOf(ps[1..], last)
  }

  predicate Apart(p: Piece) {
    p.gap != [] || p.text == ";"
  }

  ghost predicate PieceOk(p: Piece, double: string -> Option<nat>) {
    IsGap(p.gap) && Spells(p.text, p.token, double)
  }

  /** Every token is written in one of its ways, and there is something between each two; a semicolon may follow
      directly. */
  ghost predicate Writes(ps: seq<Piece>, last: seq<string>, double: string -> Option<nat>) {
    && IsGap(last) && (forall k {:trigger PieceOk(ps[k], double)} :: 0 <= k < |ps| ==> PieceOk(ps[k], double))
    && (forall k {:trigger Apart(ps[k])} :: 0 < k < |ps| ==> Apart(ps[k]))
  }

  lemma BlankBreaks(s: string)
    requires IsBlank(s)
    ensures s != [] && Breaks(s[0])
  {
  }

  lemma GapBreaks(gap: seq<string>)
    requires IsGap(gap) && gap != []
    ensures Joined(gap) != [] && Breaks(Joined(gap)[0])
  {
    BlankBreaks(gap[0]);
    assert Joined(gap)[0] == gap[0][0];
  }

  lemma WritesTail(ps: seq<Piece>, last: seq<string>, double: string -> Option<nat>)
    requires Writes(ps, last, double) && ps != []
    ensures Writes(ps[1..], last, double)
    ensures |ps| > 1 ==> Apart(ps[1..][0])
  {
    forall k | 0 <= k < |ps[1..]| ensures PieceOk(ps[1..][k], double) { assert PieceOk(ps[k + 1], double); }
    forall k | 0 <= k < |ps[1..]| ensures Apart(ps[1..][k]) { assert Apart(ps[k + 1]); }
  }

  /** After a token comes a break, or the end. */
  lemma RestBreaks(ps: seq<Piece>, last: seq<string>, double: string -> Option<nat>)
    requires Writes(ps, last, double) && (ps != [] ==> Apart(ps[0]))
    ensures TextOf(ps, last) == [] || Breaks(TextOf(ps, last)[0])
    ensures ps != [] ==> TextOf(ps, last) != []
  {
    if ps != [] {
      assert PieceOk(ps[0], double);
      if ps[0].gap != [] {
        GapBreaks(ps[0].gap);
      }
    } else if last != [] {
      GapBreaks(last);
    }
  }

  /** The tokens of the text from i on are these, and the end. */
  ghost predicate ReadsFrom(t: Text, i: nat, ts: Parser.Tokens, double: string -> Option<nat>) {
    var lexed := LexFrom(t, SourceChecks(double))(i);
    && lexed.Ok? && TokensOk(t, lexed.value)
    && TokensOf(t, lexed.value, double) == ts + [Parser.EndToken]
  }

  lemma ReadsEnd(t: Text, double: string -> Option<nat>)
    ensures ReadsFrom(t, |t|, [], double)
  {
  }

  lemma PrependTokens(t: Text, first: Token, rest: seq<Token>, double: string -> Option<nat>)
    requires first.begin < first.end <= |t| && TokensOk(t, rest)
    ensures TokensOk(t, [first] + rest)
    ensures TokensOf(t, [first] + rest, double) == [TokenOf(t, first, double)] + TokensOf(t, rest, double)
  {
    var all := [first] + rest;
    assert forall k :: 0 < k < |all| ==> all[k] == rest[k - 1];
    var a, b := TokensOf(t, all, double), [TokenOf(t, first, double)] + TokensOf(t, rest, double);
    forall k | 0 <= k < |all| ensures a[k] == b[k] {
      if k > 0 {
        assert a[k] == TokenOf(t, rest[k - 1], double);
      }
    }
  }

  lemma LexStep(t: Text, i: nat, checks: Checks)
    requires i < |t| && !Splitter.Whitespace(t[i]) && !LineComment(t, i) && !BlockComment(t, i)
    requires TokenAt(t, i, checks).Ok?
    ensures LexFrom(t, checks)(i) ==
            Prepend(TokenAt(t, i, checks).value, LexFrom(t, checks)(TokenAt(t, i, checks).value.end))
  {
  }

  lemma PrependReads(t: Text, token: Token, lexed: Lexed, ts: Parser.Tokens, double: string -> Option<nat>)
    requires token.begin < token.end <= |t| && lexed.Ok? && TokensOk(t, lexed.value)
    requires TokensOf(t, lexed.value, double) == ts + [Parser.EndToken]
    ensures var all := Prepend(token, lexed);
            && all.Ok? && TokensOk(t, all.value)
            && TokensOf(t, all.value, double) == [TokenOf(t, token, double)] + ts + [Parser.EndToken]
  {
    PrependTokens(t, token, lexed.value, double);
    var seen := TokenOf(t, token, double);
    assert [seen] + (ts + [Parser.EndToken]) == [seen] + ts + [Parser.EndToken];
  }

  /** One token, then the rest. */
  lemma ReadsToken(t: Text, i: nat, s: string, token: Parser.Token, ts: Parser.Tokens, double: string -> Option<nat>)
    requires Scanned(t, i, s, token, double) && ReadsFrom(t, i + |s|, ts, double)
    ensures ReadsFrom(t, i, [token] + ts, double)
  {
    var checks := SourceChecks(double);
    LexStep(t, i, checks);
    PrependReads(t, TokenAt(t, i, checks).value, LexFrom(t, checks)(i + |s|), ts, double);
  }

  /** The text is read as the token, wherever something follows that no token goes on with. */
  ghost predicate IsReadAs(s: string, token: Parser.Token, double: string -> Option<nat>) {
    forall t: Text, i: nat :: StandsAt(t, i, s) ==> Scanned(t, i, s, token, double)
  }

  lemma SpelledIsRead(s: string, token: Parser.Token, double: string -> Option<nat>)
    requires Spells(s, token, double)
    ensures IsReadAs(s, token, double)
  {
    forall t: Text, i: nat | StandsAt(t, i, s) ensures Scanned(t, i, s, token, double) {
      ScansWhatIsWritten(t, i, s, token, double);
    }
  }

  lemma StandsBetween(t: Text, i: nat, gap: string, s: string, after: string)
    requires Holds(t, i, gap + s + after)
    requires if after == [] then i + |gap + s| == |t| else Breaks(after[0])
    ensures Holds(t, i, gap) && StandsAt(t, i + |gap|, s) && Holds(t, i + |gap| + |s|, after)
  {
    HoldsThree(t, i, gap, s, after);
    if after != [] {
      HeldChar(t, i + |gap| + |s|, after, 0);
    }
  }

  /** A gap and a token, then the rest of the text. */
  lemma ReadsPiece(t: Text, i: nat, gap: string, s: string, token: Parser.Token, ts: Parser.Tokens,
                   double: string -> Option<nat>)
    requires LexSkips(gap, SourceChecks(double)) && IsReadAs(s, token, double)
    requires Holds(t, i, gap) && StandsAt(t, i + |gap|, s) && ReadsFrom(t, i + |gap| + |s|, ts, double)
    ensures ReadsFrom(t, i, [token] + ts, double)
  {
    ReadsToken(t, i + |gap|, s, token, ts, double);
  }

  lemma PieceTokensStep(ps: seq<Piece>)
    requires ps != []
    ensures PieceTokens(ps) == [ps[0].token] + PieceTokens(ps[1..])
  {
  }

  lemma PieceIsRead(p: Piece, double: string -> Option<nat>)
    requires PieceOk(p, double)
    ensures LexSkips(Joined(p.gap), SourceChecks(double)) && IsReadAs(p.text, p.token, double)
  {
    LexSkipsGap(p.gap, SourceChecks(double));
    SpelledIsRead(p.text, p.token, double);
  }

  /** What is known of the first piece without looking at its characters. */
  lemma FirstPiece(ps: seq<Piece>, last: seq<string>, double: string -> Option<nat>)
    requires ps != [] && Writes(ps, last, double)
    ensures LexSkips(Joined(ps[0].gap), SourceChecks(double)) && IsReadAs(ps[0].text, ps[0].token, double)
  {
    assert PieceOk(ps[0], double);
    PieceIsRead(ps[0], double);
  }

  /** The text is the first gap, the first token and the rest, and the rest does not go on with the token. */
  lemma TextParts(ps: seq<Piece>, last: seq<string>, double: string -> Option<nat>)
    returns (gap: string, s: string, after: string)
    requires ps != [] && Writes(ps, last, double)
    ensures gap == Joined(ps[0].gap) && s == ps[0].text && after == TextOf(ps[1..], last)
    ensures TextOf(ps, last) == gap + s + after && (after == [] || Breaks(after[0])) && (|ps| > 1 ==> after != [])
  {
    gap, s, after := Joined(ps[0].gap), ps[0].text, TextOf(ps[1..], last);
    WritesTail(ps, last, double);
    RestBreaks(ps[1..], last, double);
  }

  lemma ReadsLast(t: Text, i: nat, gap: string, double: string -> Option<nat>)
    requires LexSkips(gap, SourceChecks(double)) && i + |gap| == |t| && Holds(t, i, gap)
    ensures ReadsFrom(t, i, [], double)
  {
    ReadsEnd(t, double);
  }

  lemma ReadsParts(t: Text, i: nat, gap: string, s: string, after: string, token: Parser.Token, ts: Parser.Tokens,
                   double: string -> Option<nat>)
    requires LexSkips(gap, SourceChecks(double)) && IsReadAs(s, token, double)
    requires Holds(t, i, gap + s + after) && i + |gap + s + after| == |t| && (after == [] || Breaks(after[0]))
    requires Holds(t, i + |gap| + |s|, after) ==> ReadsFrom(t, i + |gap| + |s|, ts, double)
    ensures ReadsFrom(t, i, [token] + ts, double)
  {
    StandsBetween(t, i, gap, s, after);
    ReadsPiece(t, i, gap, s, token, ts, double);
  }

  lemma {:induction false} ReadsText(t: Text, i: nat, ps: seq<Piece>, last: seq<string>, double: string -> Option<nat>)
    requires Writes(ps, last, double) && i + |TextOf(ps, last)| == |t| && Holds(t, i, TextOf(ps, last))
    ensures ReadsFrom(t, i, PieceTokens(ps), double)
    decreases |ps|
  {
    if ps == [] {
      LexSkipsGap(last, SourceChecks(double));
      ReadsLast(t, i, Joined(last), double);
    } else {
      FirstPiece(ps, last, double);
      WritesTail(ps, last, double);
      var gap, s, after := TextParts(ps, last, double);
      var j := i + |gap| + |s|;
      if Holds(t, j, after) {
        ReadsText(t, j, ps[1..], last, double);
      }
      ReadsParts(t, i, gap, s, after, ps[0].token, PieceTokens(ps[1..]), double);
      PieceTokensStep(ps);
    }
  }

  /** Text written token by token, with any blanks and comments between the tokens and any capitals, is lexed as
      exactly those tokens. */
  lemma LexUndoesWriting(ps: seq<Piece>, last: seq<string>, double: string -> Option<nat>)
    requires Writes(ps, last, double)
    ensures ReadsFrom(TextOf(ps, last), 0, PieceTokens(ps), double)
  {
    HoldsItself(TextOf(ps, last));
    ReadsText(TextOf(ps, last), 0, ps, last, double);
  }

  // ---------------------------------------------------------------- from text to trees

  /** The tokens the parser gets from a text. */
  ghost function ReadText(t: Text, double: string -> Option<nat>): Parser.Tokens
    requires Lex(t, 0, SourceChecks(double)).Ok? && TokensOk(t, Lex(t, 0, SourceChecks(double)).value)
  {
    TokensOf(t, Lex(t, 0, SourceChecks(double)).value, double)
  }

  /** An expression written as text is read back as itself, within the budget it costs. */
  lemma ExpressionTextReadsBack(e: Expr<Binding.Name>, ps: seq<Piece>, last: seq<string>, b: nat,
                                double: string -> Option<nat>)
    requires Writes(ps, last, double) && PieceTokens(ps) == Parser.Print(e, Parser.OrLevel)
    requires Parser.Cost(e, Parser.OrLevel) <= b
    ensures ReadsFrom(TextOf(ps, last), 0, PieceTokens(ps), double)
    ensures Parser.ParseOr(ReadText(TextOf(ps, last), double), b) ==
            Ok(Parser.Parsed(e, [Parser.EndToken], b - Parser.Cost(e, Parser.OrLevel)))
  {
    LexUndoesWriting(ps, last, double);
    Parser.ParseUndoesPrint(e, [Parser.EndToken], b);
  }

  /** A CREATE TABLE written as text is read back as itself. */
  lemma CreateTextReadsBack(ast: CreateTables.CreateAst, ps: seq<Piece>, last: seq<string>,
                            double: string -> Option<nat>)
    requires ast.columns != [] && Writes(ps, last, double)
    requires PieceTokens(ps) + [Parser.EndToken] == CreateTables.PrintCreate(ast)
    ensures ReadsFrom(TextOf(ps, last), 0, PieceTokens(ps), double)
    ensures CreateTables.ParseCreate(ReadText(TextOf(ps, last), double)) == Some(ast)
  {
    LexUndoesWriting(ps, last, double);
    CreateTables.CreateRoundTrip(ast);
  }
}
