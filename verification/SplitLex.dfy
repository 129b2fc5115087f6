/** The splitter and the lexer see the same strings, comments and semicolons. */
module SplitLex {
  import opened Common
  import opened Splitter
  import opened Lexer

  /** What lies ahead of the machine: the next semicolon, the mode at the end, whether anything matters. */
  datatype Ahead = Ahead(semicolon: Option<nat>, end: Mode, content: bool)

  function Look(t: Text, i: nat, mode: Mode): Ahead
    requires i <= |t|
  {
    Ahead(Semicolon(t, i, mode), EndMode(t, i, mode), HasContent(t, i, mode))
  }

  lemma LookStep(t: Text, i: nat, mode: Mode)
    requires i < |t| && !(mode.Normal? && t[i] == ';')
    ensures var m := Next(t, i, mode);
            var after := Look(t, i + m.width, m.mode);
            Look(t, i, mode) == after.(content := Matters(t, i, mode) || after.content)
  {
    StepAhead(t, i, mode);
  }

  // ---------------------------------------------------------------- lexemes as the machine sees them

  predicate Plain(c: char) {
    c != '\'' && c != '-' && c != '/' && c != ';'
  }

  /** Characters the machine passes one by one. */
  lemma {:induction false} PlainRun(t: Text, i: nat, j: nat)
    requires i <= j <= |t| && forall k :: i <= k < j ==> Plain(t[k])
    ensures Semicolon(t, i, Normal) == Semicolon(t, j, Normal) && EndMode(t, i, Normal) == EndMode(t, j, Normal)
    ensures (forall k :: i <= k < j ==> Whitespace(t[k])) ==> HasContent(t, i, Normal) == HasContent(t, j, Normal)
    ensures i < j && !Whitespace(t[i]) ==> HasContent(t, i, Normal)
    decreases j - i
  {
    if i < j {
      assert Plain(t[i]);
      LookStep(t, i, Normal);
      PlainRun(t, i + 1, j);
    }
  }

  lemma {:induction false} LineRun(t: Text, i: nat)
    requires i <= |t|
    ensures Look(t, i, InLine).semicolon == Look(t, LineEnd(t, i), Normal).semicolon
    ensures Look(t, i, InLine).content == Look(t, LineEnd(t, i), Normal).content
    ensures Unterminated(Look(t, i, InLine).end) == Unterminated(Look(t, LineEnd(t, i), Normal).end)
    decreases |t| - i
  {
    if i < |t| {
      LookStep(t, i, InLine);
      if t[i] == '\n' {
        LookStep(t, i, Normal);
      } else {
        LineRun(t, i + 1);
      }
    }
  }

  lemma {:induction false} BlockRun(t: Text, i: nat)
    requires i <= |t|
    ensures BlockEnd(t, i).Some? ==> Look(t, i, InBlock) == Look(t, BlockEnd(t, i).value, Normal)
    ensures BlockEnd(t, i).None? ==> Look(t, i, InBlock) == Ahead(None, InBlock, false)
    decreases |t| - i
  {
    if i < |t| {
      LookStep(t, i, InBlock);
      if !(t[i] == '*' && At(t, i + 1) == '/') {
        BlockRun(t, i + 1);
      }
    }
  }

  lemma {:induction false} StringRun(t: Text, i: nat, text: string)
    requires i <= |t| && StringEnd(t, i, text).Str?
    ensures Semicolon(t, i, InString) == Semicolon(t, StringEnd(t, i, text).end, Normal)
    decreases |t| - i
  {
    LookStep(t, i, InString);
    if t[i] != '\'' {
      StringRun(t, i + 1, text + [t[i]]);
    } else if At(t, i + 1) == '\'' {
      StringRun(t, i + 2, text + ['\'']);
    }
  }

  /** A token other than the semicolon hides no semicolon from the machine, and it matters. */
  lemma TokenRun(t: Text, i: nat, checks: Checks)
    requires i < |t| && !Whitespace(t[i]) && !LineComment(t, i) && !BlockComment(t, i) && t[i] != ';'
    ensures HasContent(t, i, Normal)
    ensures TokenAt(t, i, checks).Ok? ==>
      && Semicolon(t, i, Normal) == Semicolon(t, TokenAt(t, i, checks).value.end, Normal)
      && !TokenAt(t, i, checks).value.kind.Semi? && !TokenAt(t, i, checks).value.kind.EndOfText?
  {
    LookStep(t, i, Normal);
    var r := TokenAt(t, i, checks);
    if r.Ok? {
      if t[i] == '\'' {
        StringRun(t, i + 1, "");
      } else {
        TokenIsPlain(t, i, checks);
        PlainRun(t, i, r.value.end);
      }
    }
  }

  lemma TokenIsPlain(t: Text, i: nat, checks: Checks)
    requires i < |t| && t[i] != '\'' && t[i] != ';' && TokenAt(t, i, checks).Ok?
    ensures forall k :: i <= k < TokenAt(t, i, checks).value.end ==> Plain(t[k])
  {
    var end := TokenAt(t, i, checks).value.end;
    forall k | i <= k < end ensures Plain(t[k]) {
      if Letter(t[i]) {
        assert WordChar(t[k]);
      } else if Digit(t[i]) {
        assert Digit(t[k]) || t[k] == '.';
      }
    }
  }

  // ---------------------------------------------------------------- one statement's text

  /** No semicolon outside strings and comments, except perhaps as the last character. */
  predicate LastOrNone(t: Text, i: nat)
    requires i <= |t|
  {
    Semicolon(t, i, Normal).None? || Semicolon(t, i, Normal) == Some(|t| - 1)
  }

  /** A semicolon token, if there is one, stands directly before the end token. */
  ghost predicate SemicolonAtEnd(tokens: seq<Token>) {
    && tokens != [] && tokens[|tokens| - 1].kind.EndOfText?
    && (forall k :: 0 <= k < |tokens| ==>
        (tokens[k].kind.Semi? ==> k == |tokens| - 2) && (tokens[k].kind.EndOfText? ==> k == |tokens| - 1))
  }

  lemma PrependKeeps(token: Token, rest: seq<Token>)
    requires SemicolonAtEnd(rest) && !token.kind.EndOfText? && (token.kind.Semi? ==> |rest| == 1)
    ensures SemicolonAtEnd([token] + rest)
  {
  }

  /** Lexing a statement's text yields at most one semicolon, directly before the end. */
  lemma {:induction false} LexedStatement(t: Text, i: nat, checks: Checks)
    requires i <= |t| && LastOrNone(t, i) && Lex(t, i, checks).Ok?
    ensures SemicolonAtEnd(Lex(t, i, checks).value)
    decreases |t| - i
  {
    if i < |t| {
      if Whitespace(t[i]) {
        PlainRun(t, i, i + 1);
        LexedStatement(t, i + 1, checks);
      } else if LineComment(t, i) {
        LookStep(t, i, Normal);
        LineRun(t, i + 2);
        LexedStatement(t, LineEnd(t, i + 2), checks);
      } else if BlockComment(t, i) {
        LookStep(t, i, Normal);
        BlockRun(t, i + 2);
        LexedStatement(t, BlockEnd(t, i + 2).value, checks);
      } else if t[i] == ';' {
        PrependKeeps(Token(Semi, i, i + 1), [Token(EndOfText, |t|, |t|)]);
      } else {
        TokenRun(t, i, checks);
        var token := TokenAt(t, i, checks).value;
        LexedStatement(t, token.end, checks);
        PrependKeeps(token, Lex(t, token.end, checks).value);
      }
    }
  }

  // ---------------------------------------------------------------- blank pieces

  /** Nothing but the end, or a semicolon and the end. */
  predicate Nothing(r: Lexed) {
    r.Ok? && (|r.value| == 1 || (|r.value| == 2 && r.value[0].kind.Semi?))
  }

  predicate BlankFrom(t: Text, i: nat)
    requires i <= |t|
  {
    !HasContent(t, i, Normal) && !Unterminated(EndMode(t, i, Normal))
  }

  lemma LexNonEmpty(t: Text, i: nat, checks: Checks)
    requires i <= |t| && Lex(t, i, checks).Ok?
    ensures Lex(t, i, checks).value != []
    decreases |t| - i
  {
  }

  /** A piece is blank exactly when the lexer finds nothing in it but an optional semicolon. */
  lemma {:induction false} BlankLexesToNothing(t: Text, i: nat, checks: Checks)
    requires i <= |t| && LastOrNone(t, i)
    ensures BlankFrom(t, i) <==> Nothing(Lex(t, i, checks))
    decreases |t| - i
  {
    if i < |t| {
      if Whitespace(t[i]) {
        PlainRun(t, i, i + 1);
        BlankLexesToNothing(t, i + 1, checks);
      } else if LineComment(t, i) {
        LookStep(t, i, Normal);
        LineRun(t, i + 2);
        BlankLexesToNothing(t, LineEnd(t, i + 2), checks);
      } else if BlockComment(t, i) {
        LookStep(t, i, Normal);
        BlockRun(t, i + 2);
        if BlockEnd(t, i + 2).Some? {
          BlankLexesToNothing(t, BlockEnd(t, i + 2).value, checks);
        }
      } else if t[i] == ';' {
        assert EndMode(t, i, Normal) == EndMode(t, i + 1, Normal);
      } else {
        TokenRun(t, i, checks);
        var r := TokenAt(t, i, checks);
        if r.Ok? && Lex(t, r.value.end, checks).Ok? {
          LexNonEmpty(t, r.value.end, checks);
        }
      }
    }
  }

  // ---------------------------------------------------------------- a piece on its own

  lemma SameMove(t: Text, b: nat, e: nat, i: nat, mode: Mode)
    requires b <= i < e <= |t| && (i + 1 < e || e == |t|)
    ensures Next(t[b..e], i - b, mode) == Next(t, i, mode)
  {
  }

  /** Cut out of the script, a piece looks to the machine as it did inside. */
  ghost predicate LooksSame(t: Text, b: nat, e: nat, i: nat, mode: Mode)
    requires b <= i <= e <= |t|
  {
    var piece := t[b..e];
    && Semicolon(piece, i - b, mode) == (if Semicolon(t, i, mode).Some? then Some(|piece| - 1) else None)
    && HasContent(piece, i - b, mode) == HasContent(t, i, mode)
    && EndMode(piece, i - b, mode) == (if Semicolon(t, i, mode).Some? then Normal else EndMode(t, i, mode))
  }

  lemma LooksSameAtSemicolon(t: Text, b: nat, e: nat)
    requires b < e <= |t| && t[e - 1] == ';'
    ensures LooksSame(t, b, e, e - 1, Normal)
  {
    var piece := t[b..e];
    assert piece[|piece| - 1] == ';';
    assert EndMode(piece, |piece| - 1, Normal) == EndMode(piece, |piece|, Normal);
  }

  lemma LooksSameBefore(t: Text, b: nat, e: nat, i: nat, mode: Mode)
    requires b <= i < e <= |t| && (i + 1 < e || e == |t|) && !(mode.Normal? && t[i] == ';')
    requires i + Next(t, i, mode).width <= e && LooksSame(t, b, e, i + Next(t, i, mode).width, Next(t, i, mode).mode)
    ensures LooksSame(t, b, e, i, mode)
  {
    StepAhead(t, i, mode);
    SameMove(t, b, e, i, mode);
    StepAhead(t[b..e], i - b, mode);
  }

  lemma {:induction false} Local(t: Text, b: nat, e: nat, i: nat, mode: Mode)
    requires b <= i <= e <= |t|
    requires Semicolon(t, i, mode) == Some(e - 1) || (Semicolon(t, i, mode).None? && e == |t|)
    ensures LooksSame(t, b, e, i, mode)
    decreases e - i
  {
    if i < e {
      if mode.Normal? && t[i] == ';' {
        LooksSameAtSemicolon(t, b, e);
      } else {
        StepAhead(t, i, mode);
        var m := Next(t, i, mode);
        Local(t, b, e, i + m.width, m.mode);
        LooksSameBefore(t, b, e, i, mode);
      }
    }
  }

  predicate EndsPiece(t: Text, s: Segment) {
    && s.begin <= s.end <= |t|
    && (Semicolon(t, s.begin, Normal) == Some(s.end - 1) || (Semicolon(t, s.begin, Normal).None? && s.end == |t|))
  }

  lemma PiecesCut(t: Text, start: nat, cut: Option<nat>)
    requires start <= |t| && cut == Semicolon(t, start, Normal)
    ensures Pieces(t, start) == if cut.None? then [Segment(start, |t|)]
      else [Segment(start, cut.value + 1)] + Pieces(t, cut.value + 1)
  {
  }

  lemma PieceOf(t: Text, start: nat, cut: Option<nat>, s: Segment)
    requires start <= |t| && s in Pieces(t, start) && cut == Semicolon(t, start, Normal)
    ensures s == Segment(start, if cut.None? then |t| else cut.value + 1) ||
      (cut.Some? && s in Pieces(t, cut.value + 1))
  {
    PiecesCut(t, start, cut);
  }

  lemma FirstPieceEnds(t: Text, start: nat, cut: Option<nat>)
    requires start <= |t| && cut == Semicolon(t, start, Normal)
    ensures EndsPiece(t, Segment(start, if cut.None? then |t| else cut.value + 1))
  {
  }

  lemma {:induction false} PieceEnds(t: Text, start: nat, s: Segment)
    requires start <= |t| && s in Pieces(t, start)
    ensures EndsPiece(t, s)
    decreases |t| - start
  {
    var cut := Semicolon(t, start, Normal);
    PieceOf(t, start, cut, s);
    if s == Segment(start, if cut.None? then |t| else cut.value + 1) {
      FirstPieceEnds(t, start, cut);
    } else {
      PieceEnds(t, cut.value + 1, s);
    }
  }

  lemma PieceIsStatement(t: Text, s: Segment)
    requires EndsPiece(t, s)
    ensures LastOrNone(t[s.begin..s.end], 0)
  {
    Local(t, s.begin, s.end, s.begin, Normal);
  }

  lemma PieceIsBlank(t: Text, s: Segment)
    requires EndsPiece(t, s)
    ensures BlankFrom(t[s.begin..s.end], 0) <==> !Kept(t, s)
  {
    Local(t, s.begin, s.end, s.begin, Normal);
  }

  lemma PieceFacts(t: Text, s: Segment)
    requires s in Pieces(t, 0)
    ensures s.begin <= s.end <= |t|
    ensures LastOrNone(t[s.begin..s.end], 0)
    ensures BlankFrom(t[s.begin..s.end], 0) <==> !Kept(t, s)
  {
    PieceEnds(t, 0, s);
    PieceIsStatement(t, s);
    PieceIsBlank(t, s);
  }

  /** The splitter drops a piece exactly when the lexer would find nothing in it but an optional semicolon. */
  lemma DroppedIffNothing(t: Text, s: Segment, checks: Checks)
    requires s in Pieces(t, 0)
    ensures s.begin <= s.end <= |t|
    ensures s !in Split(t, 0) <==> Nothing(Lex(t[s.begin..s.end], 0, checks))
  {
    PieceFacts(t, s);
    SplitIsKeptPieces(t, 0, s);
    BlankLexesToNothing(t[s.begin..s.end], 0, checks);
  }

  /** A statement that tokenizes has at most one semicolon token, directly before the end token. */
  lemma StatementsHaveOneSemicolon(t: Text, s: Segment, checks: Checks)
    requires s in Split(t, 0)
    ensures s.begin <= s.end <= |t|
    ensures Lex(t[s.begin..s.end], 0, checks).Ok? ==> SemicolonAtEnd(Lex(t[s.begin..s.end], 0, checks).value)
  {
    SplitIsKeptPieces(t, 0, s);
    PieceFacts(t, s);
    if Lex(t[s.begin..s.end], 0, checks).Ok? {
      LexedStatement(t[s.begin..s.end], 0, checks);
    }
  }
}
