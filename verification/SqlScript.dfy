/** Scripts as text: written statement by statement, a script is split into exactly those statements
    (src/compiler/compiler.cpp). */
module SqlScript {
  import opened Common
  import opened Splitter
  import opened Lexer
  import opened SqlSpelling
  import opened SqlText
  import opened SplitLex
  import Parser
  import SqlTokens

  // ---------------------------------------------------------------- blanks and tokens, as the splitter sees them

  /** What the splitter has still to find out when it stands at j outside strings and comments. */
  datatype Outlook = Outlook(semicolon: Option<nat>, content: bool, cut: bool)

  function OutlookAt(t: Text, j: nat): Outlook {
    if j <= |t|
        then Outlook(Semicolon(t, j, Normal), HasContent(t, j, Normal), Unterminated(EndMode(t, j, Normal)))
    else Outlook(None, false, false)
  }

  lemma SpaceIsPassed(t: Text, j: nat, s: string)
    requires IsSpace(s) && Holds(t, j, s)
    ensures OutlookAt(t, j) == OutlookAt(t, j + |s|)
  {
    HeldChar(t, j, s, 0);
    PlainRun(t, j, j + 1);
  }

  lemma LineIsPassed(t: Text, j: nat, s: string, note: string)
    requires LineNote(s, note) && Holds(t, j, s)
    ensures OutlookAt(t, j) == OutlookAt(t, j + |s|)
  {
    LineNoteEnds(t, j, s, note);
    LookStep(t, j, Normal);
    LineRun(t, j + 2);
    var k := j + |s| - 1;
    PlainRun(t, k, k + 1);
  }

  lemma BlockIsPassed(t: Text, j: nat, s: string, note: string)
    requires BlockNote(s, note) && Holds(t, j, s)
    ensures OutlookAt(t, j) == OutlookAt(t, j + |s|)
  {
    BlockNoteEnds(t, j, s, note);
    LookStep(t, j, Normal);
    BlockRun(t, j + 2);
  }

  lemma BlankIsPassed(t: Text, j: nat, s: string)
    requires IsBlank(s) && Holds(t, j, s)
    ensures OutlookAt(t, j) == OutlookAt(t, j + |s|)
  {
    if note :| LineNote(s, note) {
      LineIsPassed(t, j, s, note);
    } else if note :| BlockNote(s, note) {
      BlockIsPassed(t, j, s, note);
    } else {
      SpaceIsPassed(t, j, s);
    }
  }

  function OutlookFrom(t: Text): nat -> Outlook {
    (j: nat) => OutlookAt(t, j)
  }

  lemma SplitterSkipsBlanks(t: Text)
    ensures BlanksDoNotMatter(t, OutlookFrom(t))
  {
    var f := OutlookFrom(t);
    forall j: nat, s: string | IsBlank(s) && Holds(t, j, s) ensures f(j) == f(j + |s|) {
      BlankIsPassed(t, j, s);
    }
  }

  /** The splitter passes over the text, wherever it stands. */
  ghost predicate SplitterSkips(s: string) {
    forall t: Text, i: nat :: Holds(t, i, s) ==> OutlookFrom(t)(i) == OutlookFrom(t)(i + |s|)
  }

  lemma SplitterSkipsGap(gap: seq<string>)
    requires IsGap(gap)
    ensures SplitterSkips(Joined(gap))
  {
    forall t: Text, i: nat | Holds(t, i, Joined(gap))
      ensures OutlookFrom(t)(i) == OutlookFrom(t)(i + |Joined(gap)|)
    {
      SplitterSkipsBlanks(t);
      GapChangesNothing(t, i, gap, OutlookFrom(t));
    }
  }

  const SEMICOLON: Parser.Token := Parser.OtherToken(";")

  lemma ReadAsSemicolon(t: Text, i: nat, s: string, token: Parser.Token, double: string -> Option<nat>)
    requires Scanned(t, i, s, token, double) && t[i] == ';'
    ensures token == SEMICOLON
  {
    assert TokenAt(t, i, SqlTokens.SourceChecks(double)) == Ok(Token(Semi, i, i + 1));
    assert t[i..i + 1] == ";";
  }

  lemma TokenIsPassed(t: Text, i: nat, s: string, token: Parser.Token, double: string -> Option<nat>)
    requires Scanned(t, i, s, token, double) && token != SEMICOLON
    ensures OutlookAt(t, i).content && OutlookAt(t, i).semicolon == OutlookAt(t, i + |s|).semicolon
  {
    if t[i] == ';' {
      ReadAsSemicolon(t, i, s, token, double);
    }
    TokenRun(t, i, SqlTokens.SourceChecks(double));
  }

  lemma WrittenIsPassed(t: Text, i: nat, s: string, token: Parser.Token, double: string -> Option<nat>)
    requires StandsAt(t, i, s) && Spells(s, token, double) && token != SEMICOLON
    ensures OutlookAt(t, i).content && OutlookAt(t, i).semicolon == OutlookAt(t, i + |s|).semicolon
  {
    ScansWhatIsWritten(t, i, s, token, double);
    TokenIsPassed(t, i, s, token, double);
  }

  /** The text matters to the splitter and hides no semicolon, wherever something follows that no token goes on
      with. */
  ghost predicate Matters(s: string) {
    forall t: Text, i: nat :: StandsAt(t, i, s) ==>
        OutlookFrom(t)(i).content && OutlookFrom(t)(i).semicolon == OutlookFrom(t)(i + |s|).semicolon
  }

  /** A token that is not the semicolon matters. */
  lemma TokenMatters(s: string, token: Parser.Token, double: string -> Option<nat>)
    requires Spells(s, token, double) && token != SEMICOLON
    ensures Matters(s)
  {
    forall t: Text, i: nat | StandsAt(t, i, s)
      ensures OutlookFrom(t)(i).content && OutlookFrom(t)(i).semicolon == OutlookFrom(t)(i + |s|).semicolon
    {
      WrittenIsPassed(t, i, s, token, double);
    }
  }

  // ---------------------------------------------------------------- statements

  /** Tokens that end with their only semicolon. */
  ghost predicate IsStatement(ps: seq<Piece>, double: string -> Option<nat>) {
    && |ps| >= 2 && Writes(ps, [], double) && ps[|ps| - 1].text == ";"
    && forall k :: 0 <= k < |ps| - 1 ==> ps[k].token != SEMICOLON
  }

  /** The rest of a statement, from some token on. */
  ghost predicate IsRest(ps: seq<Piece>, double: string -> Option<nat>) {
    && ps != [] && Writes(ps, [], double) && ps[|ps| - 1].text == ";"
    && forall k :: 0 <= k < |ps| - 1 ==> ps[k].token != SEMICOLON
  }

  lemma RestIsRest(ps: seq<Piece>, double: string -> Option<nat>)
    requires IsRest(ps, double) && |ps| > 1
    ensures ps[0].token != SEMICOLON && IsRest(ps[1..], double)
  {
    WritesTail(ps, [], double);
    assert forall k :: 0 <= k < |ps[1..]| ==> ps[1..][k] == ps[k + 1];
  }

  lemma FirstMatters(ps: seq<Piece>, double: string -> Option<nat>)
    requires IsRest(ps, double)
    ensures SplitterSkips(Joined(ps[0].gap)) && (ps[0].token != SEMICOLON ==> Matters(ps[0].text))
  {
    assert PieceOk(ps[0], double);
    SplitterSkipsGap(ps[0].gap);
    if ps[0].token != SEMICOLON {
      TokenMatters(ps[0].text, ps[0].token, double);
    }
  }

  /** A gap and a token, before more. */
  lemma FirstIsPassed(t: Text, i: nat, gap: string, s: string, after: string)
    requires SplitterSkips(gap) && Matters(s) && after != [] && Breaks(after[0]) && Holds(t, i, gap + s + after)
    ensures OutlookFrom(t)(i).content
    ensures OutlookFrom(t)(i).semicolon == OutlookFrom(t)(i + |gap| + |s|).semicolon
    ensures Holds(t, i + |gap| + |s|, after)
  {
    StandsBetween(t, i, gap, s, after);
  }

  lemma SemicolonIsFound(t: Text, i: nat)
    requires i < |t| && t[i] == ';'
    ensures OutlookFrom(t)(i).semicolon == Some(i)
  {
  }

  /** The gap before the semicolon. */
  lemma LastIsFound(t: Text, i: nat, gap: string)
    requires SplitterSkips(gap) && Holds(t, i, gap + ";")
    ensures OutlookFrom(t)(i).semicolon == Some(i + |gap|)
  {
    HoldsParts(t, i, gap, ";");
    HeldChar(t, i + |gap|, ";", 0);
    SemicolonIsFound(t, i + |gap|);
  }

  lemma LastText(ps: seq<Piece>)
    requires |ps| == 1 && ps[0].text == ";"
    ensures TextOf(ps, []) == Joined(ps[0].gap) + ";"
  {
    assert TextOf(ps[1..], []) == "";
  }

  /** Up to its semicolon, a statement shows the splitter none. */
  lemma {:induction false} FindsTheEnd(t: Text, i: nat, ps: seq<Piece>, double: string -> Option<nat>)
    requires IsRest(ps, double) && Holds(t, i, TextOf(ps, []))
    ensures TextOf(ps, []) != [] && OutlookFrom(t)(i).semicolon == Some(i + |TextOf(ps, [])| - 1)
    ensures |ps| > 1 ==> OutlookFrom(t)(i).content
    decreases |ps|
  {
    FirstMatters(ps, double);
    if |ps| == 1 {
      LastText(ps);
      LastIsFound(t, i, Joined(ps[0].gap));
    } else {
      RestIsRest(ps, double);
      var gap, s, after := TextParts(ps, [], double);
      FirstIsPassed(t, i, gap, s, after);
      FindsTheEnd(t, i + |gap| + |s|, ps[1..], double);
    }
  }

  // ---------------------------------------------------------------- scripts

  /** Wherever the text stands, the splitter finds something in it, and its end. */
  ghost predicate Closes(s: string) {
    s != [] && forall t: Text, i: nat :: Holds(t, i, s) ==>
        OutlookFrom(t)(i).content && OutlookFrom(t)(i).semicolon == Some(i + |s| - 1)
  }

  lemma StatementCloses(ps: seq<Piece>, double: string -> Option<nat>)
    requires IsStatement(ps, double)
    ensures Closes(TextOf(ps, []))
  {
    var s := TextOf(ps, []);
    forall t: Text, i: nat | Holds(t, i, s)
      ensures OutlookFrom(t)(i).content && OutlookFrom(t)(i).semicolon == Some(i + |s| - 1)
    {
      FindsTheEnd(t, i, ps, double);
    }
    HoldsItself(s);
    FindsTheEnd(s, 0, ps, double);
  }

  /** The statements one after the other, and the blanks after the last one. */
  function ScriptText(texts: seq<string>, last: seq<string>): string {
    if texts == [] then Joined(last) else texts[0] + ScriptText(texts[1..], last)
  }

  /** Where the statements stand, the first one at i. */
  function Ranges(texts: seq<string>, i: nat): (r: seq<Segment>)
    ensures |r| == |texts|
  {
    if texts == [] then [] else [Segment(i, i + |texts[0]|)] + Ranges(texts[1..], i + |texts[0]|)
  }

  ghost predicate AllClose(texts: seq<string>) {
    forall k {:trigger Closes(texts[k])} :: 0 <= k < |texts| ==> Closes(texts[k])
  }

  lemma SplitStep(t: Text, i: nat, end: nat)
    requires i < end <= |t| && OutlookFrom(t)(i).semicolon == Some(end - 1) && OutlookFrom(t)(i).content
    ensures Split(t, i) == [Segment(i, end)] + Split(t, end)
  {
  }

  lemma SplitNothing(t: Text, i: nat)
    requires i <= |t| && OutlookFrom(t)(i) == OutlookFrom(t)(|t|)
    ensures Split(t, i) == []
  {
  }

  lemma SplitLast(t: Text, i: nat, last: seq<string>)
    requires IsGap(last) && Holds(t, i, Joined(last)) && i + |Joined(last)| == |t|
    ensures Split(t, i) == []
  {
    SplitterSkipsGap(last);
    SplitNothing(t, i);
  }

  /** The statement at i is the first piece, and the script goes on behind it. */
  lemma SplitFirst(t: Text, i: nat, s: string, rest: string)
    requires Closes(s) && Holds(t, i, s + rest)
    ensures i + |s| <= |t| && Split(t, i) == [Segment(i, i + |s|)] + Split(t, i + |s|)
    ensures Holds(t, i, s) && Holds(t, i + |s|, rest)
  {
    HoldsParts(t, i, s, rest);
    SplitStep(t, i, i + |s|);
  }

  /** Text k is what t holds in range k. */
  ghost predicate InPlace(t: Text, ranges: seq<Segment>, texts: seq<string>) {
    |ranges| == |texts| && forall k :: 0 <= k < |texts| ==>
        ranges[k].end == ranges[k].begin + |texts[k]| && Holds(t, ranges[k].begin, texts[k])
  }

  lemma InPlaceStep(t: Text, i: nat, texts: seq<string>)
    requires texts != [] && Holds(t, i, texts[0])
    requires InPlace(t, Ranges(texts[1..], i + |texts[0]|), texts[1..])
    ensures InPlace(t, Ranges(texts, i), texts)
  {
    var all, rest := Ranges(texts, i), Ranges(texts[1..], i + |texts[0]|);
    forall k | 0 <= k < |texts|
      ensures all[k].end == all[k].begin + |texts[k]| && Holds(t, all[k].begin, texts[k])
    {
      if k > 0 {
        assert all[k] == rest[k - 1] && texts[k] == texts[1..][k - 1];
      }
    }
  }

  lemma ScriptStep(t: Text, i: nat, texts: seq<string>, last: seq<string>)
    requires texts != [] && AllClose(texts) && Holds(t, i, ScriptText(texts, last))
    ensures Holds(t, i, texts[0] + ScriptText(texts[1..], last)) && Closes(texts[0]) && AllClose(texts[1..])
    ensures |ScriptText(texts, last)| == |texts[0]| + |ScriptText(texts[1..], last)|
  {
    assert Closes(texts[0]);
    forall k | 0 <= k < |texts[1..]| ensures Closes(texts[1..][k]) { assert Closes(texts[k + 1]); }
  }

  lemma RangesStep(texts: seq<string>, i: nat)
    requires texts != []
    ensures Ranges(texts, i) == [Segment(i, i + |texts[0]|)] + Ranges(texts[1..], i + |texts[0]|)
  {
  }

  lemma {:induction false} SplitsFrom(t: Text, i: nat, texts: seq<string>, last: seq<string>)
    requires AllClose(texts) && IsGap(last)
    requires Holds(t, i, ScriptText(texts, last)) && i + |ScriptText(texts, last)| == |t|
    ensures Split(t, i) == Ranges(texts, i) && InPlace(t, Ranges(texts, i), texts)
    decreases |texts|
  {
    if texts == [] {
      SplitLast(t, i, last);
    } else {
      ScriptStep(t, i, texts, last);
      SplitFirst(t, i, texts[0], ScriptText(texts[1..], last));
      SplitsFrom(t, i + |texts[0]|, texts[1..], last);
      RangesStep(texts, i);
      InPlaceStep(t, i, texts);
    }
  }

  ghost predicate IsScript(ws: seq<seq<Piece>>, last: seq<string>, double: string -> Option<nat>) {
    IsGap(last) && forall k {:trigger IsStatement(ws[k], double)} :: 0 <= k < |ws| ==> IsStatement(ws[k], double)
  }

  function Texts(ws: seq<seq<Piece>>): (r: seq<string>)
    ensures |r| == |ws| && forall k :: 0 <= k < |r| ==> r[k] == TextOf(ws[k], [])
  {
    seq(|ws|, k requires 0 <= k < |ws| => TextOf(ws[k], []))
  }

  /** A script written statement by statement, with any blanks and comments, is split into exactly its statements,
      each with its own text; strings and comments may hold semicolons. */
  lemma SplitUndoesWriting(ws: seq<seq<Piece>>, last: seq<string>, double: string -> Option<nat>)
    requires IsScript(ws, last, double)
    ensures var t := ScriptText(Texts(ws), last);
            Split(t, 0) == Ranges(Texts(ws), 0) && InPlace(t, Ranges(Texts(ws), 0), Texts(ws))
  {
    var t := ScriptText(Texts(ws), last);
    HoldsItself(t);
    forall k | 0 <= k < |ws| ensures Closes(Texts(ws)[k]) {
      assert IsStatement(ws[k], double);
      StatementCloses(ws[k], double);
    }
    SplitsFrom(t, 0, Texts(ws), last);
  }

  lemma StatementReadsBack(ws: seq<seq<Piece>>, last: seq<string>, double: string -> Option<nat>, k: nat)
    requires IsScript(ws, last, double) && k < |ws|
    ensures ReadsFrom(TextOf(ws[k], []), 0, PieceTokens(ws[k]), double)
  {
    assert IsStatement(ws[k], double);
    LexUndoesWriting(ws[k], [], double);
  }

  lemma StatementInPlace(ws: seq<seq<Piece>>, last: seq<string>, double: string -> Option<nat>, k: nat)
    requires IsScript(ws, last, double) && k < |ws|
    ensures var t := ScriptText(Texts(ws), last);
            && |Split(t, 0)| == |ws| && var s := Split(t, 0)[k];
            s.begin <= s.end <= |t| && t[s.begin..s.end] == TextOf(ws[k], [])
  {
    SplitUndoesWriting(ws, last, double);
    var text := Texts(ws)[k];
    assert text == TextOf(ws[k], []);
    HeldIs(ScriptText(Texts(ws), last), Ranges(Texts(ws), 0)[k].begin, text);
  }

  /** And each statement's text is lexed as the tokens it was written from. */
  lemma ScriptReadsBack(ws: seq<seq<Piece>>, last: seq<string>, double: string -> Option<nat>, k: nat)
    requires IsScript(ws, last, double) && k < |ws|
    ensures var t := ScriptText(Texts(ws), last);
            && |Split(t, 0)| == |ws| && var s := Split(t, 0)[k];
            s.begin <= s.end <= |t| && ReadsFrom(t[s.begin..s.end], 0, PieceTokens(ws[k]), double)
  {
    StatementInPlace(ws, last, double, k);
    StatementReadsBack(ws, last, double, k);
  }
}
