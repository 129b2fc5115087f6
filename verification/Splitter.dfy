/** Splitting a script into statements (split_statements, src/compiler/compiler.cpp). */
module Splitter {
  import opened Common

  type Text = string

  datatype Mode = Normal | InString | InLine | InBlock

  predicate Whitespace(c: char) {
    c == ' ' || c == '\t' || c == '\n' || c == '\r' || c == '\U{0C}' || c == '\U{0B}'
  }

  /** The character at i, a NUL past the end. */
  function At(t: Text, i: nat): char {
    if i < |t| then t[i] else '\0'
  }

  // ---------------------------------------------------------------- one step of the machine

  /** The mode after the step and how many characters it takes. */
  datatype Move = Move(mode: Mode, width: nat)

  function Next(t: Text, i: nat, mode: Mode): (m: Move)
    requires i < |t|
    ensures 1 <= m.width <= 2 && i + m.width <= |t|
  {
    match mode
    case Normal =>
      if t[i] == '\'' then Move(InString, 1)
      else if t[i] == '-' && At(t, i + 1) == '-' then Move(InLine, 2)
      else if t[i] == '/' && At(t, i + 1) == '*' then Move(InBlock, 2)
      else Move(Normal, 1)
    case InString =>
      if t[i] == '\'' && At(t, i + 1) == '\'' then Move(InString, 2)
      else if t[i] == '\'' then Move(Normal, 1)
      else Move(InString, 1)
    case InLine => Move(if t[i] == '\n' then Normal else InLine, 1)
    case InBlock => if t[i] == '*' && At(t, i + 1) == '/' then Move(Normal, 2) else Move(InBlock, 1)
  }

  /** The next semicolon outside strings and comments. */
  function Semicolon(t: Text, i: nat, mode: Mode): (r: Option<nat>)
    requires i <= |t|
    ensures r.Some? ==> i <= r.value < |t| && t[r.value] == ';'
    decreases |t| - i
  {
    if i == |t| then None
    else if mode.Normal? && t[i] == ';' then Some(i)
    else Semicolon(t, i + Next(t, i, mode).width, Next(t, i, mode).mode)
  }

  /** The mode at the end of a text without a further semicolon. */
  function EndMode(t: Text, i: nat, mode: Mode): Mode
    requires i <= |t|
    decreases |t| - i
  {
    if i == |t| then mode else EndMode(t, i + Next(t, i, mode).width, Next(t, i, mode).mode)
  }

  /** A character that makes a statement: outside comments, neither blank nor the semicolon nor a comment's start. */
  predicate Matters(t: Text, i: nat, mode: Mode)
    requires i < |t|
  {
    mode.Normal? && !Whitespace(t[i]) && t[i] != ';' && (t[i] == '\'' || Next(t, i, mode).mode.Normal?)
  }

  /** Something that matters before the next semicolon. */
  predicate HasContent(t: Text, i: nat, mode: Mode)
    requires i <= |t|
    decreases |t| - i
  {
    if i == |t| || (mode.Normal? && t[i] == ';') then false
    else Matters(t, i, mode) || HasContent(t, i + Next(t, i, mode).width, Next(t, i, mode).mode)
  }

  // ---------------------------------------------------------------- segments

  datatype Segment = Segment(begin: nat, end: nat)

  predicate Unterminated(m: Mode) {
    m.InString? || m.InBlock?
  }

  /** The pieces between semicolons, in order; the last one may be empty. */
  function Pieces(t: Text, start: nat): (r: seq<Segment>)
    requires start <= |t|
    ensures r != [] && r[0].begin == start && r[|r| - 1].end == |t|
    ensures forall k :: 0 <= k < |r| ==> start <= r[k].begin <= r[k].end <= |t|
    ensures forall k :: 0 <= k < |r| - 1 ==> r[k].end == r[k + 1].begin && r[k].begin < r[k].end
    decreases |t| - start
  {
    match Semicolon(t, start, Normal)
    case None => [Segment(start, |t|)]
    case Some(k) =>
      var rest := Pieces(t, k + 1);
      [Segment(start, k + 1)] + rest
  }

  /** A piece becomes a statement if something in it matters, or if the text ends inside a string or block comment. */
  predicate Kept(t: Text, s: Segment)
    requires s.begin <= |t|
  {
    HasContent(t, s.begin, Normal) || (Semicolon(t, s.begin, Normal).None? && Unterminated(EndMode(t, s.begin, Normal)))
  }

  function Split(t: Text, start: nat): seq<Segment>
    requires start <= |t|
    decreases |t| - start
  {
    match Semicolon(t, start, Normal)
    case None => if Kept(t, Segment(start, |t|)) then [Segment(start, |t|)] else []
    case Some(k) => (if Kept(t, Segment(start, k + 1)) then [Segment(start, k + 1)] else []) + Split(t, k + 1)
  }

  /** The statements are the kept pieces, in order: disjoint, and only pieces that do not matter are dropped. */
  lemma {:induction false} SplitIsKeptPieces(t: Text, start: nat, s: Segment)
    requires start <= |t|
    ensures s in Split(t, start) <==> s in Pieces(t, start) && s.begin <= |t| && Kept(t, s)
    decreases |t| - start
  {
    match Semicolon(t, start, Normal)
    case None =>
    case Some(k) =>
      SplitIsKeptPieces(t, k + 1, s);
      assert s in Pieces(t, start) <==> s == Segment(start, k + 1) || s in Pieces(t, k + 1);
  }

  lemma {:induction false} SplitInOrder(t: Text, start: nat)
    requires start <= |t|
    ensures forall k :: 0 <= k < |Split(t, start)| ==>
      start <= Split(t, start)[k].begin <= Split(t, start)[k].end <= |t|
    ensures forall j, k :: 0 <= j < k < |Split(t, start)| ==> Split(t, start)[j].end <= Split(t, start)[k].begin
    decreases |t| - start
  {
    match Semicolon(t, start, Normal)
    case None =>
    case Some(k) => SplitInOrder(t, k + 1);
  }

  // ---------------------------------------------------------------- locations

  datatype Location = Location(line: nat, column: nat)

  function Advance(l: Location, c: char): Location {
    if c == '\n' then Location(l.line + 1, 1) else if c == '\r' then l else Location(l.line, l.column + 1)
  }

  /** The splitter's location before character i. */
  function LocationAt(t: Text, i: nat): Location
    requires i <= |t|
  {
    if i == 0 then Location(1, 1) else Advance(LocationAt(t, i - 1), t[i - 1])
  }

  /** is_valid_endpoint of the core: not between a carriage return and its line feed. */
  predicate ValidEndpoint(t: Text, i: nat) {
    i <= |t| && !(0 < i < |t| && t[i - 1] == '\r' && t[i] == '\n')
  }

  /** location_at_offset of the core, from index i on. */
  function CoreLocation(t: Text, offset: nat, i: nat, l: Location): Location
    requires i <= |t| && offset <= |t|
    decreases |t| - i
  {
    if i >= offset then l
    else if t[i] == '\r' && At(t, i + 1) == '\n' &&
        i + 1 < |t| then CoreLocation(t, offset, i + 2, Location(l.line + 1, 1))
    else if t[i] == '\n' then CoreLocation(t, offset, i + 1, Location(l.line + 1, 1))
    else CoreLocation(t, offset, i + 1, Location(l.line, l.column + 1))
  }

  /** A carriage return without its line feed: the core gives it a column, the splitter does not. */
  predicate LoneReturn(t: Text, i: nat)
    requires i < |t|
  {
    t[i] == '\r' && !(i + 1 < |t| && t[i + 1] == '\n')
  }

  /** The lone carriage returns on the line of position i, before it. */
  function LoneReturns(t: Text, i: nat): nat
    requires i <= |t|
  {
    if i == 0 || t[i - 1] == '\n' then 0 else LoneReturns(t, i - 1) + if LoneReturn(t, i - 1) then 1 else 0
  }

  function Shifted(l: Location, columns: nat): Location {
    Location(l.line, l.column + columns)
  }

  /** The core's location is the splitter's, shifted by the lone carriage returns on the line. */
  lemma {:induction false} LocationsDiffer(t: Text, offset: nat, i: nat)
    requires i <= offset && ValidEndpoint(t, offset) && ValidEndpoint(t, i)
    ensures CoreLocation(t, offset, i, Shifted(LocationAt(t, i), LoneReturns(t, i))) ==
      Shifted(LocationAt(t, offset), LoneReturns(t, offset))
    decreases offset - i
  {
    if i < offset {
      if t[i] == '\r' && !LoneReturn(t, i) {
        assert LocationAt(t, i + 2) == Advance(LocationAt(t, i + 1), t[i + 1]);
        LocationsDiffer(t, offset, i + 2);
      } else {
        LocationsDiffer(t, offset, i + 1);
      }
    }
  }

  /** Where a statement may end, the core accepts the endpoint. */
  lemma {:induction false} SegmentEndpoints(t: Text, start: nat, s: Segment)
    requires start <= |t| && ValidEndpoint(t, start) && s in Split(t, start)
    ensures ValidEndpoint(t, s.begin) && ValidEndpoint(t, s.end)
    decreases |t| - start
  {
    match Semicolon(t, start, Normal)
    case None =>
    case Some(k) =>
      if s != Segment(start, k + 1) {
        SegmentEndpoints(t, k + 1, s);
      }
  }

  /** is_valid_source_range on a statement's range with the splitter's locations. */
  predicate RangeAccepted(t: Text, s: Segment)
    requires s.begin <= |t| && s.end <= |t|
  {
    && s.begin <= s.end && ValidEndpoint(t, s.begin) && ValidEndpoint(t, s.end)
    && CoreLocation(t, s.begin, 0, Location(1, 1)) == LocationAt(t, s.begin)
    && CoreLocation(t, s.end, 0, Location(1, 1)) == LocationAt(t, s.end)
  }

  /** A statement's range passes the core's check exactly when no lone carriage return precedes either end
      on its line. */
  lemma SplitRangesAccepted(t: Text, s: Segment)
    requires s in Split(t, 0)
    ensures s.begin <= s.end <= |t|
    ensures RangeAccepted(t, s) <==> LoneReturns(t, s.begin) == 0 && LoneReturns(t, s.end) == 0
  {
    SplitInOrder(t, 0);
    SegmentEndpoints(t, 0, s);
    LocationsDiffer(t, s.begin, 0);
    LocationsDiffer(t, s.end, 0);
  }

  /** In a text whose carriage returns all have their line feeds, every statement's range is accepted. */
  lemma PairedReturnsAreAccepted(t: Text, s: Segment)
    requires s in Split(t, 0) && forall i :: 0 <= i < |t| ==> !LoneReturn(t, i)
    ensures s.begin <= s.end <= |t| && RangeAccepted(t, s)
  {
    SplitRangesAccepted(t, s);
    NoLoneReturns(t, s.begin);
    NoLoneReturns(t, s.end);
  }

  lemma {:induction false} NoLoneReturns(t: Text, i: nat)
    requires i <= |t| && forall k :: 0 <= k < |t| ==> !LoneReturn(t, k)
    ensures LoneReturns(t, i) == 0
  {
    if i > 0 {
      NoLoneReturns(t, i - 1);
    }
  }

  /** Not every range is accepted: here the core counts a column more than the splitter. */
  lemma LoneReturnIsRefused()
    ensures var t := "a\r;"; Segment(0, 3) in Split(t, 0) && !RangeAccepted(t, Segment(0, 3))
  {
    var t := "a\r;";
    assert Next(t, 0, Normal) == Move(Normal, 1) && Next(t, 1, Normal) == Move(Normal, 1);
    assert Semicolon(t, 2, Normal) == Some(2);
    assert Semicolon(t, 1, Normal) == Some(2);
    assert Semicolon(t, 0, Normal) == Some(2);
    assert Matters(t, 0, Normal);
    assert Split(t, 0)[0] == Segment(0, 3);
    assert LoneReturns(t, 1) == 0;
    assert LoneReturns(t, 2) == 1;
    assert LoneReturns(t, 3) == 1;
    SplitRangesAccepted(t, Segment(0, 3));
  }

  // ---------------------------------------------------------------- the loop

  datatype Statement = Statement(segment: Segment, begin: Location, end: Location)

  /** The statements still to come when the machine stands at i, in a piece that began at `start`. */
  function Rest(t: Text, i: nat, mode: Mode, start: nat, content: bool): seq<Segment>
    requires i <= |t|
  {
    Remaining(t, Semicolon(t, i, mode), start, content || HasContent(t, i, mode), EndMode(t, i, mode))
  }

  /** The same, once it is known where the piece ends and whether anything in it matters. */
  function Remaining(t: Text, cut: Option<nat>, start: nat, content: bool, end: Mode): seq<Segment>
    requires cut.Some? ==> cut.value < |t|
  {
    match cut
    case None => if content || Unterminated(end) then [Segment(start, |t|)] else []
    case Some(k) => (if content then [Segment(start, k + 1)] else []) + Split(t, k + 1)
  }

  /** One step of the machine, for what lies ahead. */
  lemma StepAhead(t: Text, i: nat, mode: Mode)
    requires i < |t| && !(mode.Normal? && t[i] == ';')
    ensures var m := Next(t, i, mode);
            && Semicolon(t, i, mode) == Semicolon(t, i + m.width, m.mode)
            && EndMode(t, i, mode) == EndMode(t, i + m.width, m.mode)
            && HasContent(t, i, mode) == (Matters(t, i, mode) || HasContent(t, i + m.width, m.mode))
  {
  }

  lemma RestStarts(t: Text, start: nat)
    requires start <= |t|
    ensures Rest(t, start, Normal, start, false) == Split(t, start)
  {
  }

  lemma RestMoves(t: Text, i: nat, mode: Mode, start: nat, content: bool)
    requires i < |t| && !(mode.Normal? && t[i] == ';')
    ensures var m := Next(t, i, mode);
            Rest(t, i, mode, start, content) == Rest(t, i + m.width, m.mode, start, content || Matters(t, i, mode))
  {
    StepAhead(t, i, mode);
  }

  lemma RestCuts(t: Text, i: nat, start: nat, content: bool)
    requires i < |t| && t[i] == ';'
    ensures Rest(t, i, Normal, start, content) ==
            (if content then [Segment(start, i + 1)] else []) + Rest(t, i + 1, Normal, i + 1, false)
  {
    RestStarts(t, i + 1);
  }

  /** The location after the one or two characters of a step. */
  lemma MoveLocation(t: Text, i: nat, width: nat)
    requires 1 <= width <= 2 && i + width <= |t|
    ensures LocationAt(t, i + width) ==
            if width == 1 then Advance(LocationAt(t, i), t[i]) else Advance(Advance(LocationAt(t, i), t[i]), t[i + 1])
  {
    assert LocationAt(t, i + 1) == Advance(LocationAt(t, i), t[i]);
  }

  const MAX_SQL_BYTES: nat := 1024 * 1024

  /** The variables of the loop. */
  datatype Machine = Machine(mode: Mode, index: nat, start: nat, content: bool, here: Location, startLocation: Location,
                             statements: seq<Statement>)

  /** The statements so far are a prefix of all of them, and the rest is what lies ahead. */
  ghost predicate Tracks(t: Text, m: Machine, all: seq<Segment>) {
    && m.start <= m.index <= |t| && m.here == LocationAt(t, m.index) && m.startLocation == LocationAt(t, m.start)
    && |m.statements| <= |all| && Located(t, all[..|m.statements|], m.statements)
    && all[|m.statements|..] == Rest(t, m.index, m.mode, m.start, m.content)
  }

  lemma AppendLocated(t: Text, all: seq<Segment>, statements: seq<Statement>, begin: Location, end: Location)
    requires |statements| < |all| && Located(t, all[..|statements|], statements)
    requires var s := all[|statements|];
             && s.begin <= |t| && s.end <= |t|
             && begin == LocationAt(t, s.begin) && end == LocationAt(t, s.end)
    ensures Located(t, all[..|statements| + 1], statements + [Statement(all[|statements|], begin, end)])
  {
  }

  /** At a semicolon outside strings and comments the piece ends. */
  method Cut(t: Text, m: Machine, ghost all: seq<Segment>) returns (m': Machine)
    requires Tracks(t, m, all) && m.index < |t| && m.mode.Normal? && t[m.index] == ';'
    ensures Tracks(t, m', all) && m'.index > m.index
  {
    RestCuts(t, m.index, m.start, m.content);
    MoveLocation(t, m.index, 1);
    var here, index := Advance(m.here, ';'), m.index + 1;
    var statements := m.statements;
    if m.content {
      ghost var n := |statements|;
      assert all[n] == all[n..][0] == Segment(m.start, index) && all[n + 1..] == all[n..][1..];
      AppendLocated(t, all, statements, m.startLocation, here);
      statements := statements + [Statement(Segment(m.start, index), m.startLocation, here)];
    }
    m' := Machine(Normal, index, index, false, here, here, statements);
  }

  /** Everywhere else the machine takes its one or two characters. */
  method Step(t: Text, m: Machine, ghost all: seq<Segment>) returns (m': Machine)
    requires Tracks(t, m, all) && m.index < |t| && !(m.mode.Normal? && t[m.index] == ';')
    ensures Tracks(t, m', all) && m'.index > m.index
  {
    RestMoves(t, m.index, m.mode, m.start, m.content);
    var move := Next(t, m.index, m.mode);
    MoveLocation(t, m.index, move.width);
    var here := Advance(m.here, t[m.index]);
    if move.width == 2 {
      here := Advance(here, t[m.index + 1]);
    }
    m' := m.(mode := move.mode, index := m.index + move.width, content := m.content || Matters(t, m.index, m.mode),
        here := here);
  }

  /** At the end of the text the last piece is a statement if it matters or is unterminated. */
  method Finish(t: Text, m: Machine, ghost all: seq<Segment>) returns (statements: seq<Statement>)
    requires Tracks(t, m, all) && m.index == |t|
    ensures Located(t, all, statements)
  {
    statements := m.statements;
    ghost var n := |statements|;
    assert all == all[..n] + all[n..];
    if m.content || Unterminated(m.mode) {
      assert all[n] == all[n..][0] && all[..n + 1] == all;
      AppendLocated(t, all, statements, m.startLocation, m.here);
      statements := statements + [Statement(Segment(m.start, |t|), m.startLocation, m.here)];
    }
  }

  /** split_statements: one pass over the characters. */
  method SplitStatements(t: Text) returns (r: Option<seq<Statement>>)
    ensures r.None? <==> |t| > MAX_SQL_BYTES
    ensures r.Some? ==> Located(t, Split(t, 0), r.value)
  {
    if |t| > MAX_SQL_BYTES {
      return None;
    }
    RestStarts(t, 0);
    ghost var all := Split(t, 0);
    var m := Machine(Normal, 0, 0, false, Location(1, 1), Location(1, 1), []);
    while m.index < |t|
      invariant Tracks(t, m, all)
      decreases |t| - m.index
    {
      if m.mode.Normal? && t[m.index] == ';' {
        m := Cut(t, m, all);
      } else {
        m := Step(t, m, all);
      }
    }
    var statements := Finish(t, m, all);
    r := Some(statements);
  }

  /** The statements are the segments with the locations of their ends. */
  ghost predicate Located(t: Text, segments: seq<Segment>, statements: seq<Statement>) {
    && |statements| == |segments|
    && (forall k :: 0 <= k < |segments| ==>
          var s := segments[k];
          s.begin <= |t| && s.end <= |t| && statements[k] == Statement(s, LocationAt(t, s.begin), LocationAt(t, s.end)))
  }
}
