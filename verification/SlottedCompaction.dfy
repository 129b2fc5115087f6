/** Replacement and erasure rebuild the page from its cells (src/storage/slotted_page.cpp). */
module SlottedCompaction {
  import opened Common
  import opened Tiling
  import opened PageLayout
  import opened PageCells
  import opened SlottedPages
  import opened SlottedUpdates

  // ---------------------------------------------------------------- the compacted layout

  /** The entry of cell i: live payloads are stacked downwards from the page end, in slot order. */
  function Entry(cells: seq<Cell>, i: nat): SlotEntry
    requires CellsOk(cells) && i < |cells|
  {
    match cells[i]
    case Live(g, payload) =>
      EntryFits(cells, i);
      SlotEntry(PAGE_SIZE - Used(cells[..i + 1]), |payload|, g, OCCUPIED)
    case Deleted(g) => SlotEntry(0, 0, g, 0)
    case Retired => SlotEntry(0, 0, MAX_GENERATION, RETIRED)
  }

  lemma EntryFits(cells: seq<Cell>, i: nat)
    requires CellsOk(cells) && i < |cells|
    ensures Used(cells[..i + 1]) <= Used(cells) <= PAGE_SIZE - HEADER_SIZE - SLOT_SIZE * |cells|
    ensures Used(cells[..i + 1]) == Used(cells[..i]) + if cells[i].Live? then |cells[i].payload| else 0
  {
    UsedPrefix(cells, i + 1);
    assert cells[..i + 1] == cells[..i] + [cells[i]];
    UsedAppend(cells[..i], cells[i]);
  }

  function Entries(cells: seq<Cell>, n: nat): (r: seq<SlotEntry>)
    requires CellsOk(cells) && n <= |cells|
    ensures |r| == n && forall i :: 0 <= i < n ==> r[i] == Entry(cells, i)
  {
    seq(n, i requires 0 <= i < n => Entry(cells, i))
  }

  lemma {:induction false} EntriesOwn(cells: seq<Cell>, n: nat, x: int)
    requires CellsOk(cells) && n <= |cells|
    ensures Owners(LiveRanges(Entries(cells, n)), x) == if PAGE_SIZE - Used(cells[..n]) <= x < PAGE_SIZE then 1 else 0
    ensures |LiveRanges(Entries(cells, n))| == Lives(cells[..n])
    decreases n
  {
    if n > 0 {
      EntriesOwn(cells, n - 1, x);
      EntryFits(cells, n - 1);
      var e := Entry(cells, n - 1);
      assert Entries(cells, n) == Entries(cells, n - 1) + [e];
      assert cells[..n] == cells[..n - 1] + [cells[n - 1]];
      UsedAppend(cells[..n - 1], cells[n - 1]);
      if cells[n - 1].Live? {
        RangesAppend(Entries(cells, n - 1), e, x);
      } else {
        RangesSkip(Entries(cells, n - 1), e);
      }
    }
  }

  /** The compacted payloads tile the page from the new free_upper to the end. */
  lemma EntriesTile(cells: seq<Cell>)
    requires CellsOk(cells)
    ensures Tiles(LiveRanges(Entries(cells, |cells|)), PAGE_SIZE - Used(cells), PAGE_SIZE)
    ensures |LiveRanges(Entries(cells, |cells|))| == Lives(cells)
  {
    assert cells[..|cells|] == cells;
    EntriesOwn(cells, |cells|, 0);
    forall x | PAGE_SIZE - Used(cells) <= x < PAGE_SIZE ensures Owners(LiveRanges(Entries(cells, |cells|)), x) == 1 {
      EntriesOwn(cells, |cells|, x);
    }
  }

  lemma EntryOk(cells: seq<Cell>, i: nat)
    requires CellsOk(cells) && i < |cells|
    ensures SlotOk(Entry(cells, i), PAGE_SIZE - Used(cells))
  {
    EntryFits(cells, i);
    assert CellOk(cells[i]);
  }

  // ---------------------------------------------------------------- the compaction loop

  /** Cell i has been written: its entry and, if live, its payload. */
  ghost predicate Laid(p: Page, cells: seq<Cell>, i: nat)
    requires CellsOk(cells) && i < |cells|
  {
    var e := Entry(cells, i);
    ReadSlot(p, i) == e && (cells[i].Live? ==> e.offset + e.length <= PAGE_SIZE && Payload(p, e) == cells[i].payload)
  }

  ghost predicate LaidUpTo(p: Page, cells: seq<Cell>, n: nat)
    requires CellsOk(cells) && n <= |cells|
  {
    forall i :: 0 <= i < n ==> Laid(p, cells, i)
  }

  /** Earlier cells survive the writes for cell n: those go below their payloads and beside their entries. */
  lemma LaidSurvives(p: Page, q: Page, cells: seq<Cell>, n: nat, i: nat)
    requires CellsOk(cells) && n < |cells| && i < n && Laid(p, cells, i) && Used(cells[..n]) <= PAGE_SIZE
    requires SameBytes(p, q, SlotByte(i), SlotByte(i) + SLOT_SIZE) &&
      SameBytes(p, q, PAGE_SIZE - Used(cells[..n]), PAGE_SIZE)
    ensures Laid(q, cells, i)
  {
    ReadSlotSame(p, q, i);
    if cells[i].Live? {
      EntryFits(cells, i);
      PrefixOrder(cells, i + 1, n);
      var e := Entry(cells, i);
      assert Payload(p, e) == Payload(q, e);
    }
  }

  lemma PrefixOrder(cells: seq<Cell>, i: nat, n: nat)
    requires i <= n <= |cells|
    ensures Used(cells[..i]) <= Used(cells[..n])
  {
    UsedPrefix(cells[..n], i);
    assert cells[..n][..i] == cells[..i];
  }

  lemma PrefixRoom(cells: seq<Cell>, n: nat)
    requires CellsOk(cells) && n <= |cells|
    ensures HEADER_SIZE + SLOT_SIZE * |cells| + Used(cells[..n]) <= PAGE_SIZE
  {
    UsedPrefix(cells, n);
  }

  /** The page with the bytes of cell n written. */
  function LayCell(p: Page, cells: seq<Cell>, n: nat): Page
    requires CellsOk(cells) && n < |cells|
  {
    var e := Entry(cells, n);
    EntryFits(cells, n);
    WriteSlot(if cells[n].Live? then Splice(p, e.offset, cells[n].payload) else p, n, e)
  }

  lemma LayCellFrame(p: Page, cells: seq<Cell>, n: nat, k: nat)
    requires CellsOk(cells) && n < |cells| && k < PAGE_SIZE
    ensures k >= PAGE_SIZE - Used(cells[..n]) ==> LayCell(p, cells, n)[k] == p[k]
    ensures k < SlotByte(n) ==> LayCell(p, cells, n)[k] == p[k]
  {
    EntryFits(cells, n);
    PrefixRoom(cells, n);
  }

  lemma SplicedPayload(p: Page, n: nat, e: SlotEntry, payload: seq<byte>)
    requires n < MAX_SLOTS && SlotByte(n) + SLOT_SIZE <= e.offset && e.offset + |payload| <= PAGE_SIZE &&
      e.length == |payload|
    ensures Payload(WriteSlot(Splice(p, e.offset, payload), n, e), e) == payload
  {
  }

  lemma LayCellLays(p: Page, cells: seq<Cell>, n: nat)
    requires CellsOk(cells) && n < |cells|
    ensures Laid(LayCell(p, cells, n), cells, n)
  {
    EntryFits(cells, n);
    PrefixRoom(cells, n + 1);
    var q, e := LayCell(p, cells, n), Entry(cells, n);
    if cells[n].Live? {
      SplicedPayload(p, n, e, cells[n].payload);
    }
  }

  lemma LayCellStep(p: Page, cells: seq<Cell>, n: nat)
    requires CellsOk(cells) && n < |cells| && LaidUpTo(p, cells, n)
    ensures LaidUpTo(LayCell(p, cells, n), cells, n + 1)
    ensures SameBytes(p, LayCell(p, cells, n), 0, HEADER_SIZE)
  {
    var q := LayCell(p, cells, n);
    forall k | 0 <= k < PAGE_SIZE
      ensures (k >= PAGE_SIZE - Used(cells[..n]) || k < SlotByte(n)) ==> q[k] == p[k]
    {
      LayCellFrame(p, cells, n, k);
    }
    PrefixRoom(cells, n);
    forall i | 0 <= i < n ensures Laid(q, cells, i) {
      assert Laid(p, cells, i);
      LaidSurvives(p, q, cells, n, i);
    }
    LayCellLays(p, cells, n);
  }

  function CompactCounters(cells: seq<Cell>): Counters
    requires CellsOk(cells)
  {
    Counters(|cells|, Lives(cells), HEADER_SIZE + |cells| * SLOT_SIZE, PAGE_SIZE - Used(cells))
  }

  lemma {:induction false} NoLivesNoBytes(cells: seq<Cell>)
    requires Lives(cells) == 0
    ensures Used(cells) == 0
  {
    if cells != [] {
      NoLivesNoBytes(cells[..|cells| - 1]);
    }
  }

  lemma CompactBody(p: Page, cells: seq<Cell>)
    requires CellsOk(cells) && LaidUpTo(p, cells, |cells|) && ReadCounters(p) == CompactCounters(cells)
    ensures BodyOk(p)
  {
    forall i | 0 <= i < |cells|
      ensures ReadSlot(p, i) == Entry(cells, i) && SlotOk(Entry(cells, i), PAGE_SIZE - Used(cells)) {
      assert Laid(p, cells, i);
      EntryOk(cells, i);
    }
    assert SlotsOf(p) == Entries(cells, |cells|);
    EntriesTile(cells);
    if Lives(cells) == 0 {
      NoLivesNoBytes(cells);
    }
  }

  lemma CompactCells(p: Page, cells: seq<Cell>)
    requires CellsOk(cells) && LaidUpTo(p, cells, |cells|) && ReadCounters(p) == CompactCounters(cells)
    ensures Cells(p) == cells
  {
    forall i | 0 <= i < |cells| ensures Cells(p)[i] == cells[i] {
      assert Laid(p, cells, i);
    }
  }

  lemma PayloadSame(p: Page, q: Page, s: SlotEntry)
    requires s.offset + s.length <= PAGE_SIZE && SameBytes(p, q, s.offset, s.offset + s.length)
    ensures Payload(p, s) == Payload(q, s)
  {
  }

  lemma LaidSame(p: Page, q: Page, cells: seq<Cell>, i: nat)
    requires CellsOk(cells) && i < |cells| && Laid(p, cells, i) && SameBytes(p, q, HEADER_SIZE, PAGE_SIZE)
    ensures Laid(q, cells, i)
  {
    ReadSlotSame(p, q, i);
    if cells[i].Live? {
      EntryFits(cells, i);
      PayloadSame(p, q, Entry(cells, i));
    }
  }

  /** The writes for one cell: payload below the cursor, then the slot entry. */
  method LayOne(p: Page, cells: seq<Cell>, i: nat, cursor: nat) returns (q: Page, next: nat)
    requires CellsOk(cells) && i < |cells| && cursor == PAGE_SIZE - Used(cells[..i])
    ensures q == LayCell(p, cells, i) && next == PAGE_SIZE - Used(cells[..i + 1])
  {
    EntryFits(cells, i);
    match cells[i]
    case Live(g, payload) =>
      next := cursor - |payload|;
      q := WriteSlot(Splice(p, next, payload), i, SlotEntry(next, |payload|, g, OCCUPIED));
    case Deleted(g) =>
      next := cursor;
      q := WriteSlot(p, i, SlotEntry(0, 0, g, 0));
    case Retired =>
      next := cursor;
      q := WriteSlot(p, i, SlotEntry(0, 0, MAX_GENERATION, RETIRED));
  }

  /** The compaction loop of replace and erase: the cells' bytes are copied into a fresh page. */
  method Rebuild(id: PageId, cells: seq<Cell>) returns (p: Page)
    requires id != 0 && CellsOk(cells)
    ensures Stores(p, id, cells)
  {
    p := Stamp(id);
    var i := 0;
    var cursor := PAGE_SIZE;
    while i < |cells|
      invariant 0 <= i <= |cells|
      invariant cursor == PAGE_SIZE - Used(cells[..i])
      invariant Identity(p, id) && LaidUpTo(p, cells, i)
    {
      LayCellStep(p, cells, i);
      HeaderSame(p, LayCell(p, cells, i), id);
      p, cursor := LayOne(p, cells, i, cursor);
      i := i + 1;
    }
    assert cells[..i] == cells;
    p := FinishRebuild(p, id, cells);
  }

  function FinishRebuild(p: Page, id: PageId, cells: seq<Cell>): (q: Page)
    requires id != 0 && CellsOk(cells) && Identity(p, id) && LaidUpTo(p, cells, |cells|)
    ensures Stores(q, id, cells)
  {
    var q := PutCounters(p, CompactCounters(cells));
    CountersKeepIdentity(p, CompactCounters(cells), id);
    assert LaidUpTo(q, cells, |cells|) by {
      forall i | 0 <= i < |cells| ensures Laid(q, cells, i) {
        assert Laid(p, cells, i);
        LaidSame(p, q, cells, i);
      }
    }
    CompactBody(q, cells);
    CompactCells(q, cells);
    q
  }

  // ---------------------------------------------------------------- replace and erase

  /** The cells of the page, read slot by slot. */
  method ReadCells(p: Page, id: PageId) returns (cells: seq<Cell>)
    requires WellFormed(p, id)
    ensures cells == Cells(p)
  {
    cells := [];
    for i := 0 to ReadCounters(p).slots
      invariant |cells| == i && forall k :: 0 <= k < i ==> cells[k] == CellOf(p, ReadSlot(p, k))
    {
      var cell := CellOf(p, ReadSlot(p, i));
      cells := cells + [cell];
    }
  }

  ghost predicate ReplaceSpec(p: Page, id: PageId, h: Handle, payload: seq<byte>, p': Page, r: Option<Fault>) {
    if payload == [] || |payload| > MAX_PAYLOAD then r == Some(InvalidArgument) && p' == p
    else if !WellFormed(p, id) then r == Some(if id == 0 then InvalidArgument else Corrupt) && p' == p
    else if !IsLive(Cells(p), h) then r == Some(InvalidArgument) && p' == p
    else if !FitsReplaced(Cells(p), h, payload) then r == Some(NoSpace) && p' == p
    else r.None? && Stores(p', id, ReplaceCell(Cells(p), h, payload))
  }

  /** SlottedPage::replace. */
  method ReplaceRecord(p: Page, id: PageId, h: Handle, payload: seq<byte>) returns (p': Page, r: Option<Fault>)
    ensures ReplaceSpec(p, id, h, payload, p', r)
  {
    p' := p;
    if payload == [] || |payload| > MAX_PAYLOAD {
      return p, Some(InvalidArgument);
    }
    var fault := Validate(p, id);
    if fault.Some? {
      return p, fault;
    }
    PageSums(p, id);
    var cells := ReadCells(p, id);
    if h.slot >= |cells| || h.generation == 0 || !cells[h.slot].Live? || cells[h.slot].generation != h.generation {
      assert h.slot < |cells| ==> CellOk(Cells(p)[h.slot]);
      return p, Some(InvalidArgument);
    }
    var cells' := ReplaceCell(cells, h, payload);
    if Used(cells') > PAGE_SIZE - (HEADER_SIZE + SLOT_SIZE * |cells|) {
      return p, Some(NoSpace);
    }
    ReplaceOk(cells, h, payload);
    var updated := Rebuild(id, cells');
    var again := Validate(updated, id);
    match again
    case Some(f) =>
      r := Some(f);
    case None =>
      p', r := updated, None;
  }

  ghost predicate EraseSpec(p: Page, id: PageId, h: Handle, p': Page, r: Option<Fault>) {
    if !WellFormed(p, id) then r == Some(if id == 0 then InvalidArgument else Corrupt) && p' == p
    else if !IsLive(Cells(p), h) then r == Some(InvalidArgument) && p' == p
    else r.None? && Stores(p', id, EraseCell(Cells(p), h))
  }

  /** SlottedPage::erase. */
  method EraseRecord(p: Page, id: PageId, h: Handle) returns (p': Page, r: Option<Fault>)
    ensures EraseSpec(p, id, h, p', r)
  {
    p' := p;
    var fault := Validate(p, id);
    if fault.Some? {
      return p, fault;
    }
    PageSums(p, id);
    var cells := ReadCells(p, id);
    if h.slot >= |cells| || h.generation == 0 || !cells[h.slot].Live? || cells[h.slot].generation != h.generation {
      assert h.slot < |cells| ==> CellOk(Cells(p)[h.slot]);
      return p, Some(InvalidArgument);
    }
    EraseOk(cells, h);
    var updated := Rebuild(id, EraseCell(cells, h));
    var again := Validate(updated, id);
    match again
    case Some(f) =>
      r := Some(f);
    case None =>
      p', r := updated, None;
  }
}
