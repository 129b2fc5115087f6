/** Slotted pages at the byte level: validation, and the operations on page bytes (src/storage/slotted_page.cpp). */
module SlottedPages {
  import opened Common
  import opened Tiling
  import opened PageLayout
  import opened PageCells

  datatype Fault = InvalidArgument | NoSpace | Corrupt

  // ---------------------------------------------------------------- well-formed pages

  predicate CountersOk(c: Counters) {
    && c.slots <= MAX_SLOTS && c.live <= c.slots
    && c.lower == HEADER_SIZE + c.slots * SLOT_SIZE
    && c.lower <= c.upper <= PAGE_SIZE
    && (c.live == 0 ==> c.upper == PAGE_SIZE)
  }

  predicate SlotOk(s: SlotEntry, upper: nat) {
    if s.flags == OCCUPIED then
      s.generation != 0 && s.length != 0 && upper <= s.offset && s.offset + s.length <= PAGE_SIZE
    else if s.flags == RETIRED then s.generation == MAX_GENERATION && s.offset == 0 && s.length == 0
    else s.flags == 0 && s.generation != 0 && s.generation != MAX_GENERATION && s.offset == 0 && s.length == 0
  }

  function SlotsOf(p: Page): (r: seq<SlotEntry>)
    requires ReadCounters(p).slots <= MAX_SLOTS
    ensures |r| == ReadCounters(p).slots && forall i :: 0 <= i < |r| ==> r[i] == ReadSlot(p, i)
  {
    seq(ReadCounters(p).slots, i requires 0 <= i < ReadCounters(p).slots => ReadSlot(p, i))
  }

  function RangeOf(s: SlotEntry): Range {
    Range(s.offset, s.offset + s.length)
  }

  function LiveRanges(slots: seq<SlotEntry>): seq<Range> {
    if slots == [] then []
    else
      LiveRanges(slots[..|slots| - 1]) +
      if slots[|slots| - 1].flags == OCCUPIED then [RangeOf(slots[|slots| - 1])] else []
  }

  /** Counters and slots are well formed, and every byte from free_upper to the page end belongs to exactly
      one live slot. */
  ghost predicate BodyOk(p: Page) {
    && CountersOk(ReadCounters(p)) && SlotsOk(p)
    && |LiveRanges(SlotsOf(p))| == ReadCounters(p).live
    && Tiles(LiveRanges(SlotsOf(p)), ReadCounters(p).upper, PAGE_SIZE)
  }

  ghost predicate WellFormed(p: Page, id: PageId) {
    id != 0 && Identity(p, id) && BodyOk(p)
  }

  lemma {:induction false} LiveAtMost(slots: seq<SlotEntry>)
    ensures |LiveRanges(slots)| <= |slots|
  {
    if slots != [] {
      LiveAtMost(slots[..|slots| - 1]);
    }
  }

  lemma {:induction false} LiveWithin(slots: seq<SlotEntry>, upper: nat)
    requires forall i :: 0 <= i < |slots| ==> SlotOk(slots[i], upper)
    ensures Within(LiveRanges(slots), upper, PAGE_SIZE)
  {
    if slots != [] {
      LiveWithin(slots[..|slots| - 1], upper);
    }
  }

  /** The checks on one slot entry. */
  method CheckSlot(s: SlotEntry, c: Counters) returns (ok: bool)
    requires CountersOk(c)
    ensures ok == SlotOk(s, c.upper)
  {
    if s.flags > OCCUPIED + RETIRED || s.flags == OCCUPIED + RETIRED {
      return false;
    }
    if s.flags == OCCUPIED {
      return !(s.generation == 0 || s.offset == 0 || s.length == 0 || s.offset < c.upper || s.offset < c.lower ||
               s.offset + s.length > PAGE_SIZE);
    } else if s.flags == RETIRED {
      return !(s.generation != MAX_GENERATION || s.offset != 0 || s.length != 0);
    } else {
      return !(s.generation == 0 || s.generation == MAX_GENERATION || s.offset != 0 || s.length != 0);
    }
  }

  /** The slot loop of validate: entries checked, live ranges collected. */
  method CollectRanges(p: Page) returns (ok: bool, ranges: seq<Range>)
    requires CountersOk(ReadCounters(p))
    ensures ok <==> SlotsOk(p)
    ensures ok ==> ranges == LiveRanges(SlotsOf(p))
  {
    var c := ReadCounters(p);
    ghost var slots := SlotsOf(p);
    ranges := [];
    for i := 0 to c.slots
      invariant forall j :: 0 <= j < i ==> SlotOk(ReadSlot(p, j), c.upper)
      invariant ranges == LiveRanges(slots[..i])
    {
      var s := ReadSlot(p, i);
      assert slots[..i + 1][..i] == slots[..i];
      ok := CheckSlot(s, c);
      if !ok {
        return false, [];
      }
      if s.flags == OCCUPIED {
        ranges := ranges + [RangeOf(s)];
      }
    }
    assert slots[..c.slots] == slots;
    ok := true;
  }

  method ReservedIsZero(p: Page) returns (ok: bool)
    ensures ok <==> forall k :: RESERVED_AT <= k < HEADER_SIZE ==> p[k] == 0
  {
    for k := RESERVED_AT to HEADER_SIZE
      invariant forall j :: RESERVED_AT <= j < k ==> p[j] == 0
    {
      if p[k] != 0 {
        return false;
      }
    }
    return true;
  }

  /** SlottedPage::validate accepts exactly the well-formed pages. */
  method Validate(p: Page, id: PageId) returns (r: Option<Fault>)
    ensures r.None? <==> WellFormed(p, id)
    ensures r.Some? ==> r.value == if id == 0 then InvalidArgument else Corrupt
  {
    if id == 0 {
      return Some(InvalidArgument);
    }
    var reserved := ReservedIsZero(p);
    if p[0] != 'T' as byte || p[1] != 'S' as byte || p[2] != 'P' as byte || p[3] != '1' as byte ||
       GetU16(p, VERSION_AT) != 1 || GetU16(p, HEADER_SIZE_AT) != HEADER_SIZE || GetU32(p, PAGE_ID_AT) != id ||
           !reserved {
      return Some(Corrupt);
    }
    var c := ReadCounters(p);
    if !CountersOk(c) {
      return Some(Corrupt);
    }
    var ok, ranges := CollectRanges(p);
    if !ok || |ranges| != c.live {
      return Some(Corrupt);
    }
    LiveWithin(SlotsOf(p), c.upper);
    SweepDecidesTiling(ranges, c.upper, PAGE_SIZE);
    var compact := SweepRanges(Sort(ranges), c.upper, PAGE_SIZE);
    r := if compact then None else Some(Corrupt);
  }

  // ---------------------------------------------------------------- one owner per byte

  predicate OwnedBy(slots: seq<SlotEntry>, i: nat, x: int) {
    i < |slots| && slots[i].flags == OCCUPIED && Owns(RangeOf(slots[i]), x)
  }

  lemma RangesStep(slots: seq<SlotEntry>, x: int)
    requires slots != []
    ensures Owners(LiveRanges(slots), x) ==
            Owners(LiveRanges(slots[..|slots| - 1]), x) + if OwnedBy(slots, |slots| - 1, x) then 1 else 0
  {
    var n := |slots| - 1;
    if slots[n].flags == OCCUPIED {
      OwnersAppend(LiveRanges(slots[..n]), RangeOf(slots[n]), x);
    } else {
      assert LiveRanges(slots) == LiveRanges(slots[..n]);
    }
  }

  lemma {:induction false} UnownedByte(slots: seq<SlotEntry>, x: int)
    requires Owners(LiveRanges(slots), x) == 0
    ensures forall i :: 0 <= i < |slots| ==> !OwnedBy(slots, i, x)
  {
    if slots != [] {
      RangesStep(slots, x);
      UnownedByte(slots[..|slots| - 1], x);
      assert forall i :: 0 <= i < |slots| - 1 ==> OwnedBy(slots, i, x) == OwnedBy(slots[..|slots| - 1], i, x);
    }
  }

  /** An owner count of one means: one live slot holds the byte, and no other does. */
  lemma {:induction false} OwnedByte(slots: seq<SlotEntry>, x: int) returns (owner: nat)
    requires Owners(LiveRanges(slots), x) == 1
    ensures OwnedBy(slots, owner, x) && forall i :: 0 <= i < |slots| && OwnedBy(slots, i, x) ==> i == owner
  {
    var n := |slots| - 1;
    RangesStep(slots, x);
    assert forall i :: 0 <= i < n ==> OwnedBy(slots, i, x) == OwnedBy(slots[..n], i, x);
    if OwnedBy(slots, n, x) {
      UnownedByte(slots[..n], x);
      owner := n;
    } else {
      owner := OwnedByte(slots[..n], x);
    }
  }

  // ---------------------------------------------------------------- the cells of a page

  function Payload(p: Page, s: SlotEntry): seq<byte>
    requires s.offset + s.length <= PAGE_SIZE
  {
    p[s.offset..s.offset + s.length]
  }

  function CellOf(p: Page, s: SlotEntry): Cell {
    if s.flags == OCCUPIED then Live(s.generation, if s.offset + s.length <= PAGE_SIZE then Payload(p, s) else [])
    else if s.flags == RETIRED then Retired
    else Deleted(s.generation)
  }

  /** What the page stores, without where it stores it. */
  function Cells(p: Page): (r: seq<Cell>)
    requires ReadCounters(p).slots <= MAX_SLOTS
    ensures |r| == ReadCounters(p).slots && forall i :: 0 <= i < |r| ==> r[i] == CellOf(p, ReadSlot(p, i))
  {
    seq(ReadCounters(p).slots, i requires 0 <= i < ReadCounters(p).slots => CellOf(p, ReadSlot(p, i)))
  }

  lemma {:induction false} RangesAndCells(p: Page, slots: seq<SlotEntry>, cells: seq<Cell>, upper: nat)
    requires |slots| == |cells| &&
      forall i :: 0 <= i < |slots| ==> SlotOk(slots[i], upper) && cells[i] == CellOf(p, slots[i])
    ensures Used(cells) == TotalLength(LiveRanges(slots)) && Lives(cells) == |LiveRanges(slots)|
  {
    if slots != [] {
      var n := |slots| - 1;
      RangesAndCells(p, slots[..n], cells[..n], upper);
      if slots[n].flags == OCCUPIED {
        TotalAppend(LiveRanges(slots[..n]), RangeOf(slots[n]));
        assert |cells[n].payload| == slots[n].length;
      } else {
        assert LiveRanges(slots) == LiveRanges(slots[..n]);
      }
    }
  }

  ghost predicate SlotsOk(p: Page)
    requires ReadCounters(p).slots <= MAX_SLOTS
  {
    forall i :: 0 <= i < ReadCounters(p).slots ==> SlotOk(ReadSlot(p, i), ReadCounters(p).upper)
  }

  lemma CellsAreOk(p: Page)
    requires ReadCounters(p).slots <= MAX_SLOTS && SlotsOk(p)
    ensures forall i :: 0 <= i < |Cells(p)| ==> CellOk(Cells(p)[i])
  {
    forall i | 0 <= i < |Cells(p)| ensures CellOk(Cells(p)[i]) {
      assert SlotOk(ReadSlot(p, i), ReadCounters(p).upper);
    }
  }

  lemma TiledSums(p: Page)
    requires CountersOk(ReadCounters(p)) && SlotsOk(p) &&
      Tiles(LiveRanges(SlotsOf(p)), ReadCounters(p).upper, PAGE_SIZE)
    ensures ReadCounters(p).upper == PAGE_SIZE - Used(Cells(p)) && |LiveRanges(SlotsOf(p))| == Lives(Cells(p))
  {
    var upper, slots := ReadCounters(p).upper, SlotsOf(p);
    RangesAndCells(p, slots, Cells(p), upper);
    LiveWithin(slots, upper);
    TilingTotal(LiveRanges(slots), upper, PAGE_SIZE);
  }

  /** Free space is determined by the cells: the payloads fill the page from free_upper to the end. */
  lemma PageSums(p: Page, id: PageId)
    requires WellFormed(p, id)
    ensures ReadCounters(p).upper == PAGE_SIZE - Used(Cells(p)) && ReadCounters(p).live == Lives(Cells(p))
    ensures CellsOk(Cells(p))
  {
    TiledSums(p);
    CellsAreOk(p);
  }

  /** The page is well formed and stores the cells. */
  ghost predicate Stores(p: Page, id: PageId, cells: seq<Cell>) {
    WellFormed(p, id) && Cells(p) == cells
  }

  // ---------------------------------------------------------------- initialize

  method Initialize(p: Page, id: PageId) returns (p': Page, r: Option<Fault>)
    ensures id == 0 ==> r == Some(InvalidArgument) && p' == p
    ensures id != 0 ==> r.None? && Stores(p', id, [])
  {
    if id == 0 {
      return p, Some(InvalidArgument);
    }
    var c := Counters(0, 0, HEADER_SIZE, PAGE_SIZE);
    CountersKeepIdentity(Stamp(id), c, id);
    p' := PutCounters(Stamp(id), c);
    assert SlotsOf(p') == [];
    r := None;
  }

  // ---------------------------------------------------------------- reading

  /** SlottedPage::get returns the payload stored under the handle, and refuses every other handle. */
  method Get(p: Page, id: PageId, h: Handle) returns (r: Result<seq<byte>, Fault>)
    ensures r.Ok? <==> WellFormed(p, id) && h in Contents(Cells(p))
    ensures r.Ok? ==> r.value == Contents(Cells(p))[h]
    ensures r.Err? ==> r.error == if id != 0 && !WellFormed(p, id) then Corrupt else InvalidArgument
  {
    var fault := Validate(p, id);
    if fault.Some? {
      return Err(fault.value);
    }
    if h.slot >= ReadCounters(p).slots {
      return Err(InvalidArgument);
    }
    var s := ReadSlot(p, h.slot);
    assert SlotOk(s, ReadCounters(p).upper);
    assert Cells(p)[h.slot] == CellOf(p, s);
    if h.generation == 0 || s.flags != OCCUPIED || s.generation != h.generation {
      return Err(InvalidArgument);
    }
    assert IsLive(Cells(p), h);
    r := Ok(Payload(p, s));
  }

  /** The first live position at or after start. */
  function NextLive(cells: seq<Cell>, start: nat): (r: Option<nat>)
    requires start <= |cells|
    ensures r.Some? ==>
      start <= r.value < |cells| && cells[r.value].Live? &&
      forall i :: start <= i < r.value ==> !cells[i].Live?
    ensures r.None? ==> forall i :: start <= i < |cells| ==> !cells[i].Live?
    decreases |cells| - start
  {
    if start == |cells| then None else if cells[start].Live? then Some(start) else NextLive(cells, start + 1)
  }

  /** SlottedPage::next_live_slot. */
  method NextLiveSlot(p: Page, id: PageId, start: nat) returns (r: Result<Option<Handle>, Fault>, next: nat)
    ensures r.Err? <==> !WellFormed(p, id) || start > |Cells(p)|
    ensures r.Err? ==> next == start
    ensures r.Ok? && NextLive(Cells(p), start).None? ==> r.value.None? && next == |Cells(p)|
    ensures r.Ok? && NextLive(Cells(p), start).Some? ==>
      var i := NextLive(Cells(p), start).value;
      r.value == Some(Handle(i, Cells(p)[i].generation)) && next == i + 1
  {
    var fault := Validate(p, id);
    if fault.Some? {
      return Err(fault.value), start;
    }
    var count := ReadCounters(p).slots;
    if start > count {
      return Err(InvalidArgument), start;
    }
    var found := FindLive(p, start);
    match found
    case Some(i) =>
      CellIsLive(p, i);
      return Ok(Some(Handle(i, ReadSlot(p, i).generation))), i + 1;
    case None =>
      return Ok(None), count;
  }

  method FindLive(p: Page, start: nat) returns (found: Option<nat>)
    requires start <= ReadCounters(p).slots <= MAX_SLOTS
    ensures found == NextLive(Cells(p), start)
  {
    var count := ReadCounters(p).slots;
    ghost var cells := Cells(p);
    var i := start;
    while i < count
      invariant start <= i <= count == |cells|
      invariant NextLive(cells, start) == NextLive(cells, i)
    {
      CellIsLive(p, i);
      if ReadSlot(p, i).flags == OCCUPIED {
        return Some(i);
      }
      i := i + 1;
    }
    return None;
  }

  lemma CellIsLive(p: Page, i: nat)
    requires i < ReadCounters(p).slots <= MAX_SLOTS
    ensures Cells(p)[i].Live? <==> ReadSlot(p, i).flags == OCCUPIED
    ensures Cells(p)[i].Live? ==> Cells(p)[i].generation == ReadSlot(p, i).generation
  {
  }
}
