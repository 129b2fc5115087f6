/**
 The stored pages in plain numbers: every field of a slotted page, of a page-file header, of a free page and of a
 record id at its byte, and what fits on a page. Validation, reading and writing are tied to this one description.
 */
module PageFormats {
  import opened Common
  import opened Tiling
  import opened PageLayout
  import opened PageCells
  import opened SlottedPages
  import FreeList
  import PageFiles
  import HeapModel

  /** Two bytes, the less significant one first. */
  function Two(p: Page, at: nat): nat
    requires at + 2 <= 4096
  {
    p[at] as nat + 256 * p[at + 1] as nat
  }

  function Four(p: Page, at: nat): nat
    requires at + 4 <= 4096
  {
    p[at] as nat + 256 * p[at + 1] as nat + 65536 * p[at + 2] as nat + 16777216 * p[at + 3] as nat
  }

  // ---------------------------------------------------------------- slotted pages

  /** The directory entry of eight bytes behind the header of 32. */
  predicate EntryOk(p: Page, i: nat, upper: nat)
    requires i < 508
  {
    var at := 32 + 8 * i;
    var offset, length, generation, flags := Two(p, at), Two(p, at + 2), Two(p, at + 4), Two(p, at + 6);
    || (flags == 1 && generation > 0 && length > 0 && upper <= offset && offset + length <= 4096)
    || (flags == 2 && generation == 65535 && length == 0 && offset == 0)
    || (flags == 0 && 0 < generation < 65535 && length == 0 && offset == 0)
  }

  /** The i-th entry is live and its record covers byte x. */
  predicate Covers(p: Page, i: nat, x: nat)
    requires i < 508
  {
    var at := 32 + 8 * i;
    Two(p, at + 6) == 1 && Two(p, at) <= x < Two(p, at) + Two(p, at + 2)
  }

  /** How many of the first n entries are live. */
  function LiveEntries(p: Page, n: nat): nat
    requires n <= 508
  {
    if n == 0 then 0 else LiveEntries(p, n - 1) + if Two(p, 32 + 8 * (n - 1) + 6) == 1 then 1 else 0
  }

  /** Exactly one live entry covers byte x. */
  ghost predicate OneCovers(p: Page, n: nat, x: nat)
    requires n <= 508
  {
    exists i: nat :: i < n && OnlyCover(p, n, x, i)
  }

  ghost predicate OnlyCover(p: Page, n: nat, x: nat, i: nat)
    requires i < n <= 508
  {
    Covers(p, i, x) && forall j :: 0 <= j < n && Covers(p, j, x) ==> j == i
  }

  /** The format of a slotted page. */
  ghost predicate PageFormat(p: Page, id: PageId) {
    && id != 0 && p[0] == 0x54 && p[1] == 0x53 && p[2] == 0x50 && p[3] == 0x31
    && Two(p, 4) == 1 && Two(p, 6) == 32 && Four(p, 8) == id && (forall k :: 20 <= k < 32 ==> p[k] == 0)
    && Two(p, 12) <= 508 && Two(p, 14) == LiveEntries(p, Two(p, 12))
    && Two(p, 16) == 32 + 8 * Two(p, 12) && Two(p, 16) <= Two(p, 18) <= 4096
    && (forall i :: 0 <= i < Two(p, 12) ==> EntryOk(p, i, Two(p, 18)))
    && (forall x :: Two(p, 18) <= x < 4096 ==> OneCovers(p, Two(p, 12), x))
  }

  lemma EntryIsSlot(p: Page, i: nat, upper: nat)
    requires i < 508
    ensures EntryOk(p, i, upper) <==> SlotOk(ReadSlot(p, i), upper)
  {
  }

  lemma LiveEntriesStep(p: Page, n: nat)
    requires 0 < n <= ReadCounters(p).slots <= MAX_SLOTS && LiveEntries(p, n - 1) == |LiveRanges(SlotsOf(p)[..n - 1])|
    ensures LiveEntries(p, n) == |LiveRanges(SlotsOf(p)[..n])|
  {
    assert SlotsOf(p)[..n][..n - 1] == SlotsOf(p)[..n - 1];
  }

  lemma {:induction false} LiveEntriesAreRanges(p: Page, n: nat)
    requires n <= ReadCounters(p).slots <= MAX_SLOTS
    ensures LiveEntries(p, n) == |LiveRanges(SlotsOf(p)[..n])|
  {
    if n > 0 {
      LiveEntriesAreRanges(p, n - 1);
      LiveEntriesStep(p, n);
    }
  }

  lemma {:induction false} OneOwner(slots: seq<SlotEntry>, x: int, owner: nat)
    requires OwnedBy(slots, owner, x) && forall i :: 0 <= i < |slots| && OwnedBy(slots, i, x) ==> i == owner
    ensures Owners(LiveRanges(slots), x) == 1
  {
    var n := |slots| - 1;
    RangesStep(slots, x);
    assert forall i :: 0 <= i < n ==> OwnedBy(slots, i, x) == OwnedBy(slots[..n], i, x);
    if owner == n {
      NoOwner(slots[..n], x);
    } else {
      OneOwner(slots[..n], x, owner);
    }
  }

  lemma {:induction false} NoOwner(slots: seq<SlotEntry>, x: int)
    requires forall i :: 0 <= i < |slots| ==> !OwnedBy(slots, i, x)
    ensures Owners(LiveRanges(slots), x) == 0
  {
    if slots != [] {
      var n := |slots| - 1;
      RangesStep(slots, x);
      assert forall i :: 0 <= i < n ==> OwnedBy(slots, i, x) == OwnedBy(slots[..n], i, x);
      NoOwner(slots[..n], x);
    }
  }

  lemma CoversIsOwned(p: Page, i: nat, x: nat)
    requires ReadCounters(p).slots <= MAX_SLOTS && i < ReadCounters(p).slots
    ensures Covers(p, i, x) <==> OwnedBy(SlotsOf(p), i, x)
  {
  }

  lemma OneOwnerCovers(p: Page, x: nat)
    requires ReadCounters(p).slots <= MAX_SLOTS && Owners(LiveRanges(SlotsOf(p)), x) == 1
    ensures OneCovers(p, ReadCounters(p).slots, x)
  {
    var n, slots := ReadCounters(p).slots, SlotsOf(p);
    var owner := OwnedByte(slots, x);
    CoversIsOwned(p, owner, x);
    forall j | 0 <= j < n && Covers(p, j, x) ensures j == owner {
      CoversIsOwned(p, j, x);
    }
    assert OnlyCover(p, n, x, owner);
  }

  lemma OneCoversOwns(p: Page, x: nat)
    requires ReadCounters(p).slots <= MAX_SLOTS && OneCovers(p, ReadCounters(p).slots, x)
    ensures Owners(LiveRanges(SlotsOf(p)), x) == 1
  {
    var n, slots := ReadCounters(p).slots, SlotsOf(p);
    var i: nat :| i < n && OnlyCover(p, n, x, i);
    forall j | 0 <= j < n ensures OwnedBy(slots, j, x) ==> j == i {
      CoversIsOwned(p, j, x);
    }
    CoversIsOwned(p, i, x);
    OneOwner(slots, x, i);
  }

  lemma FieldsAreHeader(p: Page, id: PageId)
    ensures Identity(p, id) <==>
            && p[0] == 0x54 && p[1] == 0x53 && p[2] == 0x50 && p[3] == 0x31
            && Two(p, 4) == 1 && Two(p, 6) == 32 && Four(p, 8) == id && (forall k :: 20 <= k < 32 ==> p[k] == 0)
    ensures ReadCounters(p) == Counters(Two(p, 12), Two(p, 14), Two(p, 16), Two(p, 18))
  {
  }

  lemma {:induction false} SomeLiveEntry(p: Page, n: nat, i: nat)
    requires i < n <= 508 && Two(p, 32 + 8 * i + 6) == 1
    ensures LiveEntries(p, n) > 0
    decreases n
  {
    if i < n - 1 {
      SomeLiveEntry(p, n - 1, i);
    }
  }

  /** Without live records there is nothing to cover. */
  lemma EmptyDirectory(p: Page, n: nat, upper: nat)
    requires n <= 508 && LiveEntries(p, n) == 0 && upper <= 4096
    requires forall x :: upper <= x < 4096 ==> OneCovers(p, n, x)
    ensures upper == 4096
  {
    if upper < 4096 {
      assert OneCovers(p, n, upper);
      var i: nat :| i < n && OnlyCover(p, n, upper, i);
      SomeLiveEntry(p, n, i);
    }
  }

  lemma BodyIsFormat(p: Page)
    requires BodyOk(p)
    ensures Two(p, 12) <= 508 && Two(p, 14) == LiveEntries(p, Two(p, 12))
    ensures Two(p, 16) == 32 + 8 * Two(p, 12) && Two(p, 16) <= Two(p, 18) <= 4096
    ensures forall i :: 0 <= i < Two(p, 12) ==> EntryOk(p, i, Two(p, 18))
    ensures forall x :: Two(p, 18) <= x < 4096 ==> OneCovers(p, Two(p, 12), x)
  {
    var n := ReadCounters(p).slots;
    assert n == Two(p, 12);
    LiveEntriesAreRanges(p, n);
    assert SlotsOf(p)[..n] == SlotsOf(p);
    forall i | 0 <= i < n ensures EntryOk(p, i, Two(p, 18)) {
      EntryIsSlot(p, i, Two(p, 18));
    }
    forall x | Two(p, 18) <= x < 4096 ensures OneCovers(p, n, x) {
      OneOwnerCovers(p, x);
    }
  }

  lemma {:induction false} LiveEntriesBounded(p: Page, n: nat)
    requires n <= 508
    ensures LiveEntries(p, n) <= n
  {
    if n > 0 {
      LiveEntriesBounded(p, n - 1);
    }
  }

  lemma FormatIsBody(p: Page, id: PageId)
    requires PageFormat(p, id)
    ensures BodyOk(p)
  {
    FieldsAreHeader(p, id);
    var n, upper := Two(p, 12), Two(p, 18);
    LiveEntriesAreRanges(p, n);
    LiveEntriesBounded(p, n);
    assert SlotsOf(p)[..n] == SlotsOf(p);
    if Two(p, 14) == 0 {
      EmptyDirectory(p, n, upper);
    }
    forall i | 0 <= i < n ensures SlotOk(ReadSlot(p, i), upper) {
      EntryIsSlot(p, i, upper);
    }
    forall x | upper <= x < 4096 ensures Owners(LiveRanges(SlotsOf(p)), x) == 1 {
      OneCoversOwns(p, x);
    }
  }

  /** The pages that validation accepts are those of the described format. */
  lemma WellFormedIsFormat(p: Page, id: PageId)
    ensures WellFormed(p, id) <==> PageFormat(p, id)
  {
    FieldsAreHeader(p, id);
    if WellFormed(p, id) {
      BodyIsFormat(p);
    }
    if PageFormat(p, id) {
      FormatIsBody(p, id);
    }
  }

  lemma LiveCellBytes(p: Page, i: nat)
    requires ReadCounters(p).slots <= MAX_SLOTS && i < ReadCounters(p).slots
    requires EntryOk(p, i, Two(p, 18))
    ensures var c, at := Cells(p)[i], 32 + 8 * i;
            && (c.Live? <==> Two(p, at + 6) == 1)
            && (c.Live? ==> Two(p, at) + Two(p, at + 2) <= 4096)
            && (c.Live? ==> c == Live(Two(p, at + 4), p[Two(p, at)..Two(p, at) + Two(p, at + 2)]))
  {
    assert Cells(p)[i] == CellOf(p, ReadSlot(p, i));
  }

  lemma LiveHandle(cells: seq<Cell>, h: Handle)
    ensures h in Contents(cells) <==> IsLive(cells, h)
    ensures h in Contents(cells) ==> Contents(cells)[h] == cells[h.slot].payload
  {
  }

  /** The handle names a live entry under its generation. */
  predicate NamesEntry(p: Page, h: Handle) {
    && h.slot < Two(p, 12) <= 508
    && Two(p, 32 + 8 * h.slot + 6) == 1 && Two(p, 32 + 8 * h.slot + 4) == h.generation
  }

  /** The bytes the entry points at. */
  function EntryBytes(p: Page, i: nat): seq<byte>
    requires i < 508 && Two(p, 32 + 8 * i) + Two(p, 32 + 8 * i + 2) <= 4096
  {
    p[Two(p, 32 + 8 * i)..Two(p, 32 + 8 * i) + Two(p, 32 + 8 * i + 2)]
  }

  lemma RecordAt(p: Page, h: Handle)
    requires ReadCounters(p).slots == Two(p, 12) <= 508
    requires h.slot < Two(p, 12) ==> EntryOk(p, h.slot, Two(p, 18))
    ensures NamesEntry(p, h) ==> Two(p, 32 + 8 * h.slot) + Two(p, 32 + 8 * h.slot + 2) <= 4096
    ensures IsLive(Cells(p), h) <==> NamesEntry(p, h)
    ensures IsLive(Cells(p), h) ==> Cells(p)[h.slot].payload == EntryBytes(p, h.slot)
  {
    if h.slot < Two(p, 12) {
      LiveCellBytes(p, h.slot);
    }
  }

  /** A live handle names a directory entry, and its record is the bytes the entry points at. */
  lemma RecordBytes(p: Page, id: PageId, h: Handle)
    requires PageFormat(p, id)
    ensures ReadCounters(p).slots <= MAX_SLOTS
    ensures NamesEntry(p, h) ==> Two(p, 32 + 8 * h.slot) + Two(p, 32 + 8 * h.slot + 2) <= 4096
    ensures h in Contents(Cells(p)) ==> NamesEntry(p, h)
    ensures NamesEntry(p, h) ==> h in Contents(Cells(p)) && Contents(Cells(p))[h] == EntryBytes(p, h.slot)
  {
    FieldsAreHeader(p, id);
    RecordAt(p, h);
    LiveHandle(Cells(p), h);
  }

  // ---------------------------------------------------------------- what fits

  /** A record fits exactly when the page with it is one that can exist: no room is wasted and none is invented. */
  lemma FitsExactly(cells: seq<Cell>, payload: seq<byte>)
    requires CellsOk(cells) && payload != []
    ensures Fits(cells, payload) <==> CellsOk(InsertCell(cells, payload))
  {
    var h := NextHandle(cells);
    if h.slot < |cells| {
      UsedUpdate(cells, h.slot, Live(h.generation, payload));
    } else {
      UsedAppend(cells, Live(1, payload));
    }
  }

  lemma FitsReplacedExactly(cells: seq<Cell>, h: Handle, payload: seq<byte>)
    requires CellsOk(cells) && IsLive(cells, h) && payload != []
    ensures FitsReplaced(cells, h, payload) <==> CellsOk(ReplaceCell(cells, h, payload))
  {
    UsedUpdate(cells, h.slot, Live(h.generation, payload));
  }

  lemma {:induction false} FirstFreeIsLowest(cells: seq<Cell>, from: nat, i: nat)
    requires from <= i < |cells| && cells[i].Deleted? && cells[i].generation < MAX_GENERATION
    ensures FirstFree(cells, from).Some? && FirstFree(cells, from).value <= i
    decreases |cells| - from
  {
    if !(cells[from].Deleted? && cells[from].generation < MAX_GENERATION) {
      FirstFreeIsLowest(cells, from + 1, i);
    }
  }

  /** A new record takes the lowest position that can be issued again, under the next generation, or a new position. */
  lemma NextHandleIsLowest(cells: seq<Cell>)
    requires CellsOk(cells)
    ensures var h := NextHandle(cells);
            && (forall i :: 0 <= i < |cells| && i < h.slot ==> !cells[i].Deleted?)
            && (h.slot < |cells| ==> cells[h.slot].Deleted? && h.generation == cells[h.slot].generation + 1)
            && (h.slot >= |cells| ==> h == Handle(|cells|, 1))
  {
    var h := NextHandle(cells);
    forall i | 0 <= i < |cells| && i < h.slot ensures !cells[i].Deleted? {
      assert CellOk(cells[i]);
      if cells[i].Deleted? {
        FirstFreeIsLowest(cells, 0, i);
      }
    }
  }

  // ---------------------------------------------------------------- page files and record ids

  /** The header page: magic, version, head of the free list and page count. */
  lemma FileHeaderBytes(p: Page, h: PageFiles.Header)
    ensures PageFiles.HeaderOf(p) == Some(h) <==>
            && p[..8] == [0x54, 0x44, 0x42, 0x50, 0x41, 0x47, 0x45, 0x31] && Four(p, 8) == 1
            && h.head == Four(p, 12) && h.count == Four(p, 16) + 0x1_0000_0000 * Four(p, 20)
  {
    var magic: seq<byte> := [0x54, 0x44, 0x42, 0x50, 0x41, 0x47, 0x45, 0x31];
    assert p[..8] == magic <==> forall k :: 0 <= k < 8 ==> p[k] == magic[k];
    assert PageFiles.HasMagic(p) <==> p[..8] == magic;
  }

  /** A free page: its mark and the link to the next one. */
  lemma FreePageBytes(p: Page, next: PageId)
    ensures FreeList.FreeLink(p) == Some(next) <==>
            p[0] == 0x54 && p[1] == 0x46 && p[2] == 0x52 && p[3] == 0x31 && Four(p, 4) == next
  {
  }

  /** A record id is page, generation and slot in this order, in 32, 16 and 16 bits. */
  lemma RecordIdBits(r: HeapModel.Rid)
    requires HeapModel.RidOk(r)
    ensures HeapModel.EncodeRid(r) == Some(r.page * 0x1_0000_0000 + r.generation * 0x1_0000 + r.slot)
  {
  }
}
