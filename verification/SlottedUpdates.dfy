/** Insertion in place, and replacement and erasure by compaction (src/storage/slotted_page.cpp). */
module SlottedUpdates {
  import opened Common
  import opened Tiling
  import opened PageLayout
  import opened PageCells
  import opened SlottedPages

  // ---------------------------------------------------------------- live ranges as slots change

  lemma RangesAppend(slots: seq<SlotEntry>, e: SlotEntry, x: int)
    requires e.flags == OCCUPIED
    ensures Owners(LiveRanges(slots + [e]), x) == Owners(LiveRanges(slots), x) + if Owns(RangeOf(e), x) then 1 else 0
    ensures |LiveRanges(slots + [e])| == |LiveRanges(slots)| + 1
  {
    assert (slots + [e])[..|slots|] == slots;
    OwnersAppend(LiveRanges(slots), RangeOf(e), x);
  }

  lemma RangesSkip(slots: seq<SlotEntry>, e: SlotEntry)
    requires e.flags != OCCUPIED
    ensures LiveRanges(slots + [e]) == LiveRanges(slots)
  {
    assert (slots + [e])[..|slots|] == slots;
  }

  lemma {:induction false} RangesUpdate(slots: seq<SlotEntry>, t: nat, e: SlotEntry, x: int)
    requires t < |slots| && slots[t].flags != OCCUPIED && e.flags == OCCUPIED
    ensures Owners(LiveRanges(slots[t := e]), x) == Owners(LiveRanges(slots), x) + if Owns(RangeOf(e), x) then 1 else 0
    ensures |LiveRanges(slots[t := e])| == |LiveRanges(slots)| + 1
  {
    var n := |slots| - 1;
    var init, last := slots[..n], slots[n];
    if t == n {
      assert slots[t := e] == init + [e] && slots == init + [last];
      RangesAppend(init, e, x);
      RangesSkip(init, last);
    } else {
      RangesUpdate(init, t, e, x);
      assert slots[t := e] == init[t := e] + [last] && slots == init + [last];
      if last.flags == OCCUPIED {
        RangesAppend(init[t := e], last, x);
        RangesAppend(init, last, x);
      } else {
        RangesSkip(init[t := e], last);
        RangesSkip(init, last);
      }
    }
  }

  // ---------------------------------------------------------------- insertion

  /** The page after the writes of insert: payload, slot entry, counters. */
  function InsertBytes(p: Page, target: nat, e: SlotEntry, payload: seq<byte>, c: Counters): Page
    requires target < MAX_SLOTS && e.offset + |payload| <= PAGE_SIZE
  {
    PutCounters(WriteSlot(Splice(p, e.offset, payload), target, e), c)
  }

  lemma InsertBytesFrame(p: Page, target: nat, e: SlotEntry, payload: seq<byte>, c: Counters, k: nat)
    requires target < MAX_SLOTS && e.offset + |payload| <= PAGE_SIZE && SlotByte(target) + SLOT_SIZE <= e.offset &&
      k < PAGE_SIZE
    ensures (HEADER_SIZE <= k && !(SlotByte(target) <= k < SlotByte(target) + SLOT_SIZE) &&
      !(e.offset <= k < e.offset + |payload|)) ==>
      InsertBytes(p, target, e, payload, c)[k] == p[k]
    ensures e.offset <= k < e.offset + |payload| ==> InsertBytes(p, target, e, payload, c)[k] == payload[k - e.offset]
  {
  }

  lemma InsertBytesIdentity(p: Page, id: PageId, target: nat, e: SlotEntry, payload: seq<byte>, c: Counters)
    requires Identity(p, id) && target < MAX_SLOTS && e.offset + |payload| <= PAGE_SIZE && HEADER_SIZE <= e.offset
    ensures Identity(InsertBytes(p, target, e, payload, c), id) &&
      ReadCounters(InsertBytes(p, target, e, payload, c)) == c
  {
    var q := WriteSlot(Splice(p, e.offset, payload), target, e);
    HeaderSame(p, q, id);
    CountersKeepIdentity(q, c, id);
  }

  lemma InsertBytesSlot(p: Page, target: nat, e: SlotEntry, payload: seq<byte>, c: Counters, i: nat)
    requires target < MAX_SLOTS && e.offset + |payload| <= PAGE_SIZE && i < MAX_SLOTS &&
      SlotByte(i) + SLOT_SIZE <= e.offset
    ensures ReadSlot(InsertBytes(p, target, e, payload, c), i) == if i == target then e else ReadSlot(p, i)
  {
    var spliced := Splice(p, e.offset, payload);
    CountersKeepSlots(WriteSlot(spliced, target, e), c, i);
    if i != target {
      WriteSlotOthers(spliced, target, e, i);
      ReadSlotSame(spliced, p, i);
    }
  }

  /** The numbers insert has computed: the entry lies right below free_upper and clear of the directory. */
  ghost predicate Placed(before: Counters, target: nat, e: SlotEntry, payload: seq<byte>, c: Counters) {
    && payload != [] && target < MAX_SLOTS && target <= before.slots
    && c.slots == (if target == before.slots then target + 1 else before.slots)
    && c.live == before.live + 1 && c.lower == HEADER_SIZE + c.slots * SLOT_SIZE
    && c.upper == e.offset && e.offset + |payload| == before.upper && c.lower <= c.upper && before.upper <= PAGE_SIZE
    && e.length == |payload| && e.flags == OCCUPIED && e.generation != 0
  }

  ghost predicate TargetFree(p: Page, target: nat)
    requires ReadCounters(p).slots <= MAX_SLOTS
  {
    target < ReadCounters(p).slots ==> ReadSlot(p, target).flags != OCCUPIED
  }

  /** How the written page q differs from p. */
  ghost predicate SlotsWritten(p: Page, q: Page, target: nat, e: SlotEntry, count: nat)
    requires count <= MAX_SLOTS
  {
    forall i :: 0 <= i < count ==> ReadSlot(q, i) == if i == target then e else ReadSlot(p, i)
  }

  ghost predicate BytesWritten(p: Page, q: Page, at: nat, payload: seq<byte>)
    requires at + |payload| <= PAGE_SIZE
  {
    SameBytes(p, q, at + |payload|, PAGE_SIZE) && q[at..at + |payload|] == payload
  }

  lemma BytesAreWritten(p: Page, target: nat, e: SlotEntry, payload: seq<byte>, c: Counters)
    requires target < MAX_SLOTS && e.offset + |payload| <= PAGE_SIZE && SlotByte(target) + SLOT_SIZE <= e.offset
    ensures BytesWritten(p, InsertBytes(p, target, e, payload, c), e.offset, payload)
  {
    var q := InsertBytes(p, target, e, payload, c);
    forall k | e.offset <= k < PAGE_SIZE
      ensures q[k] == if k < e.offset + |payload| then payload[k - e.offset] else p[k]
    {
      InsertBytesFrame(p, target, e, payload, c, k);
    }
  }

  lemma SlotsAreWritten(p: Page, target: nat, e: SlotEntry, payload: seq<byte>, c: Counters)
    requires target < MAX_SLOTS && e.offset + |payload| <= PAGE_SIZE && c.slots <= MAX_SLOTS &&
      HEADER_SIZE + c.slots * SLOT_SIZE <= e.offset
    ensures SlotsWritten(p, InsertBytes(p, target, e, payload, c), target, e, c.slots)
  {
    forall i | 0 <= i < c.slots
      ensures ReadSlot(InsertBytes(p, target, e, payload, c), i) == if i == target then e else ReadSlot(p, i)
    {
      InsertBytesSlot(p, target, e, payload, c, i);
    }
  }

  function PutSlot(slots: seq<SlotEntry>, target: nat, e: SlotEntry): seq<SlotEntry> {
    if target < |slots| then slots[target := e] else slots + [e]
  }

  lemma WrittenSlots(p: Page, q: Page, target: nat, e: SlotEntry, payload: seq<byte>)
    requires ReadCounters(p).slots <= MAX_SLOTS && Placed(ReadCounters(p), target, e, payload, ReadCounters(q))
    requires SlotsWritten(p, q, target, e, ReadCounters(q).slots)
    ensures SlotsOf(q) == PutSlot(SlotsOf(p), target, e)
  {
  }

  lemma OwnersPut(slots: seq<SlotEntry>, target: nat, e: SlotEntry, x: int)
    requires e.flags == OCCUPIED && (target < |slots| ==> slots[target].flags != OCCUPIED)
    ensures Owners(LiveRanges(PutSlot(slots, target, e)), x) == Owners(LiveRanges(slots), x) + if Owns(RangeOf(e), x)
      then 1 else 0
    ensures |LiveRanges(PutSlot(slots, target, e))| == |LiveRanges(slots)| + 1
  {
    if target < |slots| {
      RangesUpdate(slots, target, e, x);
    } else {
      RangesAppend(slots, e, x);
    }
  }

  /** The new record takes the bytes right below the old ones: the live payloads still tile. */
  lemma PutTiles(slots: seq<SlotEntry>, target: nat, e: SlotEntry, upper: nat)
    requires e.flags == OCCUPIED && (target < |slots| ==> slots[target].flags != OCCUPIED)
    requires Within(LiveRanges(slots), upper, PAGE_SIZE) && Tiles(LiveRanges(slots), upper, PAGE_SIZE)
    requires e.offset + e.length == upper
    ensures Tiles(LiveRanges(PutSlot(slots, target, e)), e.offset, PAGE_SIZE)
    ensures |LiveRanges(PutSlot(slots, target, e))| == |LiveRanges(slots)| + 1
  {
    OwnersPut(slots, target, e, 0);
    forall x | e.offset <= x < PAGE_SIZE ensures Owners(LiveRanges(PutSlot(slots, target, e)), x) == 1 {
      OwnersPut(slots, target, e, x);
      if x < upper {
        NoOwner(LiveRanges(slots), x);
      }
    }
  }

  lemma PutSlotsOk(p: Page, q: Page, target: nat, e: SlotEntry, payload: seq<byte>)
    requires ReadCounters(p).slots <= MAX_SLOTS && SlotsOk(p) &&
      Placed(ReadCounters(p), target, e, payload, ReadCounters(q))
    requires SlotsWritten(p, q, target, e, ReadCounters(q).slots)
    ensures SlotsOk(q)
  {
    forall i | 0 <= i < ReadCounters(q).slots ensures SlotOk(ReadSlot(q, i), ReadCounters(q).upper) {
      if i != target {
        assert SlotOk(ReadSlot(p, i), ReadCounters(p).upper);
      }
    }
  }

  lemma BodyKept(p: Page, q: Page, target: nat, e: SlotEntry, payload: seq<byte>)
    requires BodyOk(p) && Placed(ReadCounters(p), target, e, payload, ReadCounters(q)) && TargetFree(p, target)
    requires SlotsWritten(p, q, target, e, ReadCounters(q).slots)
    ensures BodyOk(q)
  {
    WrittenSlots(p, q, target, e, payload);
    LiveWithin(SlotsOf(p), ReadCounters(p).upper);
    PutTiles(SlotsOf(p), target, e, ReadCounters(p).upper);
    PutSlotsOk(p, q, target, e, payload);
    LiveAtMost(SlotsOf(q));
  }

  lemma WrittenCell(p: Page, q: Page, target: nat, e: SlotEntry, payload: seq<byte>, i: nat)
    requires ReadCounters(p).slots <= MAX_SLOTS && SlotsOk(p) &&
      Placed(ReadCounters(p), target, e, payload, ReadCounters(q))
    requires SlotsWritten(p, q, target, e, ReadCounters(q).slots) && BytesWritten(p, q, e.offset, payload) &&
      i < ReadCounters(q).slots
    ensures CellOf(q, ReadSlot(q, i)) == if i == target then Live(e.generation, payload) else CellOf(p, ReadSlot(p, i))
  {
    var s := ReadSlot(q, i);
    if i != target {
      assert SlotOk(s, ReadCounters(p).upper);
      if s.flags == OCCUPIED {
        assert Payload(q, s) == Payload(p, s);
      }
    }
  }

  lemma WrittenCells(p: Page, q: Page, target: nat, e: SlotEntry, payload: seq<byte>)
    requires ReadCounters(p).slots <= MAX_SLOTS && SlotsOk(p) &&
      Placed(ReadCounters(p), target, e, payload, ReadCounters(q))
    requires SlotsWritten(p, q, target, e, ReadCounters(q).slots) && BytesWritten(p, q, e.offset, payload)
    ensures Cells(q) == if target < |Cells(p)| then Cells(p)[target := Live(e.generation, payload)]
      else Cells(p) + [Live(e.generation, payload)]
  {
    forall i | 0 <= i < ReadCounters(q).slots
      ensures Cells(q)[i] == if i == target then Live(e.generation, payload) else Cells(p)[i]
    {
      WrittenCell(p, q, target, e, payload, i);
    }
  }

  /** The writes of insert leave a well-formed page that stores one more cell: the check after them cannot fail. */
  lemma WrittenStores(p: Page, q: Page, id: PageId, target: nat, e: SlotEntry, payload: seq<byte>)
    requires BodyOk(p) && Placed(ReadCounters(p), target, e, payload, ReadCounters(q)) && TargetFree(p, target)
    requires id != 0 && Identity(q, id) && Handle(target, e.generation) == NextHandle(Cells(p))
    requires SlotsWritten(p, q, target, e, ReadCounters(q).slots) && BytesWritten(p, q, e.offset, payload)
    ensures Stores(q, id, InsertCell(Cells(p), payload))
  {
    BodyKept(p, q, target, e, payload);
    WrittenCells(p, q, target, e, payload);
  }

  lemma InsertedStores(p: Page, id: PageId, target: nat, e: SlotEntry, payload: seq<byte>, c: Counters)
    requires WellFormed(p, id) && Placed(ReadCounters(p), target, e, payload, c) && TargetFree(p, target)
    requires Handle(target, e.generation) == NextHandle(Cells(p))
    ensures Stores(InsertBytes(p, target, e, payload, c), id, InsertCell(Cells(p), payload))
  {
    InsertBytesIdentity(p, id, target, e, payload, c);
    SlotsAreWritten(p, target, e, payload, c);
    BytesAreWritten(p, target, e, payload, c);
    WrittenStores(p, InsertBytes(p, target, e, payload, c), id, target, e, payload);
  }

  /** The search for a free slot. */
  method FindFree(p: Page, id: PageId) returns (free: Option<nat>)
    requires WellFormed(p, id)
    ensures free == FirstFree(Cells(p))
  {
    var count := ReadCounters(p).slots;
    var i := 0;
    while i < count
      invariant 0 <= i <= count
      invariant FirstFree(Cells(p)) == FirstFree(Cells(p), i)
    {
      var s := ReadSlot(p, i);
      assert Cells(p)[i] == CellOf(p, s) && SlotOk(s, ReadCounters(p).upper);
      if s.flags == 0 && s.generation < MAX_GENERATION {
        return Some(i);
      }
      i := i + 1;
    }
    return None;
  }

  /** What insert reports and leaves. */
  ghost predicate InsertSpec(p: Page, id: PageId, payload: seq<byte>, p': Page, r: Result<Handle, Fault>) {
    if payload == [] || |payload| > MAX_PAYLOAD then r == Err(InvalidArgument) && p' == p
    else if !WellFormed(p, id) then r == Err(if id == 0 then InvalidArgument else Corrupt) && p' == p
    else if !Fits(Cells(p), payload) then r == Err(NoSpace) && p' == p
    else r == Ok(NextHandle(Cells(p))) && Stores(p', id, InsertCell(Cells(p), payload))
  }

  /** SlottedPage::insert. */
  method InsertRecord(p: Page, id: PageId, payload: seq<byte>) returns (p': Page, r: Result<Handle, Fault>)
    ensures InsertSpec(p, id, payload, p', r)
  {
    p' := p;
    if payload == [] || |payload| > MAX_PAYLOAD {
      return p, Err(InvalidArgument);
    }
    var fault := Validate(p, id);
    if fault.Some? {
      return p, Err(fault.value);
    }
    PageSums(p, id);
    var c := ReadCounters(p);
    var free := FindFree(p, id);
    if free.None? && c.slots >= MAX_SLOTS {
      return p, Err(NoSpace);
    }
    var required := |payload| + if free.Some? then 0 else SLOT_SIZE;
    if c.upper - c.lower < required {
      return p, Err(NoSpace);
    }
    assert Fits(Cells(p), payload);
    var target, e, c' := PlaceNew(p, id, payload, free);
    var updated := InsertBytes(p, target, e, payload, c');
    InsertedStores(p, id, target, e, payload, c');
    var again := Validate(updated, id);
    match again
    case Some(f) =>
      r := Err(f);
    case None =>
      p' := updated;
      r := Ok(Handle(target, e.generation));
  }

  /** The entry and counters for the new record. */
  method PlaceNew(p: Page, id: PageId, payload: seq<byte>, free: Option<nat>)
    returns (target: nat, e: SlotEntry, c': Counters)
    requires WellFormed(p, id) && payload != [] && free == FirstFree(Cells(p)) && Fits(Cells(p), payload)
    ensures Placed(ReadCounters(p), target, e, payload, c') && TargetFree(p, target)
    ensures Handle(target, e.generation) == NextHandle(Cells(p))
  {
    PageSums(p, id);
    var c := ReadCounters(p);
    var generation := 1;
    target := c.slots;
    var slots, lower := c.slots + 1, c.lower + SLOT_SIZE;
    if free.Some? {
      target := free.value;
      assert Cells(p)[target] == CellOf(p, ReadSlot(p, target));
      generation := ReadSlot(p, target).generation + 1;
      slots, lower := c.slots, c.lower;
    }
    e := SlotEntry(c.upper - |payload|, |payload|, generation, OCCUPIED);
    c' := Counters(slots, c.live + 1, lower, e.offset);
  }
}
