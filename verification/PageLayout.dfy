/** Reading and writing the bytes of a slotted page: header fields and slot entries (src/storage/slotted_page.cpp). */
module PageLayout {
  import opened Common

  const HEADER_SIZE: nat := 32
  const SLOT_SIZE: nat := 8
  const MAX_SLOTS: nat := 508
  const MAX_GENERATION: nat := 65535
  const OCCUPIED: nat := 1
  const RETIRED: nat := 2

  const VERSION_AT: nat := 4
  const HEADER_SIZE_AT: nat := 6
  const PAGE_ID_AT: nat := 8
  const SLOT_COUNT_AT: nat := 12
  const LIVE_COUNT_AT: nat := 14
  const FREE_LOWER_AT: nat := 16
  const FREE_UPPER_AT: nat := 18
  const RESERVED_AT: nat := 20

  type Page = p: RawPage | |p| == PAGE_SIZE witness ZeroPage()

  type PageId = n: nat | n < 0x1_0000_0000

  type U16 = n: nat | n < 0x1_0000

  // ---------------------------------------------------------------- bytes

  function GetU16(p: Page, at: nat): U16
    requires at + 2 <= PAGE_SIZE
  {
    p[at] as nat + 256 * (p[at + 1] as nat)
  }

  function GetU32(p: Page, at: nat): PageId
    requires at + 4 <= PAGE_SIZE
  {
    GetU16(p, at) + 0x1_0000 * GetU16(p, at + 2)
  }

  /** The bytes replaced from `at` on. */
  function Splice(p: Page, at: nat, bytes: seq<byte>): (r: Page)
    requires at + |bytes| <= PAGE_SIZE
    ensures forall k :: 0 <= k < PAGE_SIZE ==> r[k] == if at <= k < at + |bytes| then bytes[k - at] else p[k]
  {
    p[..at] + bytes + p[at + |bytes|..]
  }

  function BytesOfU16(v: U16): (r: seq<byte>)
    ensures |r| == 2 && r[0] as nat + 256 * (r[1] as nat) == v
  {
    [(v % 256) as byte, (v / 256) as byte]
  }

  function PutU16(p: Page, at: nat, v: U16): (r: Page)
    requires at + 2 <= PAGE_SIZE
    ensures GetU16(r, at) == v
    ensures forall k :: 0 <= k < PAGE_SIZE && !(at <= k < at + 2) ==> r[k] == p[k]
  {
    Splice(p, at, BytesOfU16(v))
  }

  function PutU32(p: Page, at: nat, v: PageId): (r: Page)
    requires at + 4 <= PAGE_SIZE
    ensures GetU32(r, at) == v
    ensures forall k :: 0 <= k < PAGE_SIZE && !(at <= k < at + 4) ==> r[k] == p[k]
  {
    PutU16(PutU16(p, at, v % 0x1_0000), at + 2, v / 0x1_0000)
  }

  /** The two pages agree on the bytes of [from, to). */
  predicate SameBytes(p: Page, q: Page, from: nat, to: nat)
    requires to <= PAGE_SIZE
  {
    forall k :: from <= k < to ==> p[k] == q[k]
  }

  // ---------------------------------------------------------------- slot entries

  datatype SlotEntry = SlotEntry(offset: U16, length: U16, generation: U16, flags: U16)

  function SlotByte(i: nat): nat {
    HEADER_SIZE + i * SLOT_SIZE
  }

  function ReadSlot(p: Page, i: nat): SlotEntry
    requires i < MAX_SLOTS
  {
    var at := SlotByte(i);
    SlotEntry(GetU16(p, at), GetU16(p, at + 2), GetU16(p, at + 4), GetU16(p, at + 6))
  }

  function BytesOfSlot(s: SlotEntry): (r: seq<byte>)
    ensures |r| == SLOT_SIZE
  {
    BytesOfU16(s.offset) + BytesOfU16(s.length) + BytesOfU16(s.generation) + BytesOfU16(s.flags)
  }

  /** write_slot. */
  function WriteSlot(p: Page, i: nat, s: SlotEntry): (r: Page)
    requires i < MAX_SLOTS
    ensures ReadSlot(r, i) == s
    ensures forall k :: 0 <= k < PAGE_SIZE && !(SlotByte(i) <= k < SlotByte(i) + SLOT_SIZE) ==> r[k] == p[k]
  {
    Splice(p, SlotByte(i), BytesOfSlot(s))
  }

  /** A slot entry depends on its eight bytes only. */
  lemma ReadSlotSame(p: Page, q: Page, i: nat)
    requires i < MAX_SLOTS && SameBytes(p, q, SlotByte(i), SlotByte(i) + SLOT_SIZE)
    ensures ReadSlot(p, i) == ReadSlot(q, i)
  {
  }

  lemma WriteSlotOthers(p: Page, i: nat, s: SlotEntry, j: nat)
    requires i < MAX_SLOTS && j < MAX_SLOTS && i != j
    ensures ReadSlot(WriteSlot(p, i, s), j) == ReadSlot(p, j)
  {
    ReadSlotSame(WriteSlot(p, i, s), p, j);
  }

  // ---------------------------------------------------------------- the header

  /** The header counters; the rest of the header is fixed by the page id. */
  datatype Counters = Counters(slots: U16, live: U16, lower: U16, upper: U16)

  function ReadCounters(p: Page): Counters {
    Counters(GetU16(p, SLOT_COUNT_AT), GetU16(p, LIVE_COUNT_AT), GetU16(p, FREE_LOWER_AT), GetU16(p, FREE_UPPER_AT))
  }

  /** Magic, version, header size, page id, and zero reserved bytes. */
  predicate Identity(p: Page, id: PageId) {
    && p[0] == 'T' as byte && p[1] == 'S' as byte && p[2] == 'P' as byte && p[3] == '1' as byte
    && GetU16(p, VERSION_AT) == 1 && GetU16(p, HEADER_SIZE_AT) == HEADER_SIZE && GetU32(p, PAGE_ID_AT) == id
    && (forall k :: RESERVED_AT <= k < HEADER_SIZE ==> p[k] == 0)
  }

  /** Writing outside the header changes nothing in it. */
  lemma HeaderSame(p: Page, q: Page, id: PageId)
    requires SameBytes(p, q, 0, HEADER_SIZE) && Identity(p, id)
    ensures Identity(q, id) && ReadCounters(q) == ReadCounters(p)
  {
  }

  function PutCounters(p: Page, c: Counters): (r: Page)
    ensures ReadCounters(r) == c
    ensures forall k :: 0 <= k < PAGE_SIZE && !(SLOT_COUNT_AT <= k < RESERVED_AT) ==> r[k] == p[k]
  {
    PutU16(PutU16(PutU16(PutU16(p, SLOT_COUNT_AT, c.slots), LIVE_COUNT_AT, c.live), FREE_LOWER_AT, c.lower),
        FREE_UPPER_AT, c.upper)
  }

  lemma CountersKeepIdentity(p: Page, c: Counters, id: PageId)
    requires Identity(p, id)
    ensures Identity(PutCounters(p, c), id)
  {
  }

  lemma CountersKeepSlots(p: Page, c: Counters, i: nat)
    requires i < MAX_SLOTS
    ensures ReadSlot(PutCounters(p, c), i) == ReadSlot(p, i)
  {
    ReadSlotSame(PutCounters(p, c), p, i);
  }

  /** The header of a fresh page, counters not yet set. */
  function Stamp(id: PageId): (r: Page)
    ensures Identity(r, id) && forall k :: HEADER_SIZE <= k < PAGE_SIZE ==> r[k] == 0
  {
    var magic := Splice(ZeroPage(), 0, ['T' as byte, 'S' as byte, 'P' as byte, '1' as byte]);
    PutU32(PutU16(PutU16(magic, VERSION_AT, 1), HEADER_SIZE_AT, HEADER_SIZE), PAGE_ID_AT, id)
  }
}
