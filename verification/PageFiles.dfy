/** The page file: an allocator whose every write leaves a file that opens (src/storage/page_file.cpp). */
module PageFiles {
  import opened Common
  import opened PageLayout
  import opened FreeList
  import opened Distinct

  // ---------------------------------------------------------------- the header

  datatype Header = Header(count: nat, head: PageId)

  const HEADER_VERSION_AT: nat := 8
  const HEAD_AT: nat := 12
  const COUNT_AT: nat := 16

  predicate HasMagic(p: Page) {
    && p[0] == 'T' as byte && p[1] == 'D' as byte && p[2] == 'B' as byte && p[3] == 'P' as byte
    && p[4] == 'A' as byte && p[5] == 'G' as byte && p[6] == 'E' as byte && p[7] == '1' as byte
  }

  function GetU64(p: Page, at: nat): nat
    requires at + 8 <= PAGE_SIZE
  {
    GetU32(p, at) + 0x1_0000_0000 * GetU32(p, at + 4)
  }

  function PutU64(p: Page, at: nat, v: nat): (r: Page)
    requires at + 8 <= PAGE_SIZE && v < 0x1_0000_0000_0000_0000
    ensures GetU64(r, at) == v
    ensures forall k :: 0 <= k < PAGE_SIZE && !(at <= k < at + 8) ==> r[k] == p[k]
  {
    PutU32(PutU32(p, at, v % 0x1_0000_0000), at + 4, v / 0x1_0000_0000)
  }

  function HeaderOf(p: Page): Option<Header> {
    if HasMagic(p) && GetU32(p, HEADER_VERSION_AT) == FORMAT_VERSION
        then Some(Header(GetU64(p, COUNT_AT), GetU32(p, HEAD_AT))) else None
  }

  function MagicPage(): (p: Page)
    ensures HasMagic(p) && GetU32(p, HEADER_VERSION_AT) == FORMAT_VERSION
  {
    var magic := Splice(ZeroPage(), 0,
        ['T' as byte, 'D' as byte, 'B' as byte, 'P' as byte, 'A' as byte, 'G' as byte, 'E' as byte, '1' as byte]);
    PutU32(magic, HEADER_VERSION_AT, FORMAT_VERSION)
  }

  /** make_header. */
  method MakeHeader(h: Header) returns (p: Page)
    requires h.count <= MAX_PAGE_COUNT
    ensures HeaderOf(p) == Some(h)
  {
    p := PutU64(PutU32(MagicPage(), HEAD_AT, h.head), COUNT_AT, h.count);
  }

  /** The page written by free_page_locked. */
  method MakeFree(next: PageId) returns (p: Page)
    ensures FreeLink(p) == Some(next)
  {
    p := FreePage(next);
  }

  // ---------------------------------------------------------------- files that open

  ghost predicate OpensAs(disk: Disk, h: Header, list: seq<nat>) {
    && disk != [] && HeaderOf(disk[0]) == Some(h)
    && 0 < h.count <= MAX_PAGE_COUNT && h.count <= |disk|
    && IsFreeList(disk, h.count, h.head, list)
  }

  ghost predicate Opens(disk: Disk) {
    exists h, list :: OpensAs(disk, h, list)
  }

  /** The data pages that are in use. */
  predicate Allocated(h: Header, list: seq<nat>, id: nat) {
    0 < id < h.count && id !in list
  }

  datatype FileError = Io | Corrupt | InvalidArgument

  /** PageFile::open on the bytes of a file: accepted exactly when the file opens. */
  method Open(disk: Disk) returns (r: Result<Header, FileError>)
    ensures r.Ok? <==> Opens(disk)
    ensures r.Ok? ==> exists list :: OpensAs(disk, r.value, list)
  {
    if disk == [] {
      return Err(Corrupt);
    }
    var h := HeaderOf(disk[0]);
    if h.None? || h.value.count == 0 || h.value.count > MAX_PAGE_COUNT || h.value.count > |disk| {
      return Err(Corrupt);
    }
    var walk := Walk(disk, h.value.count, h.value.head);
    match walk
    case NotAList =>
      r := Err(Corrupt);
    case Walked(list) =>
      assert OpensAs(disk, h.value, list);
      r := Ok(h.value);
  }

  // ---------------------------------------------------------------- one write at a time

  /** One page write, all or nothing; a write at the end extends the file. */
  function Put(disk: Disk, id: nat, page: Page): Disk {
    if id < |disk| then disk[id := page] else disk + [page]
  }

  /** The header after a complete allocation. */
  function NextHeader(disk: Disk, h: Header): Header
    requires h.head < |disk|
  {
    if h.head == 0 then Header(h.count + 1, 0)
    else Header(h.count, if FreeLink(disk[h.head]).Some? then FreeLink(disk[h.head]).value else 0)
  }

  /** The page an allocation returns. */
  function NextPage(h: Header): nat {
    if h.head == 0 then h.count else h.head
  }

  ghost function NextList(h: Header, list: seq<nat>): seq<nat> {
    if h.head == 0 || list == [] then [] else list[1..]
  }

  lemma ListAvoids(disk: Disk, h: Header, list: seq<nat>, id: nat)
    requires OpensAs(disk, h, list) && id !in list
    ensures forall i :: 0 <= i < |list| ==> list[i] < |disk| && list[i] != id && list[i] != 0
  {
    forall i | 0 <= i < |list| ensures list[i] < |disk| && list[i] != id && list[i] != 0 {
      ListBounds(disk, h.count, h.head, list, i);
    }
  }

  /** Overwriting a data page outside the free list keeps the list. */
  lemma OverwriteData(disk: Disk, h: Header, list: seq<nat>, id: nat, page: Page)
    requires OpensAs(disk, h, list) && 0 < id <= |disk| && id !in list
    ensures OpensAs(Put(disk, id, page), h, list)
  {
    ListAvoids(disk, h, list, id);
    LinkedSame(disk, Put(disk, id, page), h.count, h.count, h.head, list);
  }

  lemma HeaderKeepsLinks(disk: Disk, page: Page, count: nat, head: nat, list: seq<nat>)
    requires disk != [] && IsFreeList(disk, count, head, list)
    ensures IsFreeList(disk[0 := page], count, head, list)
  {
    forall i | 0 <= i < |list| ensures list[i] < |disk| && list[i] != 0 {
      ListBounds(disk, count, head, list, i);
    }
    LinkedSame(disk, disk[0 := page], count, count, head, list);
  }

  /** A new header over the same pages publishes another list. */
  lemma PublishHeader(disk: Disk, page: Page, h: Header, list: seq<nat>)
    requires disk != [] && 0 < h.count <= MAX_PAGE_COUNT && h.count <= |disk| && IsFreeList(disk, h.count, h.head, list)
    requires HeaderOf(page) == Some(h)
    ensures OpensAs(Put(disk, 0, page), h, list)
  {
    HeaderKeepsLinks(disk, page, h.count, h.head, list);
  }

  lemma Unlink(disk: Disk, h: Header, list: seq<nat>)
    requires OpensAs(disk, h, list) && h.head != 0
    ensures list != [] && h.head == list[0] && h.head < |disk| && FreeLink(disk[h.head]).Some?
    ensures IsFreeList(disk, h.count, FreeLink(disk[h.head]).value, list[1..]) && h.head !in list[1..]
  {
    forall i | 0 <= i < |list[1..]| ensures list[1..][i] != h.head {
      assert list[1..][i] == list[i + 1] && list[0] != list[i + 1];
    }
  }

  // ---------------------------------------------------------------- stopping between the writes

  /** Reusing a free page: publish the header without it, then clear it. A file stopped after either write
      opens with the free list after the allocation. */
  lemma ReuseIsCrashSafe(disk: Disk, h: Header, list: seq<nat>, header: Page, blank: Page)
    requires OpensAs(disk, h, list) && h.head != 0 && h.head < |disk| && HeaderOf(header) == Some(NextHeader(disk, h))
    ensures OpensAs(Put(disk, 0, header), NextHeader(disk, h), NextList(h, list))
    ensures OpensAs(Put(Put(disk, 0, header), h.head, blank), NextHeader(disk, h), NextList(h, list))
  {
    Unlink(disk, h, list);
    PublishHeader(disk, header, NextHeader(disk, h), list[1..]);
    OverwriteData(Put(disk, 0, header), NextHeader(disk, h), list[1..], h.head, blank);
  }

  /** Growing the file: clear a new last page, then count it. A file stopped after the first write opens with
      the free list before the allocation, after the second with the one after it. */
  lemma GrowIsCrashSafe(disk: Disk, h: Header, list: seq<nat>, blank: Page, header: Page)
    requires OpensAs(disk, h, list) && h.head == 0 && h.count < MAX_PAGE_COUNT &&
      HeaderOf(header) == Some(Header(h.count + 1, 0))
    ensures OpensAs(Put(disk, h.count, blank), h, list)
    ensures OpensAs(Put(Put(disk, h.count, blank), 0, header), NextHeader(disk, h), NextList(h, list))
  {
    assert list == [];
    OverwriteData(disk, h, list, h.count, blank);
    PublishHeader(Put(disk, h.count, blank), header, NextHeader(disk, h), []);
  }

  /** Freeing: mark the page, then link it. A file stopped after the first write opens with the free list
      before, after the second the page is on the list. */
  lemma FreeIsCrashSafe(disk: Disk, h: Header, list: seq<nat>, id: PageId, mark: Page, header: Page)
    requires OpensAs(disk, h, list) && Allocated(h, list, id)
    requires FreeLink(mark) == Some(h.head) && HeaderOf(header) == Some(Header(h.count, id))
    ensures OpensAs(Put(disk, id, mark), h, list)
    ensures OpensAs(Put(Put(disk, id, mark), 0, header), Header(h.count, id), [id] + list)
  {
    OverwriteData(disk, h, list, id, mark);
    assert ([id] + list)[1..] == list;
    assert NoRepeats([id] + list);
    PublishHeader(Put(disk, id, mark), header, Header(h.count, id), [id] + list);
  }

  /** The order matters: linking the page before marking it leaves, in between, a file that does not open. */
  lemma LinkingFirstIsNotCrashSafe(disk: Disk, h: Header, list: seq<nat>, id: PageId, header: Page)
    requires OpensAs(disk, h, list) && Allocated(h, list, id) && FreeLink(disk[id]).None?
    requires HeaderOf(header) == Some(Header(h.count, id))
    ensures !Opens(Put(disk, 0, header))
  {
    forall h', list' ensures !OpensAs(Put(disk, 0, header), h', list') {}
  }

  // ---------------------------------------------------------------- pages in use

  /** Every page in use by the header keeps its bytes. */
  ghost predicate KeepsBytes(disk: Disk, disk': Disk, h: Header, list: seq<nat>) {
    forall other: nat :: Allocated(h, list, other) ==> other < |disk| && other < |disk'| && disk'[other] == disk[other]
  }

  /** The second header uses one page more than the first. */
  ghost predicate OneMore(h: Header, list: seq<nat>, h': Header, list': seq<nat>, id: nat) {
    !Allocated(h, list, id) &&
        forall other: nat :: Allocated(h', list', other) <==> Allocated(h, list, other) || other == id
  }

  lemma TwoPuts(disk: Disk, h: Header, list: seq<nat>, a: nat, x: Page, b: nat, y: Page)
    requires h.count <= |disk| && !Allocated(h, list, a) && !Allocated(h, list, b)
    ensures KeepsBytes(disk, Put(Put(disk, a, x), b, y), h, list)
  {
  }

  /** An allocation puts into use one page that was not. */
  lemma AllocateMeaning(disk: Disk, h: Header, list: seq<nat>)
    requires OpensAs(disk, h, list) && h.head < |disk|
    ensures OneMore(h, list, NextHeader(disk, h), NextList(h, list), NextPage(h))
  {
    if h.head != 0 {
      Unlink(disk, h, list);
      assert list == [h.head] + list[1..];
    } else {
      assert list == [];
    }
  }

  lemma FreeMeaning(h: Header, list: seq<nat>, id: PageId)
    requires Allocated(h, list, id)
    ensures OneMore(Header(h.count, id), [id] + list, h, list, id)
  {
  }

  /** A page that was not in use becomes the only new one, and every page in use keeps its bytes. */
  ghost predicate Allocates(disk: Disk, h: Header, disk': Disk, h': Header, id: nat) {
    exists list, list' ::
      OpensAs(disk, h, list) && OpensAs(disk', h', list') && OneMore(h, list, h', list', id) &&
          KeepsBytes(disk, disk', h, list)
  }

  /** The page leaves use, and every page still in use keeps its bytes. */
  ghost predicate Frees(disk: Disk, h: Header, disk': Disk, h': Header, id: nat) {
    exists list, list' ::
      OpensAs(disk, h, list) && OpensAs(disk', h', list') && OneMore(h', list', h, list, id) &&
          KeepsBytes(disk, disk', h', list')
  }

  lemma ReuseAllocates(disk: Disk, h: Header, list: seq<nat>, header: Page, blank: Page)
    requires OpensAs(disk, h, list) && h.head != 0 && h.head < |disk| && HeaderOf(header) == Some(NextHeader(disk, h))
    ensures Allocates(disk, h, Put(Put(disk, 0, header), h.head, blank), NextHeader(disk, h), h.head)
  {
    ReuseIsCrashSafe(disk, h, list, header, blank);
    AllocateMeaning(disk, h, list);
    TwoPuts(disk, h, list, 0, header, h.head, blank);
  }

  lemma GrowAllocates(disk: Disk, h: Header, list: seq<nat>, blank: Page, header: Page)
    requires OpensAs(disk, h, list) && h.head == 0 && h.count < MAX_PAGE_COUNT &&
      HeaderOf(header) == Some(Header(h.count + 1, 0))
    ensures Allocates(disk, h, Put(Put(disk, h.count, blank), 0, header), Header(h.count + 1, 0), h.count)
  {
    GrowIsCrashSafe(disk, h, list, blank, header);
    AllocateMeaning(disk, h, list);
    TwoPuts(disk, h, list, h.count, blank, 0, header);
  }

  lemma FreeFrees(disk: Disk, h: Header, list: seq<nat>, id: PageId, mark: Page, header: Page)
    requires OpensAs(disk, h, list) && Allocated(h, list, id)
    requires FreeLink(mark) == Some(h.head) && HeaderOf(header) == Some(Header(h.count, id))
    ensures Frees(disk, h, Put(Put(disk, id, mark), 0, header), Header(h.count, id), id)
  {
    FreeIsCrashSafe(disk, h, list, id, mark, header);
    FreeMeaning(h, list, id);
    TwoPuts(disk, Header(h.count, id), [id] + list, id, mark, 0, header);
  }
}
