/** The open page file: in-memory header, poisoning, and I/O that may fail (src/storage/page_file.cpp). */
module PageFileObject {
  import opened Common
  import opened PageLayout
  import opened FreeList
  import opened PageFiles

  /** A page write that succeeds, or that reports failure with the page untouched or written. */
  datatype Io = Done | Lost | Landed

  class PageFile {
    var disk: Disk
    var count: nat
    var head: PageId
    var isOpen: bool
    var poisoned: bool

    /** The file always opens; while the object is usable its header is the file's. */
    ghost predicate Valid()
      reads this
    {
      Opens(disk) && (isOpen && !poisoned ==> Matches(disk, count, head))
    }

    constructor (d: Disk, h: Header)
      requires Matches(d, h.count, h.head)
      ensures Valid() && disk == d && count == h.count && head == h.head && isOpen && !poisoned
    {
      disk, count, head, isOpen, poisoned := d, h.count, h.head, true, false;
    }

    method RequireOpen() returns (r: Option<FileError>)
      ensures r == if !isOpen then Some(InvalidArgument) else if poisoned then Some(Io) else None
    {
      r := if !isOpen then Some(InvalidArgument) else if poisoned then Some(FileError.Io) else None;
    }

    method WriteRaw(id: nat, page: Page, io: Io) returns (ok: bool)
      modifies this`disk
      ensures ok == io.Done? && disk == if io.Lost? then old(disk) else Put(old(disk), id, page)
    {
      if !io.Lost? {
        disk := Put(disk, id, page);
      }
      ok := io.Done?;
    }

    /** is_free_page_locked: while the object is usable the walk always finds the list. */
    method IsFree(id: nat) returns (r: Result<bool, FileError>, ghost list: seq<nat>)
      requires Valid() && isOpen && !poisoned
      ensures OpensAs(disk, Header(count, head), list)
      ensures r == Ok(id in list)
    {
      ghost var known :| OpensAs(disk, Header(count, head), known);
      var walk := Walk(disk, count, head);
      match walk
      case NotAList =>
        r, list := Err(Corrupt), known;
      case Walked(found) =>
        ListIsUnique(disk, count, head, found, known);
        r, list := Ok(id in found), known;
    }

    /** page_allocation_state. */
    method AllocationState(id: nat) returns (r: Result<bool, FileError>, ghost list: seq<nat>)
      requires Valid() && isOpen && !poisoned
      ensures OpensAs(disk, Header(count, head), list)
      ensures r == if 0 < id < count then Ok(Allocated(Header(count, head), list, id)) else Err(InvalidArgument)
    {
      var free;
      free, list := IsFree(id);
      if id == 0 || id >= count {
        return Err(InvalidArgument), list;
      }
      match free
      case Err(error) => r := Err(error);
      case Ok(isFree) => r := Ok(!isFree);
    }

    /** allocate_page_locked, with the outcome of each of its two writes. */
    method AllocatePage(first: Io, second: Io) returns (r: Result<nat, FileError>)
      requires Valid()
      modifies this
      ensures Valid() && isOpen == old(isOpen)
      ensures r.Ok? <==>
        old(isOpen && !poisoned && (head != 0 || count < MAX_PAGE_COUNT)) && first.Done? &&
        second.Done?
      ensures r.Ok? ==> Allocates(old(disk), old(Header(count, head)), disk, Header(count, head), r.value)
      ensures r.Err? ==> count == old(count) && (head == old(head) || poisoned)
    {
      var closed := RequireOpen();
      if closed.Some? {
        return Err(closed.value);
      }
      if head != 0 {
        r := ReusePage(first, second);
      } else {
        if count >= MAX_PAGE_COUNT {
          return Err(InvalidArgument);
        }
        r := GrowFile(first, second);
      }
    }

    method ReusePage(first: Io, second: Io) returns (r: Result<nat, FileError>)
      requires Valid() && isOpen && !poisoned && head != 0
      modifies this
      ensures Valid() && isOpen && count == old(count)
      ensures r.Ok? <==> first.Done? && second.Done?
      ensures r.Ok? ==> Allocates(old(disk), old(Header(count, head)), disk, Header(count, head), r.value)
      ensures r.Err? ==> poisoned
    {
      ghost var list :| OpensAs(disk, Header(count, head), list);
      ghost var h, d := Header(count, head), disk;
      Unlink(d, h, list);
      var page, next := head, FreeLink(disk[head]).value;
      var header := MakeHeader(Header(count, next));
      ReuseIsCrashSafe(d, h, list, header, ZeroPage());
      ReuseAllocates(d, h, list, header, ZeroPage());
      var ok := WriteRaw(0, header, first);
      if !ok {
        poisoned := true;
        return Err(FileError.Io);
      }
      head := next;
      ok := WriteRaw(page, ZeroPage(), second);
      if !ok {
        poisoned := true;
        return Err(FileError.Io);
      }
      r := Ok(page);
    }

    method GrowFile(first: Io, second: Io) returns (r: Result<nat, FileError>)
      requires Valid() && isOpen && !poisoned && head == 0 && count < MAX_PAGE_COUNT
      modifies this
      ensures Valid() && isOpen
      ensures r.Ok? <==> first.Done? && second.Done?
      ensures r.Ok? ==> Allocates(old(disk), old(Header(count, head)), disk, Header(count, head), r.value)
      ensures r.Err? ==> count == old(count) && head == old(head)
    {
      ghost var list :| OpensAs(disk, Header(count, head), list);
      ghost var h, d := Header(count, head), disk;
      var page := count;
      var header := MakeHeader(Header(count + 1, head));
      GrowIsCrashSafe(d, h, list, ZeroPage(), header);
      GrowAllocates(d, h, list, ZeroPage(), header);
      var ok := WriteRaw(page, ZeroPage(), first);
      if !ok {
        return Err(FileError.Io);
      }
      ok := WriteRaw(0, header, second);
      if !ok {
        poisoned := true;
        return Err(FileError.Io);
      }
      count := count + 1;
      r := Ok(page);
    }

    /** write_page_locked: only pages in use are written, so the free list survives whatever the bytes are. */
    method WritePage(id: nat, page: Page, io: Io) returns (r: Option<FileError>)
      requires Valid()
      modifies this`disk
      ensures Valid()
      ensures r.None? <==> isOpen && !poisoned && InUse(old(disk), Header(count, head), id) && io.Done?
      ensures r.None? ==> id < |old(disk)| && disk == old(disk)[id := page]
      ensures r.Some? ==> disk == old(disk) || (io.Landed? && id < |old(disk)| && disk == old(disk)[id := page])
    {
      var closed := RequireOpen();
      if closed.Some? {
        return closed;
      }
      ghost var list;
      var state;
      state, list := AllocationState(id);
      InUseIff(disk, Header(count, head), list, id);
      match state
      case Err(error) =>
        r := Some(error);
      case Ok(inUse) =>
        if !inUse {
          return Some(InvalidArgument);
        }
        OverwriteData(disk, Header(count, head), list, id, page);
        var ok := WriteRaw(id, page, io);
        r := if ok then None else Some(FileError.Io);
    }

    /** free_page_locked. */
    method FreePageAt(id: PageId, first: Io, second: Io) returns (r: Option<FileError>)
      requires Valid()
      modifies this
      ensures Valid() && isOpen == old(isOpen)
      ensures r.None? <==>
        old(isOpen && !poisoned) && InUse(old(disk), old(Header(count, head)), id) && first.Done? && second.Done?
      ensures r.None? ==> Frees(old(disk), old(Header(count, head)), disk, Header(count, head), id)
      ensures r.Some? ==> count == old(count) && head == old(head)
    {
      var closed := RequireOpen();
      if closed.Some? {
        return closed;
      }
      ghost var list;
      var state;
      state, list := AllocationState(id);
      InUseIff(disk, Header(count, head), list, id);
      match state
      case Err(error) =>
        r := Some(error);
      case Ok(inUse) =>
        if !inUse {
          return Some(InvalidArgument);
        }
        r := LinkPage(id, first, second, list);
    }

    method LinkPage(id: PageId, first: Io, second: Io, ghost list: seq<nat>) returns (r: Option<FileError>)
      requires isOpen && !poisoned && OpensAs(disk, Header(count, head), list) &&
        Allocated(Header(count, head), list, id)
      modifies this
      ensures Valid() && isOpen
      ensures r.None? <==> first.Done? && second.Done?
      ensures r.None? ==> Frees(old(disk), old(Header(count, head)), disk, Header(count, head), id)
      ensures r.Some? ==> count == old(count) && head == old(head)
    {
      ghost var h, d := Header(count, head), disk;
      var mark := MakeFree(head);
      var header := MakeHeader(Header(count, id));
      FreeIsCrashSafe(d, h, list, id, mark, header);
      FreeFrees(d, h, list, id, mark, header);
      var ok := WriteRaw(id, mark, first);
      if !ok {
        return Some(FileError.Io);
      }
      ok := WriteRaw(0, header, second);
      if !ok {
        poisoned := true;
        return Some(FileError.Io);
      }
      head := id;
      r := None;
    }
  }

  /** The page is a data page off the free list. */
  ghost predicate InUse(disk: Disk, h: Header, id: nat) {
    exists list :: OpensAs(disk, h, list) && Allocated(h, list, id)
  }

  /** There is only one free list to be off. */
  lemma InUseIff(disk: Disk, h: Header, list: seq<nat>, id: nat)
    requires OpensAs(disk, h, list)
    ensures InUse(disk, h, id) <==> Allocated(h, list, id)
  {
    forall other | OpensAs(disk, h, other) ensures other == list {
      ListIsUnique(disk, h.count, h.head, other, list);
    }
  }

  ghost predicate Matches(disk: Disk, count: nat, head: PageId) {
    exists list :: OpensAs(disk, Header(count, head), list)
  }
}
