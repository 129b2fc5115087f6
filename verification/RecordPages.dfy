/** One record page: rows in, rows out of a slotted page (src/storage/record_page.cpp). */
module RecordPages {
  import opened Common
  import opened Values
  import opened PageLayout
  import opened PageCells
  import opened SlottedPages
  import opened SlottedUpdates
  import opened SlottedCompaction
  import opened HeapRows
  import RecordCodec
  import CodecLoops

  /** The page with this id stores the cells. */
  ghost predicate Holds(p: Page, id: nat, cells: seq<Cell>) {
    0 < id < 0x1_0000_0000 && Stores(p, id, cells)
  }

  /** The page layer as the table sees it: only that a page holds cells, not how. */
  type PageView = (Page, nat, seq<Cell>) -> bool

  ghost predicate IsView(view: PageView) {
    forall p, id, cells {:trigger Holds(p, id, cells)} :: view(p, id, cells) <==> Holds(p, id, cells)
  }

  /** The codec as the table sees it. */
  ghost predicate IsReader(read: Reader, s: Schema) {
    forall b {:trigger RecordCodec.Decode(s.format, s.columns, b)} :: read(b) ==
        RecordCodec.Decode(s.format, s.columns, b)
  }

  datatype PageError = BadHandle | TooLarge | Full | Damaged

  function OfCodec(e: RecordCodec.CodecError): PageError {
    match e
    case InvalidArgument => BadHandle
    case ValueTooLarge => TooLarge
    case Corrupt => Damaged
  }

  /** The encoded row: read back it is the row again. */
  method EncodeRow(s: Schema, row: seq<Value>, ghost read: Reader) returns (r: Result<seq<byte>, PageError>)
    requires IsReader(read, s)
    ensures r.Ok? <==> RecordCodec.Encodable(s.format, s.columns, row)
    ensures r.Ok? ==>
      r.value == RecordCodec.Payload(s.format, row) && read(r.value) == Ok(row) &&
      |r.value| <= MAX_PAYLOAD
  {
    var payload := CodecLoops.Encode(s.format, s.columns, row);
    match payload
    case Err(error) =>
      r := Err(OfCodec(error));
    case Ok(bytes) =>
      RecordCodec.DecodeUndoesEncode(s.format, s.columns, row);
      assert read(bytes) == RecordCodec.Decode(s.format, s.columns, bytes);
      r := Ok(bytes);
  }

  method NewPage(id: nat, ghost view: PageView) returns (p: Page)
    requires IsView(view) && 0 < id < 0x1_0000_0000
    ensures view(p, id, [])
  {
    var fault;
    p, fault := Initialize(ZeroPage(), id);
    assert Holds(p, id, []);
  }

  method InsertInPage(p: Page, id: nat, payload: seq<byte>, ghost view: PageView, ghost cells: seq<Cell>)
    returns (p': Page, h: Option<Handle>)
    requires IsView(view) && view(p, id, cells) && payload != [] && |payload| <= MAX_PAYLOAD
    ensures h.Some? <==> Fits(cells, payload)
    ensures h.Some? ==> view(p', id, InsertCell(cells, payload)) && h.value == NextHandle(cells)
  {
    assert Holds(p, id, cells);
    var r;
    p', r := InsertRecord(p, id, payload);
    if r.Err? {
      return p, None;
    }
    assert Holds(p', id, InsertCell(cells, payload));
    h := Some(r.value);
  }

  method ReplaceInPage(p: Page, id: nat, h: Handle, payload: seq<byte>, ghost view: PageView, ghost cells: seq<Cell>)
    returns (p': Page, r: Option<PageError>)
    requires IsView(view) && view(p, id, cells) && payload != [] && |payload| <= MAX_PAYLOAD
    ensures r == Some(BadHandle) <==> !IsLive(cells, h)
    ensures r.None? <==> IsLive(cells, h) && FitsReplaced(cells, h, payload)
    ensures r.None? ==> view(p', id, ReplaceCell(cells, h, payload))
    ensures r.Some? ==> p' == p
  {
    assert Holds(p, id, cells);
    var fault;
    p', fault := ReplaceRecord(p, id, h, payload);
    if fault.None? {
      assert Holds(p', id, ReplaceCell(cells, h, payload));
      return p', None;
    }
    return p, Some(if fault.value.InvalidArgument? then BadHandle else if fault.value.NoSpace? then Full else Damaged);
  }

  method EraseInPage(p: Page, id: nat, h: Handle, ghost view: PageView, ghost cells: seq<Cell>)
    returns (p': Page, ok: bool)
    requires IsView(view) && view(p, id, cells)
    ensures ok <==> IsLive(cells, h)
    ensures ok ==> view(p', id, EraseCell(cells, h))
  {
    assert Holds(p, id, cells);
    var fault;
    p', fault := EraseRecord(p, id, h);
    if fault.None? {
      assert Holds(p', id, EraseCell(cells, h));
      return p', true;
    }
    return p, false;
  }

  /** get_record: the stored payload of a live handle. */
  method ReadInPage(p: Page, id: nat, h: Handle, ghost view: PageView, ghost cells: seq<Cell>)
    returns (r: Option<seq<byte>>)
    requires IsView(view) && view(p, id, cells)
    ensures r.Some? <==> IsLive(cells, h)
    ensures r.Some? ==> r.value == cells[h.slot].payload
  {
    assert Holds(p, id, cells);
    assert h in Contents(cells) <==> IsLive(cells, h);
    var got := Get(p, id, h);
    r := if got.Ok? then Some(got.value) else None;
  }

  /** next_live_slot: the first live position from `start` on. */
  method NextInPage(p: Page, id: nat, start: nat, ghost view: PageView, ghost cells: seq<Cell>)
    returns (r: Result<Option<Handle>, PageError>, next: nat)
    requires IsView(view) && view(p, id, cells)
    ensures r.Ok? <==> start <= |cells|
    ensures |cells| <= MAX_SLOTS
    ensures r.Ok? ==> next == match NextLive(cells, start) { case None => |cells| case Some(i) => i + 1 }
    ensures r.Ok? ==>
      r.value ==
      match NextLive(cells, start) { case None => None case Some(i) => Some(Handle(i, cells[i].generation)) }
  {
    assert Holds(p, id, cells);
    var found;
    found, next := NextLiveSlot(p, id, start);
    r := if found.Ok? then Ok(found.value) else Err(BadHandle);
  }
}
