/** The heap table over the pages of a coherent pool: a map from record id to row (src/storage/heap_table.cpp). */
module HeapTables {
  import opened Common
  import opened Values
  import opened PageLayout
  import opened PageCells
  import opened SlottedPages
  import opened HeapModel
  import opened HeapRows
  import opened RecordPages
  import RecordCodec

  type Row = seq<Value>

  datatype HeapError = BadArgument | ValueTooLarge | Unavailable | Corrupted

  const MAX_PAGES: nat := 0x1_0000_0000

  /** Every page in use holds its cells. */
  ghost predicate Stored(pages: map<nat, Page>, t: Table, count: nat, view: PageView) {
    && 0 < count <= MAX_PAGES && pages.Keys == t.Keys
    && (forall id :: id in pages ==> 0 < id < count && view(pages[id], id, t[id]))
  }

  function OfPage(e: PageError): HeapError {
    match e
    case BadHandle => BadArgument
    case TooLarge => ValueTooLarge
    case Full => ValueTooLarge
    case Damaged => Corrupted
  }

  datatype Position = Position(page: nat, slot: nat, end: nat)

  datatype Record = Record(rid: Rid, row: Row)

  /** How the file and the pool behave during one insertion: which pages can be looked up and fetched, the
      free page an allocation takes before the file grows, and whether each step of a new page succeeds. */
  datatype HeapIo = HeapIo(fetches: nat -> bool, free: Option<nat>, allocates: bool, bootstraps: bool, refetches: bool)

  // ---------------------------------------------------------------- what an insertion does

  /** The row can be stored in a page at all. */
  predicate Storable(s: Schema, row: Row) {
    RecordCodec.Encodable(s.format, s.columns, row) && RecordCodec.Payload(s.format, row) != []
  }

  /** The page at which the search ends: one that cannot be fetched, or the first with room; else the count. */
  ghost function SearchEnd(t: Table, count: nat, payload: seq<byte>, fetches: nat -> bool, from: nat): (id: nat)
    ensures from <= count ==> from <= id <= count
    decreases count - from
  {
    if from >= count || !fetches(from) || (from in t && Fits(t[from], payload)) then from
    else SearchEnd(t, count, payload, fetches, from + 1)
  }

  /** The page an allocation returns. */
  ghost function AllocatedPage(t: Table, count: nat, io: HeapIo): nat {
    if io.free.Some? && 0 < io.free.value < count && io.free.value !in t then io.free.value else count
  }

  ghost predicate CanCreate(t: Table, count: nat, io: HeapIo) {
    io.allocates && AllocatedPage(t, count, io) < MAX_PAGES && io.bootstraps && io.refetches
  }

  /** The insertion of a storable row succeeds: where the search ends, or on a new page. */
  ghost predicate Placeable(t: Table, count: nat, payload: seq<byte>, io: HeapIo) {
    var id := SearchEnd(t, count, payload, io.fetches, 1);
    if id < count then io.fetches(id) else CanCreate(t, count, io)
  }

  // ---------------------------------------------------------------- scan positions

  /** The checks next_record makes on a position. */
  predicate PositionOk(p: Position, count: nat) {
    1 <= p.page <= p.end <= count && p.slot <= MAX_SLOTS && (p.page == p.end ==> p.slot == 0)
  }

  /** The slot lies within its page's directory. */
  ghost predicate Reaches(t: Table, p: Position) {
    p.page in t && p.page < p.end ==> p.slot <= |t[p.page]|
  }

  /** Nothing goes wrong below the table, and the file can still grow. */
  ghost predicate Healthy(io: HeapIo, count: nat) {
    (forall id :: io.fetches(id)) && io.allocates && io.bootstraps && io.refetches && count < MAX_PAGES
  }

  /** Over a healthy pool every storable row finds a place. */
  lemma HealthyIsPlaceable(t: Table, count: nat, payload: seq<byte>, io: HeapIo)
    requires Healthy(io, count) && 0 < count
    ensures Placeable(t, count, payload, io)
  {
  }

  class HeapTable {
    const schema: Schema
    ghost const view: PageView
    ghost const read: Reader
    var pages: map<nat, Page>
    var count: nat
    ghost var table: Table

    ghost predicate Valid()
      reads this
    {
      IsView(view) && IsReader(read, schema) && Stored(pages, table, count, view) && Decodable(read, table)
    }

    /** The map the table stands for. */
    ghost function Rows(): imap<Rid, Row>
      reads this
      requires Valid()
    {
      RowsOf(read, table)
    }

    constructor (s: Schema)
      ensures Valid() && schema == s && table == map[] && count == 1
    {
      schema, pages, count, table := s, map[], 1, map[];
      view := (p: Page, id: nat, cells: seq<Cell>) => Holds(p, id, cells);
      read := b => RecordCodec.Decode(s.format, s.columns, b);
    }

    // -------------------------------------------------------------- insertion

    method TryPage(id: nat, payload: seq<byte>, ghost row: Row) returns (r: Option<Rid>)
      requires Valid() && id in pages && payload != [] && |payload| <= PageCells.MAX_PAYLOAD && read(payload) == Ok(row)
      modifies this`pages, this`table
      ensures Valid()
      ensures r.Some? <==> Fits(old(table)[id], payload)
      ensures r.None? ==> pages == old(pages) && table == old(table)
      ensures r.Some? ==> Inserted(read, old(table), table, r.value, row) && r.value.page == id
    {
      var p, h := InsertInPage(pages[id], id, payload, view, table[id]);
      if h.None? {
        return None;
      }
      InsertRow(read, table, id, payload, row);
      pages, table := pages[id := p], table[id := InsertCell(table[id], payload)];
      r := Some(Rid(id, h.value.slot, h.value.generation));
    }

    /** First fit over the pages in use; the search stops at a page that cannot be fetched. */
    method FirstFit(payload: seq<byte>, fetches: nat -> bool, ghost row: Row)
      returns (r: Result<Option<Rid>, HeapError>)
      requires Valid() && payload != [] && |payload| <= PageCells.MAX_PAYLOAD && read(payload) == Ok(row)
      modifies this`pages, this`table
      ensures Valid()
      ensures var end := SearchEnd(old(table), count, payload, fetches, 1);
              if end == count then r == Ok(None)
              else if !fetches(end) then r == Err(Unavailable)
              else
                && r.Ok? && r.value.Some? && r.value.value.page == end
                && Inserted(read, old(table), table, r.value.value, row)
      ensures r.Err? || r.value.None? ==> pages == old(pages) && table == old(table)
    {
      ghost var end := SearchEnd(table, count, payload, fetches, 1);
      var id := 1;
      while id < count
        invariant 1 <= id <= count && pages == old(pages) && table == old(table) && Valid()
        invariant end == SearchEnd(table, count, payload, fetches, id)
      {
        if !fetches(id) {
          return Err(Unavailable);
        }
        if id in pages {
          var tried := TryPage(id, payload, row);
          if tried.Some? {
            return Ok(tried);
          }
        }
        id := id + 1;
      }
      return Ok(None);
    }

    /** allocate_page: the head of the free list, or the page after the last. */
    method AllocatePage(io: HeapIo) returns (r: Option<nat>)
      requires Valid()
      ensures r == if io.allocates &&
        AllocatedPage(table, count, io) < MAX_PAGES then Some(AllocatedPage(table, count, io)) else None
    {
      if !io.allocates {
        return None;
      }
      if io.free.Some? && 0 < io.free.value < count && io.free.value !in pages {
        return io.free;
      }
      return if count >= MAX_PAGES then None else Some(count);
    }

    /** create_record_page: every failure leaves the rows as they were; a new page always has room. */
    method CreatePage(payload: seq<byte>, io: HeapIo, ghost row: Row) returns (r: Result<Rid, HeapError>)
      requires Valid() && payload != [] && |payload| <= PageCells.MAX_PAYLOAD && read(payload) == Ok(row)
      modifies this
      ensures Valid()
      ensures r.Ok? <==> CanCreate(old(table), old(count), io)
      ensures r.Ok? ==>
        Inserted(read, old(table), table, r.value, row) &&
        r.value.page == AllocatedPage(old(table), old(count), io)
      ensures r.Err? ==> r.error == Unavailable && Unchanged(read, old(table), table)
      ensures old(count) <= count
    {
      var granted := AllocatePage(io);
      if granted.None? {
        return Err(Unavailable);
      }
      var id := granted.value;
      if id == count {
        count := count + 1;
      }
      if !io.bootstraps {
        // the page was given back
        return Err(Unavailable);
      }
      var blank := NewPage(id, view);
      EmptyPageAdded(read, table, id);
      InsertIntoNew(read, table, id, payload, row);
      if !io.refetches {
        // the page stays, empty
        pages, table := pages[id := blank], table[id := []];
        return Err(Unavailable);
      }
      var rid := FillPage(blank, id, payload);
      r := Ok(rid);
    }

    /** The first record of a page. */
    method FillPage(blank: Page, id: nat, payload: seq<byte>) returns (rid: Rid)
      requires IsView(view) && view(blank, id, []) && payload != [] && |payload| <= PageCells.MAX_PAYLOAD
      modifies this`pages, this`table
      ensures id in pages && view(pages[id], id, InsertCell([], payload))
      ensures pages == old(pages)[id := pages[id]] && table == old(table)[id := InsertCell([], payload)]
      ensures rid == Rid(id, NextHandle([]).slot, NextHandle([]).generation)
    {
      FitsEmptyPage(payload);
      var p, h := InsertInPage(blank, id, payload, view, []);
      pages, table := pages[id := p], table[id := InsertCell([], payload)];
      rid := Rid(id, h.value.slot, h.value.generation);
    }

    /** HeapTable::insert_record: a storable row gets, on the first page with room or on a new one, an id never
        issued before, and nothing else changes; on any failure the rows and the issued ids are as before. */
    method Insert(row: Row, io: HeapIo) returns (r: Result<Rid, HeapError>)
      requires Valid()
      modifies this
      ensures Valid()
      ensures r.Ok? <==>
        Storable(schema, row) &&
        Placeable(old(table), old(count), RecordCodec.Payload(schema.format, row), io)
      ensures r.Ok? ==> Inserted(read, old(table), table, r.value, row)
      ensures r.Err? ==> Unchanged(read, old(table), table)
      ensures r.Err? ==> (r.error == Unavailable <==> Storable(schema, row))
      ensures old(count) <= count
    {
      var payload := EncodeRow(schema, row, read);
      if payload.Err? {
        return Err(OfPage(payload.error));
      }
      if payload.value == [] {
        return Err(BadArgument);
      }
      var placed := FirstFit(payload.value, io.fetches, row);
      if placed.Err? {
        return Err(placed.error);
      }
      if placed.value.Some? {
        return Ok(placed.value.value);
      }
      r := CreatePage(payload.value, io, row);
    }

    // -------------------------------------------------------------- deletion and update

    /** HeapTable::delete_record; `fetched` tells whether the record's page can be fetched. */
    method Delete(rid: Rid, fetched: bool) returns (r: Option<HeapError>)
      requires Valid()
      modifies this
      ensures Valid() && count == old(count)
      ensures r.None? <==> rid in old(Rows()) && fetched
      ensures r.None? ==> Rows() == old(Rows()) - {rid} && SameIssued(old(table), table)
      ensures r.Some? ==> table == old(table) && r.value == if rid.page in table &&
        !fetched then Unavailable else BadArgument
    {
      if rid.page !in pages {
        return Some(BadArgument);
      }
      if !fetched {
        return Some(Unavailable);
      }
      var page, h := pages[rid.page], HandleOf(rid);
      var found := ReadInPage(page, rid.page, h, view, table[rid.page]);
      if found.None? {
        return Some(BadArgument);
      }
      var p, ok := EraseInPage(page, rid.page, h, view, table[rid.page]);
      EraseRow(read, table, rid);
      pages, table := pages[rid.page := p], table[rid.page := EraseCell(table[rid.page], h)];
      r := None;
    }

    /** HeapTable::update_record: the row stays on its page, so it must fit there. */
    method Update(rid: Rid, row: Row, fetched: bool) returns (r: Option<HeapError>)
      requires Valid()
      modifies this
      ensures Valid() && count == old(count)
      ensures r.None? <==>
        && rid in old(Rows()) && fetched && Storable(schema, row)
        && FitsReplaced(old(table)[rid.page], HandleOf(rid), RecordCodec.Payload(schema.format, row))
      ensures r.None? ==> Rows() == old(Rows())[rid := row] && SameIssued(old(table), table)
      ensures r.Some? ==> table == old(table)
      ensures r == Some(Unavailable) <==> Storable(schema, row) && rid.page in old(table) && !fetched
    {
      var payload := EncodeRow(schema, row, read);
      if payload.Err? {
        return Some(OfPage(payload.error));
      }
      if rid.page !in pages || payload.value == [] {
        return Some(BadArgument);
      }
      if !fetched {
        return Some(Unavailable);
      }
      var h := HandleOf(rid);
      var p, fault := ReplaceInPage(pages[rid.page], rid.page, h, payload.value, view, table[rid.page]);
      if fault.Some? {
        return Some(OfPage(fault.value));
      }
      ReplaceRow(read, table, rid, payload.value, row);
      pages, table := pages[rid.page := p], table[rid.page := ReplaceCell(table[rid.page], h, payload.value)];
      r := None;
    }

    // -------------------------------------------------------------- scanning

    method BeginScan() returns (p: Position)
      requires Valid()
      ensures p == Position(1, 0, count)
    {
      p := Position(1, 0, count);
    }

    /** HeapTable::next_record: the first live record from the position on, and the position behind it.
        A position that is no scan position is refused. */
    method NextRecord(p: Position, fetches: nat -> bool) returns (r: Result<Option<Record>, HeapError>, next: Position)
      requires Valid()
      ensures r.Ok? ==> PositionOk(p, count) && Reaches(table, p)
      ensures PositionOk(p, count) && Reaches(table, p) && (forall id :: fetches(id)) ==> r.Ok?
      ensures r.Err? ==> next == p
      ensures r.Ok? && r.value.None? ==> ScanFrom(table, p.page, p.slot, p.end) == []
      ensures r.Ok? && r.value.Some? ==>
        && PositionOk(next, count) && Reaches(table, next) && next.end == p.end
        && ScanFrom(table, p.page, p.slot, p.end) == [r.value.value.rid] + ScanFrom(table, next.page, next.slot, p.end)
        && r.value.value.rid in Rows() && Rows()[r.value.value.rid] == r.value.value.row
    {
      if !PositionOk(p, count) {
        return Err(BadArgument), p;
      }
      var candidate := p;
      while candidate.page < candidate.end
        invariant PositionOk(candidate, count) && candidate.end == p.end
        invariant Reaches(table, p) ==> Reaches(table, candidate)
        invariant candidate == p || Reaches(table, p)
        invariant ScanFrom(table, p.page, p.slot, p.end) == ScanFrom(table, candidate.page, candidate.slot, p.end)
        decreases candidate.end - candidate.page
      {
        var id := candidate.page;
        if !fetches(id) {
          return Err(Unavailable), p;
        }
        if id in pages {
          var ok, record, after := NextOnPage(id, candidate.slot, p.end);
          if !ok {
            return Err(BadArgument), p;
          }
          if record.Some? {
            return Ok(record), Position(id, after, p.end);
          }
        }
        candidate := Position(candidate.page + 1, 0, p.end);
      }
      return Ok(None), candidate;
    }

    /** The first live record of the page from the slot on, if there is one; a slot beyond the directory is refused. */
    method NextOnPage(id: nat, slot: nat, ghost end: nat) returns (ok: bool, r: Option<Record>, after: nat)
      requires Valid() && id in pages && id < end
      ensures ok <==> slot <= |table[id]|
      ensures ok && r.None? ==> ScanFrom(table, id, slot, end) == ScanFrom(table, id + 1, 0, end)
      ensures ok && r.Some? ==>
        && after <= |table[id]| <= MAX_SLOTS
        && ScanFrom(table, id, slot, end) == [r.value.rid] + ScanFrom(table, id, after, end)
        && r.value.rid in Rows() && Rows()[r.value.rid] == r.value.row
    {
      var found;
      found, after := NextInPage(pages[id], id, slot, view, table[id]);
      if found.Err? {
        return false, None, 0;
      }
      ScanPageStep(table[id], id, slot);
      if found.value.None? {
        return true, None, after;
      }
      var h := found.value.value;
      var payload := ReadInPage(pages[id], id, h, view, table[id]);
      var row := ReadRow(payload.value);
      ScanFromStep(table, id, slot, after, end, Rid(id, h.slot, h.generation));
      return true, Some(Record(Rid(id, h.slot, h.generation), row)), after;
    }

    /** RecordCodec::decode on a stored payload cannot fail. */
    method ReadRow(payload: seq<byte>) returns (row: Row)
      requires IsReader(read, schema) && read(payload).Ok?
      ensures read(payload) == Ok(row)
    {
      assert read(payload) == RecordCodec.Decode(schema.format, schema.columns, payload);
      row := RecordCodec.Decode(schema.format, schema.columns, payload).value;
    }
  }

  // ---------------------------------------------------------------- batches

  /** The map with each id of the list mapped to its row, in order. */
  ghost function PutRows(m: imap<Rid, Row>, rids: seq<Rid>, rows: seq<Row>): imap<Rid, Row>
    requires |rids| == |rows|
  {
    if rids == [] then m
    else PutRows(m, rids[..|rids| - 1], rows[..|rows| - 1])[rids[|rids| - 1] := rows[|rows| - 1]]
  }

  ghost function RemoveRows(m: imap<Rid, Row>, rids: seq<Rid>): imap<Rid, Row> {
    if rids == [] then m else RemoveRows(m, rids[..|rids| - 1]) - {rids[|rids| - 1]}
  }

  /** The rows are there under the ids, which are all new and all different; all else is as it was. */
  ghost predicate InsertedAll(d: Reader, t: Table, t': Table, rids: seq<Rid>, rows: seq<Row>)
    requires Decodable(d, t)
  {
    && Decodable(d, t') && |rids| == |rows| && RowsOf(d, t') == PutRows(RowsOf(d, t), rids, rows)
    && (forall i :: 0 <= i < |rids| ==> !IssuedIn(t, rids[i]))
    && (forall i, j :: 0 <= i < j < |rids| ==> rids[i] != rids[j])
    && (forall q: Rid :: IssuedIn(t', q) <==> IssuedIn(t, q) || q in rids)
  }

  ghost predicate AllStorable(s: Schema, rows: seq<Row>) {
    forall i :: 0 <= i < |rows| ==> Storable(s, rows[i])
  }

  lemma StorableOneMore(s: Schema, rows: seq<Row>, i: nat)
    requires i < |rows| && AllStorable(s, rows[..i]) && Storable(s, rows[i])
    ensures AllStorable(s, rows[..i + 1])
  {
    var more := rows[..i + 1];
    forall k | 0 <= k < |more| ensures Storable(s, more[k]) {
      if k < i {
        assert Storable(s, rows[..i][k]);
      }
    }
  }

  lemma InsertedNone(d: Reader, t: Table)
    requires Decodable(d, t)
    ensures InsertedAll(d, t, t, [], [])
  {
  }

  lemma InsertedOneMore(d: Reader, t: Table, t': Table, t'': Table, rids: seq<Rid>, rows: seq<Row>, i: nat, rid: Rid)
    requires i < |rows| && Decodable(d, t) && InsertedAll(d, t, t', rids, rows[..i]) &&
      Inserted(d, t', t'', rid, rows[i])
    ensures InsertedAll(d, t, t'', rids + [rid], rows[..i + 1])
  {
    assert (rids + [rid])[..|rids|] == rids && rows[..i + 1][..i] == rows[..i];
    assert forall k :: 0 <= k < |rids| ==> rids[k] in rids;
  }

  lemma InsertedStays(d: Reader, t: Table, t': Table, t'': Table, rids: seq<Rid>, rows: seq<Row>)
    requires Decodable(d, t) && InsertedAll(d, t, t', rids, rows) && Unchanged(d, t', t'')
    ensures InsertedAll(d, t, t'', rids, rows)
  {
  }

  /** Why an insertion fails. */
  ghost predicate RightlyRefused(s: Schema, row: Row, io: HeapIo, count: nat, error: HeapError) {
    && (!Storable(s, row) || !Healthy(io, count))
    && (error == Unavailable <==> Storable(s, row))
  }

  /** Insertion i of a batch that started at table `start`. */
  method InsertNext(heap: HeapTable, rows: seq<Row>, i: nat, io: HeapIo, ghost start: Table, rids: seq<Rid>)
    returns (r: seq<Rid>, error: Option<HeapError>)
    requires heap.Valid() && i < |rows| && Decodable(heap.read, start) &&
      InsertedAll(heap.read, start, heap.table, rids, rows[..i])
    requires AllStorable(heap.schema, rows[..i])
    modifies heap
    ensures heap.Valid()
    ensures error.None? ==>
      AllStorable(heap.schema, rows[..i + 1]) && |r| == i + 1 &&
      InsertedAll(heap.read, start, heap.table, r, rows[..i + 1])
    ensures error.Some? ==> r == rids && InsertedAll(heap.read, start, heap.table, r, rows[..i])
    ensures error.Some? ==> RightlyRefused(heap.schema, rows[i], io, heap.count, error.value)
  {
    ghost var t, count := heap.table, heap.count;
    var placed := heap.Insert(rows[i], io);
    if placed.Ok? {
      InsertedOneMore(heap.read, start, t, heap.table, rids, rows, i, placed.value);
      StorableOneMore(heap.schema, rows, i);
      return rids + [placed.value], None;
    }
    InsertedStays(heap.read, start, t, heap.table, rids, rows[..i]);
    if Healthy(io, count) {
      HealthyIsPlaceable(t, count, RecordCodec.Payload(heap.schema.format, rows[i]), io);
    }
    return rids, Some(placed.error);
  }

  /** HeapTable::insert_batch: exactly the reported prefix has been inserted, under ids new to the table, and
      the batch stops only at a row that cannot be stored or when something below the table fails. */
  method InsertBatch(heap: HeapTable, rows: seq<Row>, io: seq<HeapIo>)
    returns (rids: seq<Rid>, error: Option<HeapError>)
    requires heap.Valid() && |io| == |rows|
    modifies heap
    ensures heap.Valid() && |rids| <= |rows| && (error.None? <==> |rids| == |rows|)
    ensures InsertedAll(heap.read, old(heap.table), heap.table, rids, rows[..|rids|])
    ensures AllStorable(heap.schema, rows[..|rids|])
    ensures error.Some? ==> RightlyRefused(heap.schema, rows[|rids|], io[|rids|], heap.count, error.value)
  {
    rids, error := [], None;
    var i := 0;
    InsertedNone(heap.read, heap.table);
    assert rows[..0] == [];
    while i < |rows|
      invariant |rids| == i <= |rows| && heap.Valid() && error.None?
      invariant InsertedAll(heap.read, old(heap.table), heap.table, rids, rows[..i])
      invariant AllStorable(heap.schema, rows[..i])
    {
      rids, error := InsertNext(heap, rows, i, io[i], old(heap.table), rids);
      if error.Some? {
        return;
      }
      i := i + 1;
    }
  }

  /** HeapTable::delete_batch: exactly the reported prefix is gone, and the batch stops only at a record that
      is not there (any more) or whose page cannot be fetched. */
  method DeleteBatch(heap: HeapTable, rids: seq<Rid>, fetched: seq<bool>)
    returns (deleted: nat, error: Option<HeapError>)
    requires heap.Valid() && |fetched| == |rids|
    modifies heap
    ensures heap.Valid() && deleted <= |rids| && (error.None? <==> deleted == |rids|)
    ensures heap.Rows() == RemoveRows(old(heap.Rows()), rids[..deleted])
    ensures error.Some? ==> rids[deleted] !in heap.Rows() || !fetched[deleted]
  {
    deleted := 0;
    while deleted < |rids|
      invariant deleted <= |rids| && heap.Valid()
      invariant heap.Rows() == RemoveRows(old(heap.Rows()), rids[..deleted])
    {
      error := heap.Delete(rids[deleted], fetched[deleted]);
      if error.Some? {
        return;
      }
      assert rids[..deleted + 1][..deleted] == rids[..deleted];
      deleted := deleted + 1;
    }
    error := None;
  }

  /** The first pass of update_batch accepts the whole request. */
  ghost predicate UpdatesOk(heap: HeapTable, rids: seq<Rid>, rows: seq<Row>, fetched: seq<bool>)
    reads heap
    requires heap.Valid() && |rids| == |rows| == |fetched|
  {
    forall i :: 0 <= i < |rids| ==> UpdateOk(heap, rids, rows, fetched, i)
  }

  /** No earlier update has this one's id, its record is there and its row can be encoded. */
  ghost predicate UpdateOk(heap: HeapTable, rids: seq<Rid>, rows: seq<Row>, fetched: seq<bool>, i: nat)
    reads heap
    requires heap.Valid() && i < |rids| == |rows| == |fetched|
  {
    && (forall k :: 0 <= k < i ==> rids[k] != rids[i])
    && fetched[i] && rids[i] in heap.Rows() && Encodes(heap.schema, rows[i])
  }

  predicate Encodes(s: Schema, row: Row) {
    RecordCodec.Encodable(s.format, s.columns, row)
  }

  /** Why update_record fails on a row that validate_update accepted. */
  ghost predicate UpdateRefused(heap: HeapTable, rid: Rid, row: Row, fetched: bool)
    reads heap
    requires heap.Valid()
  {
    !fetched || rid !in heap.Rows() || !RoomFor(heap, rid, row)
  }

  /** Update i of a batch that started at the map `start`. */
  method UpdateNext(heap: HeapTable, rids: seq<Rid>, rows: seq<Row>, i: nat, fetched: bool, ghost start: imap<Rid, Row>)
    returns (error: Option<HeapError>)
    requires heap.Valid() && i < |rids| == |rows| && heap.Rows() == PutRows(start, rids[..i], rows[..i])
    modifies heap
    ensures heap.Valid()
    ensures error.None? ==> heap.Rows() == PutRows(start, rids[..i + 1], rows[..i + 1])
    ensures error.Some? ==> heap.Rows() == PutRows(start, rids[..i], rows[..i])
    ensures error.Some? && Encodes(heap.schema, rows[i]) ==> UpdateRefused(heap, rids[i], rows[i], fetched)
  {
    error := heap.Update(rids[i], rows[i], fetched);
    assert rids[..i + 1][..i] == rids[..i] && rows[..i + 1][..i] == rows[..i];
  }

  /** HeapTable::update_batch: ids are checked for repeats and all rows validated before anything is written;
      after that exactly the reported prefix is updated. */
  method UpdateBatch(heap: HeapTable, rids: seq<Rid>, rows: seq<Row>, checked: seq<bool>, fetched: seq<bool>)
    returns (updated: nat, error: Option<HeapError>)
    requires heap.Valid() && |rids| == |rows| == |fetched| == |checked|
    modifies heap
    ensures heap.Valid() && updated <= |rows| && (error.None? ==> updated == |rows|)
    ensures heap.Rows() == PutRows(old(heap.Rows()), rids[..updated], rows[..updated])
    ensures !old(UpdatesOk(heap, rids, rows, checked)) ==> error.Some? && updated == 0 && heap.table == old(heap.table)
    ensures old(UpdatesOk(heap, rids, rows, checked)) && error.Some? ==>
      updated < |rows| && UpdateRefused(heap, rids[updated], rows[updated], fetched[updated])
  {
    error := ValidateUpdates(heap, rids, rows, checked);
    updated := 0;
    if error.Some? {
      return;
    }
    forall i | 0 <= i < |rows| ensures Encodes(heap.schema, rows[i]) {
      assert UpdateOk(heap, rids, rows, checked, i);
    }
    while updated < |rows|
      invariant updated <= |rows| && heap.Valid() && error.None?
      invariant heap.Rows() == PutRows(old(heap.Rows()), rids[..updated], rows[..updated])
      invariant forall i :: 0 <= i < |rows| ==> Encodes(heap.schema, rows[i])
    {
      error := UpdateNext(heap, rids, rows, updated, fetched[updated], old(heap.Rows()));
      if error.Some? {
        return;
      }
      updated := updated + 1;
    }
  }

  /** The row is not empty and fits the page its record is on. */
  ghost predicate RoomFor(heap: HeapTable, rid: Rid, row: Row)
    reads heap
    requires heap.Valid() && rid in heap.Rows()
  {
    var payload := RecordCodec.Payload(heap.schema.format, row);
    payload != [] && FitsReplaced(heap.table[rid.page], HandleOf(rid), payload)
  }

  /** The first pass of update_batch. */
  method ValidateUpdates(heap: HeapTable, rids: seq<Rid>, rows: seq<Row>, fetched: seq<bool>)
    returns (error: Option<HeapError>)
    requires heap.Valid() && |rids| == |rows| == |fetched|
    ensures error.None? <==> UpdatesOk(heap, rids, rows, fetched)
  {
    for i := 0 to |rids|
      invariant forall k :: 0 <= k < i ==> UpdateOk(heap, rids, rows, fetched, k)
    {
      error := ValidateUpdateAt(heap, rids, rows, fetched, i);
      if error.Some? {
        return;
      }
    }
    error := None;
  }

  method ValidateUpdateAt(heap: HeapTable, rids: seq<Rid>, rows: seq<Row>, fetched: seq<bool>, i: nat)
    returns (error: Option<HeapError>)
    requires heap.Valid() && i < |rids| == |rows| == |fetched|
    ensures error.None? <==> UpdateOk(heap, rids, rows, fetched, i)
  {
    for previous := 0 to i
      invariant forall k :: 0 <= k < previous ==> rids[k] != rids[i]
    {
      if rids[i] == rids[previous] {
        return Some(BadArgument);
      }
    }
    error := ValidateUpdate(heap, rids[i], rows[i], fetched[i]);
  }

  /** validate_update. */
  method ValidateUpdate(heap: HeapTable, rid: Rid, row: Row, fetched: bool) returns (error: Option<HeapError>)
    requires heap.Valid()
    ensures error.None? <==> fetched && rid in heap.Rows() && Encodes(heap.schema, row)
  {
    var payload := EncodeRow(heap.schema, row, heap.read);
    if payload.Err? {
      return Some(OfPage(payload.error));
    }
    if rid.page !in heap.pages {
      return Some(BadArgument);
    }
    if !fetched {
      return Some(Unavailable);
    }
    var found := ReadInPage(heap.pages[rid.page], rid.page, HandleOf(rid), heap.view, heap.table[rid.page]);
    return if found.None? then Some(BadArgument) else None;
  }

  // ---------------------------------------------------------------- a whole scan

  /** The records carry the rows of the table. */
  ghost predicate RowsMatch(heap: HeapTable, records: seq<Record>)
    reads heap
    requires heap.Valid()
  {
    forall i :: 0 <= i < |records| ==> records[i].rid in heap.Rows() && heap.Rows()[records[i].rid] == records[i].row
  }

  /** next_record until it reports the end. */
  method Drain(heap: HeapTable, fetches: nat -> bool) returns (records: seq<Record>, error: Option<HeapError>)
    requires heap.Valid()
    ensures RowsMatch(heap, records)
    ensures error.None? ==> RidsOf(records) == ScanFrom(heap.table, 1, 0, heap.count)
    ensures (forall id :: fetches(id)) ==> error.None?
  {
    ghost var all := ScanFrom(heap.table, 1, 0, heap.count);
    records, error := [], None;
    var p := heap.BeginScan();
    assert RidsOf(records) + all == all;
    while true
      invariant PositionOk(p, heap.count) && Reaches(heap.table, p) && p.end == heap.count
      invariant RidsOf(records) + ScanFrom(heap.table, p.page, p.slot, p.end) == all
      invariant RowsMatch(heap, records)
      decreases |all| - |records|
    {
      var r, next := heap.NextRecord(p, fetches);
      if r.Err? {
        return records, Some(r.error);
      }
      if r.value.None? {
        assert RidsOf(records) + [] == RidsOf(records);
        return records, None;
      }
      RidsAppend(records, r.value.value, ScanFrom(heap.table, next.page, next.slot, p.end));
      records, p := records + [r.value.value], next;
    }
  }

  /** A scan with no change in between: every live record once, in page and slot order, with its row. It fails
      only when a page cannot be fetched. */
  method ScanAll(heap: HeapTable, fetches: nat -> bool) returns (records: seq<Record>, error: Option<HeapError>)
    requires heap.Valid()
    ensures RowsMatch(heap, records)
    ensures error.None? ==> InOrder(RidsOf(records)) && forall r: Rid :: r in RidsOf(records) <==> r in heap.Rows()
    ensures (forall id :: fetches(id)) ==> error.None?
  {
    records, error := Drain(heap, fetches);
    ScanIsComplete(heap.table, heap.count);
  }

  function RidsOf(records: seq<Record>): (r: seq<Rid>)
    ensures |r| == |records| && forall i :: 0 <= i < |r| ==> r[i] == records[i].rid
  {
    seq(|records|, i requires 0 <= i < |records| => records[i].rid)
  }

  lemma RidsAppend(records: seq<Record>, record: Record, rest: seq<Rid>)
    ensures RidsOf(records + [record]) + rest == RidsOf(records) + ([record.rid] + rest)
  {
  }

  lemma {:induction false} ScanPageStep(cells: seq<Cell>, page: nat, start: nat)
    requires start <= |cells|
    ensures ScanPage(cells, page, start) ==
            match NextLive(cells, start)
            case None => []
            case Some(i) => [Rid(page, i, cells[i].generation)] + ScanPage(cells, page, i + 1)
    decreases |cells| - start
  {
    if start < |cells| && !cells[start].Live? {
      ScanPageStep(cells, page, start + 1);
    }
  }

  lemma ScanFromStep(t: Table, page: nat, slot: nat, after: nat, end: nat, r: Rid)
    requires page in t && page < end && ScanPage(t[page], page, slot) == [r] + ScanPage(t[page], page, after)
    ensures ScanFrom(t, page, slot, end) == [r] + ScanFrom(t, page, after, end)
  {
    Regroup([r], ScanPage(t[page], page, after), ScanFrom(t, page + 1, 0, end));
  }

  lemma Regroup(a: seq<Rid>, b: seq<Rid>, c: seq<Rid>)
    ensures (a + b) + c == a + (b + c)
  {
  }
}
