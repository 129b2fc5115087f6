/** A heap table as pages of cells: record ids, the map they stand for, and the order of a scan. */
module HeapModel {
  import opened Common
  import opened PageCells

  // ---------------------------------------------------------------- record ids

  datatype Rid = Rid(page: nat, slot: nat, generation: nat)

  predicate RidOk(r: Rid) {
    0 < r.page < 0x1_0000_0000 && r.slot < 0x1_0000 && 0 < r.generation < 0x1_0000
  }

  /** RecordIdCodec::encode: page, generation and slot side by side in 64 bits. */
  function EncodeRid(r: Rid): Option<nat> {
    if r.page == 0 || r.generation == 0 then None else Some((r.page * 0x1_0000 + r.generation) * 0x1_0000 + r.slot)
  }

  /** RecordIdCodec::decode. */
  function DecodeRid(v: nat): Option<Rid> {
    var r := Rid(v / 0x1_0000 / 0x1_0000, v % 0x1_0000, v / 0x1_0000 % 0x1_0000);
    if r.page == 0 || r.generation == 0 then None else Some(r)
  }

  lemma Halves(high: nat, low: nat)
    requires low < 0x1_0000
    ensures (high * 0x1_0000 + low) / 0x1_0000 == high && (high * 0x1_0000 + low) % 0x1_0000 == low
  {
  }

  /** Record ids survive the 64-bit form, and no other number decodes to them. */
  lemma RidRoundTrip(r: Rid)
    requires RidOk(r)
    ensures EncodeRid(r).Some? && DecodeRid(EncodeRid(r).value) == Some(r)
  {
    Halves(r.page * 0x1_0000 + r.generation, r.slot);
    Halves(r.page, r.generation);
  }

  lemma RidReadBack(v: nat)
    requires v < 0x1_0000_0000_0000_0000 && DecodeRid(v).Some?
    ensures RidOk(DecodeRid(v).value) && EncodeRid(DecodeRid(v).value) == Some(v)
  {
    var high := v / 0x1_0000;
    assert high == high / 0x1_0000 * 0x1_0000 + high % 0x1_0000;
    assert v == high * 0x1_0000 + v % 0x1_0000;
  }

  // ---------------------------------------------------------------- tables

  /** The cells of each page in use. */
  type Table = map<nat, seq<Cell>>

  function HandleOf(r: Rid): Handle {
    Handle(r.slot, r.generation)
  }

  predicate LiveIn(t: Table, r: Rid) {
    r.page in t && IsLive(t[r.page], HandleOf(r))
  }

  predicate IssuedIn(t: Table, r: Rid) {
    r.page in t && Issued(t[r.page], HandleOf(r))
  }

  /** The map a table stands for. */
  ghost function Payloads(t: Table): imap<Rid, seq<byte>> {
    imap r: Rid | LiveIn(t, r) :: t[r.page][r.slot].payload
  }

  function NewRid(t: Table, page: nat): Rid
    requires page in t
  {
    Rid(page, NextHandle(t[page]).slot, NextHandle(t[page]).generation)
  }

  lemma LiveAfterInsert(cells: seq<Cell>, payload: seq<byte>, h: Handle)
    ensures IsLive(InsertCell(cells, payload), h) <==> IsLive(cells, h) || h == NextHandle(cells)
    ensures IsLive(cells, h) ==> h != NextHandle(cells) && InsertCell(cells, payload)[h.slot] == cells[h.slot]
    ensures InsertCell(cells, payload)[NextHandle(cells).slot] == Live(NextHandle(cells).generation, payload)
  {
    NextHandleFresh(cells, payload);
  }

  /** Inserting into a page adds one entry to the table's map, under an id the table has never issued. */
  lemma InsertInto(t: Table, page: nat, payload: seq<byte>)
    requires page in t
    ensures var t', r := t[page := InsertCell(t[page], payload)], NewRid(t, page);
            && Payloads(t') == Payloads(t)[r := payload]
            && !IssuedIn(t, r) && (forall s: Rid :: IssuedIn(t', s) <==> IssuedIn(t, s) || s == r)
  {
    var t', r := t[page := InsertCell(t[page], payload)], NewRid(t, page);
    NextHandleFresh(t[page], payload);
    forall s: Rid
      ensures IssuedIn(t', s) <==> IssuedIn(t, s) || s == r
      ensures LiveIn(t', s) <==> LiveIn(t, s) || s == r
      ensures LiveIn(t, s) ==> s != r && t'[s.page][s.slot] == t[s.page][s.slot]
    {
      if s.page == page {
        LiveAfterInsert(t[page], payload, HandleOf(s));
        assert HandleOf(s) == NextHandle(t[page]) <==> s == r;
      }
    }
    LiveAfterInsert(t[page], payload, NextHandle(t[page]));
    assert t'[r.page][r.slot].payload == payload;
  }

  /** A fresh empty page changes nothing the table stands for. */
  lemma AddEmptyPage(t: Table, page: nat)
    requires page !in t
    ensures Payloads(t[page := []]) == Payloads(t)
    ensures forall s: Rid :: IssuedIn(t[page := []], s) <==> IssuedIn(t, s)
  {
    forall s: Rid ensures LiveIn(t[page := []], s) <==> LiveIn(t, s) {}
  }

  lemma ReplaceInto(t: Table, r: Rid, payload: seq<byte>)
    requires LiveIn(t, r)
    ensures var t' := t[r.page := ReplaceCell(t[r.page], HandleOf(r), payload)];
            && Payloads(t') == Payloads(t)[r := payload]
            && forall s: Rid :: IssuedIn(t', s) <==> IssuedIn(t, s)
  {
    var t' := t[r.page := ReplaceCell(t[r.page], HandleOf(r), payload)];
    ReplaceContents(t[r.page], HandleOf(r), payload);
    forall s: Rid
      ensures LiveIn(t', s) <==> LiveIn(t, s)
      ensures LiveIn(t, s) && s != r ==> t'[s.page][s.slot] == t[s.page][s.slot]
    {
    }
    assert t'[r.page][r.slot].payload == payload;
  }

  lemma EraseInto(t: Table, r: Rid)
    requires LiveIn(t, r)
    ensures var t' := t[r.page := EraseCell(t[r.page], HandleOf(r))];
            && Payloads(t') == Payloads(t) - {r}
            && forall s: Rid :: IssuedIn(t', s) <==> IssuedIn(t, s)
  {
    var t' := t[r.page := EraseCell(t[r.page], HandleOf(r))];
    EraseContents(t[r.page], HandleOf(r));
    forall s: Rid
      ensures LiveIn(t', s) <==> LiveIn(t, s) && s != r
      ensures LiveIn(t', s) ==> t'[s.page][s.slot] == t[s.page][s.slot]
    {
    }
  }

  // ---------------------------------------------------------------- scan order

  /** The live records of a page from a slot on, in slot order. */
  function ScanPage(cells: seq<Cell>, page: nat, start: nat): seq<Rid>
    decreases |cells| - start
  {
    if start >= |cells| then []
    else
      (if cells[start].Live? then [Rid(page, start, cells[start].generation)] else []) +
      ScanPage(cells, page, start + 1)
  }

  /** The live records from a position on, in page and slot order. */
  function ScanFrom(t: Table, page: nat, slot: nat, end: nat): seq<Rid>
    decreases end - page
  {
    if page >= end then []
    else (if page in t then ScanPage(t[page], page, slot) else []) + ScanFrom(t, page + 1, 0, end)
  }

  predicate Before(a: Rid, b: Rid) {
    a.page < b.page || (a.page == b.page && a.slot < b.slot)
  }

  ghost predicate InOrder(s: seq<Rid>) {
    forall i, j :: 0 <= i < j < |s| ==> Before(s[i], s[j])
  }

  lemma {:induction false} ScanPageExact(cells: seq<Cell>, page: nat, start: nat, r: Rid)
    ensures r in ScanPage(cells, page, start) <==> r.page == page && start <= r.slot && IsLive(cells, HandleOf(r))
    decreases |cells| - start
  {
    if start < |cells| {
      ScanPageExact(cells, page, start + 1, r);
    }
  }

  lemma {:induction false} ScanPageOrdered(cells: seq<Cell>, page: nat, start: nat)
    ensures InOrder(ScanPage(cells, page, start))
    decreases |cells| - start
  {
    if start < |cells| {
      ScanPageOrdered(cells, page, start + 1);
      var rest := ScanPage(cells, page, start + 1);
      forall i | 0 <= i < |rest| ensures rest[i].page == page && rest[i].slot > start {
        ScanPageExact(cells, page, start + 1, rest[i]);
      }
    }
  }

  lemma {:induction false} ScanFromExact(t: Table, page: nat, slot: nat, end: nat, r: Rid)
    ensures r in ScanFrom(t, page, slot, end) <==>
            LiveIn(t, r) && r.page < end && (page < r.page || (page == r.page && slot <= r.slot))
    decreases end - page
  {
    if page < end {
      ScanFromExact(t, page + 1, 0, end, r);
      if page in t {
        ScanPageExact(t[page], page, slot, r);
      }
    }
  }

  lemma OrderedConcat(a: seq<Rid>, b: seq<Rid>)
    requires InOrder(a) && InOrder(b) && forall i, j :: 0 <= i < |a| && 0 <= j < |b| ==> Before(a[i], b[j])
    ensures InOrder(a + b)
  {
  }

  lemma {:induction false} ScanFromOrdered(t: Table, page: nat, slot: nat, end: nat)
    ensures InOrder(ScanFrom(t, page, slot, end))
    decreases end - page
  {
    if page < end {
      ScanFromOrdered(t, page + 1, 0, end);
      var here := if page in t then ScanPage(t[page], page, slot) else [];
      var rest := ScanFrom(t, page + 1, 0, end);
      if page in t {
        ScanPageOrdered(t[page], page, slot);
      }
      forall i, j | 0 <= i < |here| && 0 <= j < |rest| ensures Before(here[i], rest[j]) {
        ScanPageExact(t[page], page, slot, here[i]);
        ScanFromExact(t, page + 1, 0, end, rest[j]);
      }
      OrderedConcat(here, rest);
    }
  }

  /** A full scan meets every live record exactly once, in page and slot order. */
  lemma ScanIsComplete(t: Table, end: nat)
    requires forall page :: page in t ==> 0 < page < end
    ensures InOrder(ScanFrom(t, 1, 0, end))
    ensures forall r: Rid :: r in ScanFrom(t, 1, 0, end) <==> LiveIn(t, r)
  {
    ScanFromOrdered(t, 1, 0, end);
    forall r: Rid ensures r in ScanFrom(t, 1, 0, end) <==> LiveIn(t, r) {
      ScanFromExact(t, 1, 0, end, r);
    }
  }
}
