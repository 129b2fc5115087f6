/** The rows of a heap table: the map from record id to row, and what each record operation does to it. */
module HeapRows {
  import opened Common
  import opened PageCells
  import opened HeapModel
  import opened RecordCodec

  /** A table's row format and columns. */
  datatype Schema = Schema(format: RowFormat, columns: Columns)

  type Reader = seq<byte> -> Result<Row, CodecError>

  ghost predicate Decodable(d: Reader, t: Table) {
    forall r: Rid :: LiveIn(t, r) ==> d(t[r.page][r.slot].payload).Ok?
  }

  /** The map from record id to row. */
  ghost function RowsOf(d: Reader, t: Table): imap<Rid, Row>
    requires Decodable(d, t)
  {
    imap r: Rid | LiveIn(t, r) :: d(t[r.page][r.slot].payload).value
  }

  /** The operation issued no id. */
  ghost predicate SameIssued(t: Table, t': Table) {
    forall r: Rid :: IssuedIn(t', r) <==> IssuedIn(t, r)
  }

  /** One new id, never issued before, now maps to the row; all else is as it was. */
  ghost predicate Inserted(d: Reader, t: Table, t': Table, r: Rid, row: Row)
    requires Decodable(d, t)
  {
    && Decodable(d, t') && RowsOf(d, t') == RowsOf(d, t)[r := row]
    && !IssuedIn(t, r) && (forall q: Rid :: IssuedIn(t', q) <==> IssuedIn(t, q) || q == r)
  }

  ghost predicate Unchanged(d: Reader, t: Table, t': Table)
    requires Decodable(d, t)
  {
    Decodable(d, t') && RowsOf(d, t') == RowsOf(d, t) && SameIssued(t, t')
  }

  /** Payload maps that agree give row maps that agree. */
  lemma RowsFollow(d: Reader, t: Table, t': Table, r: Rid, payload: seq<byte>, row: Row)
    requires Decodable(d, t) && d(payload) == Ok(row) && Payloads(t') == Payloads(t)[r := payload]
    ensures Decodable(d, t') && RowsOf(d, t') == RowsOf(d, t)[r := row]
  {
    forall q: Rid
      ensures LiveIn(t', q) <==> LiveIn(t, q) || q == r
      ensures LiveIn(t', q) ==> t'[q.page][q.slot].payload == if q == r then payload else t[q.page][q.slot].payload
    {
      assert q in Payloads(t') <==> LiveIn(t', q);
      assert q in Payloads(t) <==> LiveIn(t, q);
      assert LiveIn(t', q) ==> Payloads(t')[q] == t'[q.page][q.slot].payload;
      assert LiveIn(t, q) ==> Payloads(t)[q] == t[q.page][q.slot].payload;
    }
  }

  lemma InsertRow(d: Reader, t: Table, page: nat, payload: seq<byte>, row: Row)
    requires Decodable(d, t) && page in t && d(payload) == Ok(row)
    ensures Inserted(d, t, t[page := InsertCell(t[page], payload)], NewRid(t, page), row)
  {
    InsertInto(t, page, payload);
    RowsFollow(d, t, t[page := InsertCell(t[page], payload)], NewRid(t, page), payload, row);
  }

  lemma EmptyPageAdded(d: Reader, t: Table, page: nat)
    requires Decodable(d, t) && page !in t
    ensures Unchanged(d, t, t[page := []])
  {
    AddEmptyPage(t, page);
    forall r: Rid ensures LiveIn(t[page := []], r) <==> LiveIn(t, r) {}
  }

  /** Inserting into a page that was just added. */
  lemma InsertIntoNew(d: Reader, t: Table, page: nat, payload: seq<byte>, row: Row)
    requires Decodable(d, t) && page !in t && d(payload) == Ok(row)
    ensures Inserted(d, t, t[page := InsertCell([], payload)], Rid(page, 0, 1), row)
  {
    var t' := t[page := []];
    EmptyPageAdded(d, t, page);
    InsertRow(d, t', page, payload, row);
    assert t'[page := InsertCell(t'[page], payload)] == t[page := InsertCell([], payload)];
  }

  lemma ReplaceRow(d: Reader, t: Table, r: Rid, payload: seq<byte>, row: Row)
    requires Decodable(d, t) && LiveIn(t, r) && d(payload) == Ok(row)
    ensures var t' := t[r.page := ReplaceCell(t[r.page], HandleOf(r), payload)];
            Decodable(d, t') && RowsOf(d, t') == RowsOf(d, t)[r := row] && SameIssued(t, t')
  {
    ReplaceInto(t, r, payload);
    RowsFollow(d, t, t[r.page := ReplaceCell(t[r.page], HandleOf(r), payload)], r, payload, row);
  }

  lemma EraseRow(d: Reader, t: Table, r: Rid)
    requires Decodable(d, t) && LiveIn(t, r)
    ensures var t' := t[r.page := EraseCell(t[r.page], HandleOf(r))];
            Decodable(d, t') && RowsOf(d, t') == RowsOf(d, t) - {r} && SameIssued(t, t')
  {
    var t' := t[r.page := EraseCell(t[r.page], HandleOf(r))];
    EraseInto(t, r);
    forall q: Rid
      ensures LiveIn(t', q) <==> LiveIn(t, q) && q != r
      ensures LiveIn(t', q) ==> t'[q.page][q.slot].payload == t[q.page][q.slot].payload
    {
      assert q in Payloads(t') <==> LiveIn(t', q);
      assert q in Payloads(t) <==> LiveIn(t, q);
      assert LiveIn(t', q) ==> Payloads(t')[q] == t'[q.page][q.slot].payload;
      assert LiveIn(t, q) ==> Payloads(t)[q] == t[q.page][q.slot].payload;
    }
  }

  /** Every payload the codec accepts fits an empty page. */
  lemma FitsEmptyPage(payload: seq<byte>)
    requires |payload| <= PageCells.MAX_PAYLOAD
    ensures Fits([], payload)
  {
  }
}
