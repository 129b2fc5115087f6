/** The whole life of a heap table under any mix of insertions, deletions and updates (src/storage/heap_table.cpp). */
module HeapRuns {
  import opened HeapModel
  import opened HeapTables

  datatype HeapOp =
    | AddRow(row: HeapTables.Row, io: HeapIo)
    | DropRow(rid: Rid, fetched: bool)
    | SetRow(rid: Rid, row: HeapTables.Row, fetched: bool)

  /** What a caller is told. */
  datatype Told = NewRow(rid: Rid) | Done | Refused

  /** The operation on the map from record id to row, as the caller was told. */
  ghost function Effect(m: imap<Rid, HeapTables.Row>, op: HeapOp, told: Told): imap<Rid, HeapTables.Row> {
    if told.Refused? then m
    else
      match op
      case AddRow(row, _) => if told.NewRow? then m[told.rid := row] else m
      case DropRow(rid, _) => m - {rid}
      case SetRow(rid, row, _) => m[rid := row]
  }

  ghost function Effects(m: imap<Rid, HeapTables.Row>, ops: seq<HeapOp>, told: seq<Told>): imap<Rid, HeapTables.Row>
    requires |told| == |ops|
  {
    if ops == [] then m
    else Effect(Effects(m, ops[..|ops| - 1], told[..|told| - 1]), ops[|ops| - 1], told[|told| - 1])
  }

  /** The ids handed out, in order. */
  ghost function NewIds(told: seq<Told>): seq<Rid> {
    if told == [] then []
    else NewIds(told[..|told| - 1]) + if told[|told| - 1].NewRow? then [told[|told| - 1].rid] else []
  }

  ghost predicate IssuesAs(t: Table, t': Table, told: Told) {
    && (told.NewRow? ==> !IssuedIn(t, told.rid))
    && (forall q: Rid :: IssuedIn(t', q) <==> IssuedIn(t, q) || (told.NewRow? && q == told.rid))
  }

  /** The ids are new to the table, all different, and all that was issued since. */
  ghost predicate IssuedSince(t: Table, t': Table, ids: seq<Rid>) {
    && (forall i :: 0 <= i < |ids| ==> !IssuedIn(t, ids[i]))
    && (forall i, j :: 0 <= i < j < |ids| ==> ids[i] != ids[j])
    && (forall q: Rid :: IssuedIn(t', q) <==> IssuedIn(t, q) || q in ids)
  }

  method TakeOp(heap: HeapTable, op: HeapOp) returns (told: Told)
    requires heap.Valid()
    modifies heap
    ensures heap.Valid() && heap.Rows() == Effect(old(heap.Rows()), op, told)
    ensures IssuesAs(old(heap.table), heap.table, told)
  {
    match op
    case AddRow(row, io) =>
      var r := heap.Insert(row, io);
      told := if r.Ok? then NewRow(r.value) else Refused;
    case DropRow(rid, fetched) =>
      var error := heap.Delete(rid, fetched);
      told := if error.None? then Done else Refused;
    case SetRow(rid, row, fetched) =>
      var error := heap.Update(rid, row, fetched);
      told := if error.None? then Done else Refused;
  }

  lemma IssuedMore(t: Table, t': Table, t'': Table, ids: seq<Rid>, told: Told)
    requires IssuedSince(t, t', ids) && IssuesAs(t', t'', told)
    ensures IssuedSince(t, t'', ids + if told.NewRow? then [told.rid] else [])
  {
    assert forall i :: 0 <= i < |ids| ==> ids[i] in ids;
    assert ids + [] == ids;
  }

  method TakeNext(heap: HeapTable, ops: seq<HeapOp>, told: seq<Told>, ghost start: Table,
                  ghost rows: imap<Rid, HeapTables.Row>)
    returns (more: seq<Told>)
    requires heap.Valid() && |told| < |ops|
    requires heap.Rows() == Effects(rows, ops[..|told|], told) && IssuedSince(start, heap.table, NewIds(told))
    modifies heap
    ensures heap.Valid() && |more| == |told| + 1
    ensures heap.Rows() == Effects(rows, ops[..|more|], more) && IssuedSince(start, heap.table, NewIds(more))
  {
    ghost var t := heap.table;
    var one := TakeOp(heap, ops[|told|]);
    more := told + [one];
    assert more[..|told|] == told && ops[..|more|][..|told|] == ops[..|told|];
    IssuedMore(start, t, heap.table, NewIds(told), one);
  }

  /** Over every run the table is the map its callers were told, and no record id is ever handed out twice. */
  method RunHeap(heap: HeapTable, ops: seq<HeapOp>) returns (told: seq<Told>)
    requires heap.Valid()
    modifies heap
    ensures heap.Valid() && |told| == |ops|
    ensures heap.Rows() == Effects(old(heap.Rows()), ops, told)
    ensures IssuedSince(old(heap.table), heap.table, NewIds(told))
  {
    told := [];
    assert ops[..0] == [];
    while |told| < |ops|
      invariant |told| <= |ops| && heap.Valid()
      invariant heap.Rows() == Effects(old(heap.Rows()), ops[..|told|], told)
      invariant IssuedSince(old(heap.table), heap.table, NewIds(told))
      decreases |ops| - |told|
    {
      told := TakeNext(heap, ops, told, old(heap.table), old(heap.Rows()));
    }
    assert ops[..|told|] == ops;
  }
}
