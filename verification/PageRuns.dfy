/** Whole lives of a slotted page: any sequence of operations from initialization on. */
module PageRuns {
  import opened Common
  import opened PageLayout
  import opened PageCells
  import opened SlottedCompaction
  import opened RecordPages

  datatype Op = InsertOp(payload: seq<byte>) | ReplaceOp(handle: Handle, payload: seq<byte>) | EraseOp(handle: Handle)

  predicate GoodPayload(payload: seq<byte>) {
    payload != [] && |payload| <= MAX_PAYLOAD
  }

  /** Whether the page accepts the operation. */
  predicate Accepts(cells: seq<Cell>, op: Op) {
    match op
    case InsertOp(payload) => GoodPayload(payload) && Fits(cells, payload)
    case ReplaceOp(h, payload) =>
      GoodPayload(payload) && IsLive(cells, h) && FitsReplaced(cells, h, payload)
    case EraseOp(h) => IsLive(cells, h)
  }

  function Apply(cells: seq<Cell>, op: Op): seq<Cell> {
    if !Accepts(cells, op) then cells
    else
      match op
      case InsertOp(payload) => InsertCell(cells, payload)
      case ReplaceOp(h, payload) => ReplaceCell(cells, h, payload)
      case EraseOp(h) => EraseCell(cells, h)
  }

  function Run(ops: seq<Op>): seq<Cell> {
    if ops == [] then [] else Apply(Run(ops[..|ops| - 1]), ops[|ops| - 1])
  }

  /** The handles returned by the accepted insertions, in order. */
  function Handles(ops: seq<Op>): seq<Handle> {
    if ops == [] then []
    else
      var before, op := Run(ops[..|ops| - 1]), ops[|ops| - 1];
      Handles(ops[..|ops| - 1]) + if op.InsertOp? && Accepts(before, op) then [NextHandle(before)] else []
  }

  // ---------------------------------------------------------------- the map view

  /** The same life on a plain map: the handle is the only thing the page chooses. */
  ghost function MapRun(ops: seq<Op>): map<Handle, seq<byte>> {
    if ops == [] then map[]
    else
      var before, op, m := Run(ops[..|ops| - 1]), ops[|ops| - 1], MapRun(ops[..|ops| - 1]);
      if !Accepts(before, op) then m
      else
        match op
        case InsertOp(payload) => m[NextHandle(before) := payload]
        case ReplaceOp(h, payload) => m[h := payload]
        case EraseOp(h) => m - {h}
  }

  lemma {:induction false} RunRefinesMap(ops: seq<Op>)
    ensures Contents(Run(ops)) == MapRun(ops)
  {
    if ops != [] {
      var init, op := ops[..|ops| - 1], ops[|ops| - 1];
      RunRefinesMap(init);
      var before := Run(init);
      if Accepts(before, op) {
        match op
        case InsertOp(payload) => InsertContents(before, payload);
        case ReplaceOp(h, payload) => ReplaceContents(before, h, payload);
        case EraseOp(h) => EraseContents(before, h);
      }
    }
  }

  // ---------------------------------------------------------------- handles are issued once

  lemma {:induction false} HandlesAreIssued(ops: seq<Op>, h: Handle)
    ensures h in Handles(ops) <==> Issued(Run(ops), h)
  {
    if ops != [] {
      var init, op := ops[..|ops| - 1], ops[|ops| - 1];
      HandlesAreIssued(init, h);
      var before := Run(init);
      if Accepts(before, op) {
        match op
        case InsertOp(payload) => NextHandleFresh(before, payload);
        case ReplaceOp(g, payload) => ReplaceContents(before, g, payload);
        case EraseOp(g) => EraseContents(before, g);
      }
    }
  }

  /** Over the whole life of a page no handle is ever issued twice. */
  lemma {:induction false} HandlesNeverRepeat(ops: seq<Op>)
    ensures forall i, j :: 0 <= i < j < |Handles(ops)| ==> Handles(ops)[i] != Handles(ops)[j]
  {
    if ops != [] {
      var init, op := ops[..|ops| - 1], ops[|ops| - 1];
      HandlesNeverRepeat(init);
      var before := Run(init);
      if op.InsertOp? && Accepts(before, op) {
        NextHandleFresh(before, op.payload);
        HandlesAreIssued(init, NextHandle(before));
      }
    }
  }

  // ---------------------------------------------------------------- the bytes follow

  method ApplyInsert(p: Page, id: nat, payload: seq<byte>, ghost view: PageView, ghost cells: seq<Cell>)
    returns (p': Page, h: Option<Handle>)
    requires IsView(view) && view(p, id, cells)
    ensures view(p', id, Apply(cells, InsertOp(payload)))
    ensures h == if Accepts(cells, InsertOp(payload)) then Some(NextHandle(cells)) else None
  {
    if payload == [] || |payload| > MAX_PAYLOAD {
      return p, None;
    }
    p', h := InsertInPage(p, id, payload, view, cells);
    if h.None? {
      p' := p;
    }
  }

  method ApplyReplace(p: Page, id: nat, h: Handle, payload: seq<byte>, ghost view: PageView, ghost cells: seq<Cell>)
    returns (p': Page)
    requires IsView(view) && view(p, id, cells)
    ensures view(p', id, Apply(cells, ReplaceOp(h, payload)))
  {
    assert Holds(p, id, cells);
    var fault;
    p', fault := ReplaceRecord(p, id, h, payload);
    assert Holds(p', id, Apply(cells, ReplaceOp(h, payload)));
  }

  method ApplyErase(p: Page, id: nat, h: Handle, ghost view: PageView, ghost cells: seq<Cell>) returns (p': Page)
    requires IsView(view) && view(p, id, cells)
    ensures view(p', id, Apply(cells, EraseOp(h)))
  {
    var ok;
    p', ok := EraseInPage(p, id, h, view, cells);
    if !ok {
      p' := p;
    }
  }

  /** Applying an operation to the bytes of a page that stores the cells. */
  method ApplyBytes(p: Page, id: nat, op: Op, ghost view: PageView, ghost cells: seq<Cell>)
    returns (p': Page, handle: Option<Handle>)
    requires IsView(view) && view(p, id, cells)
    ensures view(p', id, Apply(cells, op))
    ensures handle == if op.InsertOp? && Accepts(cells, op) then Some(NextHandle(cells)) else None
  {
    handle := None;
    match op
    case InsertOp(payload) => p', handle := ApplyInsert(p, id, payload, view, cells);
    case ReplaceOp(h, payload) => p' := ApplyReplace(p, id, h, payload, view, cells);
    case EraseOp(h) => p' := ApplyErase(p, id, h, view, cells);
  }

  /** From initialize on, the page bytes store exactly what the run of operations says. */
  method RunBytes(id: nat, ops: seq<Op>, ghost view: PageView) returns (p: Page, handles: seq<Handle>)
    requires IsView(view) && 0 < id < 0x1_0000_0000
    ensures view(p, id, Run(ops)) && handles == Handles(ops)
  {
    p := NewPage(id, view);
    handles := [];
    var i := 0;
    while i < |ops|
      invariant 0 <= i <= |ops|
      invariant view(p, id, Run(ops[..i])) && handles == Handles(ops[..i])
    {
      assert ops[..i + 1][..i] == ops[..i];
      var handle;
      p, handle := ApplyBytes(p, id, ops[i], view, Run(ops[..i]));
      if handle.Some? {
        handles := handles + [handle.value];
      }
      i := i + 1;
    }
    assert ops[..i] == ops;
  }
}
