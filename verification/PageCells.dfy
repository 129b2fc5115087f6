/** A slotted page as a directory of cells, and the map from handle to payload it stands for. */
module PageCells {
  import opened Common
  import opened PageLayout

  /** A directory position: a live record, or a free position that remembers its last generation. */
  datatype Cell =
    | Live(generation: U16, payload: seq<byte>)
    | Deleted(generation: U16)
    | Retired

  datatype Handle = Handle(slot: nat, generation: nat)

  const MAX_PAYLOAD: nat := 4056

  function Used(cells: seq<Cell>): nat {
    if cells == [] then 0
    else Used(cells[..|cells| - 1]) + if cells[|cells| - 1].Live? then |cells[|cells| - 1].payload| else 0
  }

  function Lives(cells: seq<Cell>): (n: nat)
    ensures n <= |cells|
  {
    if cells == [] then 0 else Lives(cells[..|cells| - 1]) + if cells[|cells| - 1].Live? then 1 else 0
  }

  /** Cells a page can hold: generations start at 1 and a deleted one can still be raised. */
  predicate CellOk(c: Cell) {
    match c
    case Live(g, payload) => g > 0 && payload != []
    case Deleted(g) => 0 < g < MAX_GENERATION
    case Retired => true
  }

  predicate CellsOk(cells: seq<Cell>) {
    && |cells| <= MAX_SLOTS && (forall i :: 0 <= i < |cells| ==> CellOk(cells[i]))
    && HEADER_SIZE + SLOT_SIZE * |cells| + Used(cells) <= PAGE_SIZE
  }

  // ---------------------------------------------------------------- handles

  function GenerationOf(c: Cell): nat {
    match c
    case Live(g, _) => g
    case Deleted(g) => g
    case Retired => MAX_GENERATION
  }

  predicate IsLive(cells: seq<Cell>, h: Handle) {
    h.slot < |cells| && cells[h.slot].Live? && cells[h.slot].generation == h.generation
  }

  /** The map the page stands for. */
  ghost function Contents(cells: seq<Cell>): map<Handle, seq<byte>> {
    map i | 0 <= i < |cells| && cells[i].Live? :: Handle(i, cells[i].generation) := cells[i].payload
  }

  /** A handle was issued if its position has reached its generation. */
  predicate Issued(cells: seq<Cell>, h: Handle) {
    h.slot < |cells| && 0 < h.generation <= GenerationOf(cells[h.slot])
  }

  // ---------------------------------------------------------------- operations on cells

  /** The first position that can be issued again. */
  function FirstFree(cells: seq<Cell>, from: nat := 0): (r: Option<nat>)
    requires from <= |cells|
    ensures r.Some? ==>
      from <= r.value < |cells| && cells[r.value].Deleted? &&
      cells[r.value].generation < MAX_GENERATION
    ensures r.None? ==> forall i :: from <= i < |cells| && cells[i].Deleted? ==> cells[i].generation == MAX_GENERATION
    decreases |cells| - from
  {
    if from == |cells| then None
    else if cells[from].Deleted? && cells[from].generation < MAX_GENERATION then Some(from)
    else FirstFree(cells, from + 1)
  }

  /** Where the next record goes and the generation it gets. */
  function NextHandle(cells: seq<Cell>): Handle {
    var free := FirstFree(cells);
    if free.Some? then Handle(free.value, cells[free.value].generation + 1) else Handle(|cells|, 1)
  }

  function InsertCell(cells: seq<Cell>, payload: seq<byte>): seq<Cell> {
    var h := NextHandle(cells);
    if h.slot < |cells| then cells[h.slot := Live(h.generation, payload)] else cells + [Live(1, payload)]
  }

  function ReplaceCell(cells: seq<Cell>, h: Handle, payload: seq<byte>): seq<Cell>
    requires IsLive(cells, h)
  {
    cells[h.slot := Live(h.generation, payload)]
  }

  function EraseCell(cells: seq<Cell>, h: Handle): seq<Cell>
    requires IsLive(cells, h)
  {
    cells[h.slot := if h.generation == MAX_GENERATION then Retired else Deleted(h.generation)]
  }

  /** Room for the payload, and for a slot entry when the directory has to grow. */
  predicate Fits(cells: seq<Cell>, payload: seq<byte>) {
    var grow := FirstFree(cells).None?;
    && (grow ==> |cells| < MAX_SLOTS)
    && HEADER_SIZE + SLOT_SIZE * |cells| + Used(cells) + |payload| + (if grow then SLOT_SIZE else 0) <= PAGE_SIZE
  }

  /** Room for the payload in place of the handle's. */
  predicate FitsReplaced(cells: seq<Cell>, h: Handle, payload: seq<byte>)
    requires IsLive(cells, h)
  {
    HEADER_SIZE + SLOT_SIZE * |cells| + Used(ReplaceCell(cells, h, payload)) <= PAGE_SIZE
  }

  // ---------------------------------------------------------------- what they do to the map

  lemma NextHandleFresh(cells: seq<Cell>, payload: seq<byte>)
    ensures !Issued(cells, NextHandle(cells)) && IsLive(InsertCell(cells, payload), NextHandle(cells))
    ensures NextHandle(cells) !in Contents(cells)
    ensures forall h :: Issued(InsertCell(cells, payload), h) <==> Issued(cells, h) || h == NextHandle(cells)
  {
    var cells', next := InsertCell(cells, payload), NextHandle(cells);
    forall h ensures Issued(cells', h) <==> Issued(cells, h) || h == next {
      if h.slot == next.slot {
        assert GenerationOf(cells'[h.slot]) == next.generation;
      }
    }
  }

  /** Insertion adds one entry under a handle never issued before; all else stays. */
  lemma InsertContents(cells: seq<Cell>, payload: seq<byte>)
    ensures Contents(InsertCell(cells, payload)) == Contents(cells)[NextHandle(cells) := payload]
  {
    var cells', next := InsertCell(cells, payload), NextHandle(cells);
    assert cells'[next.slot] == Live(next.generation, payload);
    assert forall i :: 0 <= i < |cells'| && i != next.slot ==> i < |cells| && cells'[i] == cells[i];
    forall h ensures h in Contents(cells') <==> h in Contents(cells)[next := payload] {
      assert h in Contents(cells') <==> IsLive(cells', h);
      assert h in Contents(cells) <==> IsLive(cells, h);
    }
  }

  lemma ReplaceContents(cells: seq<Cell>, h: Handle, payload: seq<byte>)
    requires IsLive(cells, h)
    ensures Contents(ReplaceCell(cells, h, payload)) == Contents(cells)[h := payload]
    ensures forall g :: Issued(ReplaceCell(cells, h, payload), g) <==> Issued(cells, g)
  {
    var cells' := ReplaceCell(cells, h, payload);
    forall g ensures g in Contents(cells') <==> g in Contents(cells)[h := payload] {
      assert g in Contents(cells') <==> IsLive(cells', g);
      assert g in Contents(cells) <==> IsLive(cells, g);
    }
  }

  lemma EraseContents(cells: seq<Cell>, h: Handle)
    requires IsLive(cells, h)
    ensures Contents(EraseCell(cells, h)) == Contents(cells) - {h}
    ensures forall g :: Issued(EraseCell(cells, h), g) <==> Issued(cells, g)
  {
    var cells' := EraseCell(cells, h);
    forall g ensures g in Contents(cells') <==> g in Contents(cells) - {h} {
      assert g in Contents(cells') <==> IsLive(cells', g);
      assert g in Contents(cells) <==> IsLive(cells, g);
    }
  }

  // ---------------------------------------------------------------- sums

  lemma UsedAppend(cells: seq<Cell>, c: Cell)
    ensures Used(cells + [c]) == Used(cells) + (if c.Live? then |c.payload| else 0)
    ensures Lives(cells + [c]) == Lives(cells) + (if c.Live? then 1 else 0)
  {
    assert (cells + [c])[..|cells|] == cells;
  }

  lemma {:induction false} UsedUpdate(cells: seq<Cell>, i: nat, c: Cell)
    requires i < |cells|
    ensures Used(cells[i := c]) ==
            Used(cells) - (if cells[i].Live? then |cells[i].payload| else 0) + (if c.Live? then |c.payload| else 0)
    ensures Lives(cells[i := c]) == Lives(cells) - (if cells[i].Live? then 1 else 0) + (if c.Live? then 1 else 0)
  {
    var n := |cells| - 1;
    if i < n {
      UsedUpdate(cells[..n], i, c);
      assert cells[i := c][..n] == cells[..n][i := c];
    } else {
      assert cells[i := c][..n] == cells[..n];
    }
  }

  lemma {:induction false} UsedPrefix(cells: seq<Cell>, i: nat)
    requires i <= |cells|
    ensures Used(cells[..i]) <= Used(cells)
    decreases |cells|
  {
    if i < |cells| {
      UsedPrefix(cells[..|cells| - 1], i);
      assert cells[..|cells| - 1][..i] == cells[..i];
    } else {
      assert cells[..i] == cells;
    }
  }

  /** Each operation leaves cells a page can hold. */
  lemma ReplaceOk(cells: seq<Cell>, h: Handle, payload: seq<byte>)
    requires CellsOk(cells) && IsLive(cells, h) && payload != []
    requires FitsReplaced(cells, h, payload)
    ensures CellsOk(ReplaceCell(cells, h, payload)) && Lives(ReplaceCell(cells, h, payload)) == Lives(cells)
  {
    UsedUpdate(cells, h.slot, Live(h.generation, payload));
  }

  lemma EraseOk(cells: seq<Cell>, h: Handle)
    requires CellsOk(cells) && IsLive(cells, h)
    ensures CellsOk(EraseCell(cells, h)) && Lives(EraseCell(cells, h)) == Lives(cells) - 1
  {
    UsedUpdate(cells, h.slot, if h.generation == MAX_GENERATION then Retired else Deleted(h.generation));
  }
}
