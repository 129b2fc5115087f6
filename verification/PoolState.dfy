/**
 The buffer pool of src/storage/buffer_pool.cpp as a step system. The pool's own fields come first in
 `Pool`; the environment follows: the disk, the loads that have dropped the lock, the fetchers blocked
 on somebody else's load, the live page guards and, for the specification only, the value each page
 last received through a guard.

 A load is named by the identity of its LoadCompletion. Every step below is one region under
 `metadata_mutex_`, or one page read or write made while the lock is dropped.
 */
module PoolState {
  import opened Common

  datatype PageKey = PageKey(table: nat, page: nat)

  datatype Origin = Demand | Prefetch
  datatype Policy = Fifo | Lru
  datatype FrameState = Free | Loading | Ready

  /** std::numeric_limits<std::uint32_t>::max(), the largest pin count. */
  const MAX_PINS: nat := 0xFFFF_FFFF

  datatype Frame = Frame(
    page: RawPage,
    key: Option<PageKey>,
    dirty: bool,
    pins: nat,
    state: FrameState,
    ticket: nat,
    completion: Option<nat>,
    reserved: bool,
    replacementTicket: nat,
    generation: nat)

  datatype Completion = Completion(origin: Origin, ticket: nat, done: bool, failed: bool)

  datatype Reservation = Reservation(victim: nat, oldKey: PageKey, ticket: nat, generation: nat, completion: nat)

  datatype Stats = Stats(
    fetches: nat, hits: nat, misses: nat, dirtyFlushes: nat, evictions: nat, freeFrameMisses: nat,
    cleanSelections: nat, cleanCommits: nat, cleanCancels: nat,
    dirtySelections: nat, dirtyWriteSuccesses: nat, dirtyCommits: nat, dirtyCancels: nat)
  {
    function CleanCancelled(): Stats { this.(cleanCancels := cleanCancels + 1) }
    function CleanCommitted(): Stats { this.(evictions := evictions + 1, cleanCommits := cleanCommits + 1) }
    function DirtyCancelled(): Stats { this.(dirtyCancels := dirtyCancels + 1) }
    function DirtyLanded(): Stats { this.(dirtyWriteSuccesses := dirtyWriteSuccesses + 1) }
    function DirtyCommitted(): Stats {
      this.(dirtyFlushes := dirtyFlushes + 1, evictions := evictions + 1, dirtyCommits := dirtyCommits + 1)
    }
  }

  /** What a load that dropped the lock is doing. */
  datatype Io =
    | Reading
    | ReadDone(result: Option<RawPage>)
    | Writing(loaded: RawPage, snapshot: RawPage, writeGeneration: nat)
    | WriteDone(loaded: RawPage, snapshot: RawPage, writeGeneration: nat, landed: bool)

  /** Which branch of load_page the load took. */
  datatype Kind = FreeFrame | CleanVictim | DirtyVictim

  datatype Load = Load(
    kind: Kind, key: PageKey, frame: nat, origin: Origin, oldKey: PageKey, ticket: nat, generation: nat, io: Io)

  datatype Waiter = Waiter(key: PageKey, completion: nat)

  /** A live PageGuard; `unmarked` records a write to the page that mark_dirty has not yet announced. */
  datatype Guard = Guard(frame: nat, key: PageKey, unmarked: bool)

  datatype Pool = Pool(
    policy: Policy,
    frames: seq<Frame>,
    table: map<PageKey, nat>,
    loading: map<PageKey, Reservation>,
    order: seq<nat>,
    open: bool,
    stats: Stats,
    completions: map<nat, Completion>,
    nextId: nat,
    disk: map<PageKey, RawPage>,
    loads: map<nat, Load>,
    waiters: map<nat, Waiter>,
    guards: map<nat, Guard>,
    logical: map<PageKey, RawPage>)

  // ---------------------------------------------------------------- FifoReplacer

  function Without(order: seq<nat>, id: nat): (r: seq<nat>)
  {
    if order == [] then []
    else if order[0] == id then order[1..]
    else [order[0]] + Without(order[1..], id)
  }

  function RecordLoad(order: seq<nat>, id: nat): seq<nat> {
    Without(order, id) + [id]
  }

  // ---------------------------------------------------------------- searches over the frames

  function FirstFree(frames: seq<Frame>, from: nat := 0): (r: Option<nat>)
    requires from <= |frames|
    ensures r.Some? ==> r.value < |frames| && frames[r.value].state.Free?
    ensures r.None? ==> forall f :: from <= f < |frames| ==> !frames[f].state.Free?
    decreases |frames| - from
  {
    if from == |frames| then None
    else if frames[from].state.Free? then Some(from)
    else FirstFree(frames, from + 1)
  }

  predicate Eligible(frame: Frame, origin: Origin) {
    && frame.state.Ready? && frame.key.Some? && frame.pins == 0 && !frame.reserved
    && (origin.Prefetch? ==> !frame.dirty)
  }

  function ChooseVictim(order: seq<nat>, frames: seq<Frame>, origin: Origin): (r: Option<nat>)
    requires forall i :: 0 <= i < |order| ==> order[i] < |frames|
    ensures r.Some? ==> r.value in order && r.value < |frames| && Eligible(frames[r.value], origin)
  {
    if order == [] then None
    else if Eligible(frames[order[0]], origin) then Some(order[0])
    else ChooseVictim(order[1..], frames, origin)
  }

  // ---------------------------------------------------------------- steps

  /** The page table and the replacer name frames. */
  ghost predicate Shape(s: Pool) {
    && (forall k <- s.table :: s.table[k] < |s.frames|)
    && (forall i :: 0 <= i < |s.order| ==> s.order[i] < |s.frames|)
  }

  /** A load in flight names a frame and its completion. */
  ghost predicate LoadShape(s: Pool, c: nat) {
    c in s.loads && s.loads[c].frame < |s.frames| && c in s.completions
  }

  ghost predicate GuardShape(s: Pool, g: nat) {
    g in s.guards && s.guards[g].frame < |s.frames|
  }

  ghost function WithStats(s: Pool, stats: Stats): Pool {
    s.(stats := stats)
  }

  function Reset(f: Frame): Frame {
    f.(page := ZeroPage(), key := None, dirty := false, pins := 0, state := Free, completion := None, reserved := false)
  }

  /** A reserved frame that is accessed gets a new access generation. */
  function Touched(frame: Frame): Frame {
    frame.(generation := if frame.reserved then frame.generation + 1 else frame.generation)
  }

  ghost function Touch(s: Pool, f: nat): Pool
    requires f < |s.frames|
  {
    s.(frames := s.frames[f := Touched(s.frames[f])])
  }

  /** Pin the frame and hand out a guard. */
  ghost function Grant(s: Pool, key: PageKey, f: nat): Pool
    requires f < |s.frames|
  {
    s.(frames := s.frames[f := s.frames[f].(pins := s.frames[f].pins + 1)],
       guards := s.guards[s.nextId := Guard(f, key, false)],
       nextId := s.nextId + 1)
  }

  ghost function Promote(s: Pool, f: nat): Pool {
    s.(order := if s.policy.Lru? then RecordLoad(s.order, f) else s.order)
  }

  /** A fetch that finds its page in a READY frame, or finds it there after waiting. */
  ghost function Pin(s: Pool, key: PageKey, f: nat): Pool
    requires f < |s.frames|
  {
    if s.frames[f].pins >= MAX_PINS then Touch(s, f) else Promote(Grant(Touch(s, f), key, f), f)
  }

  ghost function Wait(s: Pool, key: PageKey, completion: nat): Pool {
    s.(waiters := s.waiters[s.nextId := Waiter(key, completion)], nextId := s.nextId + 1)
  }

  /** A FREE frame that waits for a page. */
  function ForLoad(frame: Frame, key: PageKey, completion: nat): Frame {
    frame.(ticket := frame.ticket + 1, key := Some(key), dirty := false, pins := 1, state := Loading,
           completion := Some(completion))
  }

  /** Reserve a FREE frame and start reading. */
  ghost function ReserveFree(s: Pool, key: PageKey, origin: Origin, f: nat): Pool
    requires f < |s.frames|
  {
    var c := s.nextId;
    var ticket := s.frames[f].ticket + 1;
    s.(frames := s.frames[f := ForLoad(s.frames[f], key, c)],
       table := s.table[key := f],
       completions := s.completions[c := Completion(origin, ticket, false, false)],
       loads := s.loads[c := Load(FreeFrame, key, f, origin, key, ticket, s.frames[f].generation, Reading)],
       stats := if origin.Demand? then s.stats.(freeFrameMisses := s.stats.freeFrameMisses + 1) else s.stats,
       nextId := c + 1)
  }

  /** A victim that is reserved under a new ticket. */
  function Reserved(frame: Frame): Frame {
    frame.(reserved := true, replacementTicket := frame.replacementTicket + 1)
  }

  function Selected(stats: Stats, dirty: bool): Stats {
    if dirty then stats.(dirtySelections := stats.dirtySelections + 1)
    else stats.(cleanSelections := stats.cleanSelections + 1)
  }

  /** Publish a reservation of an unpinned victim, clean or dirty, and start reading. */
  ghost function ReserveVictim(s: Pool, key: PageKey, origin: Origin, f: nat): Pool
    requires f < |s.frames| && s.frames[f].key.Some?
  {
    var c := s.nextId;
    var frame := s.frames[f];
    var ticket := frame.replacementTicket + 1;
    s.(frames := s.frames[f := Reserved(frame)],
       loading := s.loading[key := Reservation(f, frame.key.value, ticket, frame.generation, c)],
       completions := s.completions[c := Completion(origin, 0, false, false)],
       loads := s.loads[c := Load(if frame.dirty then DirtyVictim else CleanVictim,
                                  key, f, origin, frame.key.value, ticket, frame.generation, Reading)],
       stats := Selected(s.stats, frame.dirty),
       nextId := c + 1)
  }

  /** load_page's loop body once the page is known not to be READY anywhere. */
  ghost function Miss(t: Pool, key: PageKey, origin: Origin): Pool
    requires Shape(t)
  {
    if key in t.table then
      if t.frames[t.table[key]].completion.Some? then Wait(t, key, t.frames[t.table[key]].completion.value) else t
    else if key in t.loading then Wait(t, key, t.loading[key].completion)
    else
      var empty := FirstFree(t.frames);
      if empty.Some? then ReserveFree(t, key, origin, empty.value)
      else
        var victim := ChooseVictim(t.order, t.frames, origin);
        if victim.None? then t else ReserveVictim(t, key, origin, victim.value)
  }

  /** The first classification of a demand fetch is counted; a retry after waiting is not. */
  ghost function Count(s: Pool, hit: bool, counted: bool): Pool {
    s.(stats := s.stats.(hits := if counted && hit then s.stats.hits + 1 else s.stats.hits,
                         misses := if counted && !hit then s.stats.misses + 1 else s.stats.misses))
  }

  lemma CountKeepsShape(s: Pool, hit: bool, counted: bool)
    requires Shape(s)
    ensures Shape(Count(s, hit, counted)) && |Count(s, hit, counted).frames| == |s.frames|
  {
  }

  /** One turn of load_page's loop, up to the point where the lock is dropped or the call returns. */
  ghost function Attempt(s: Pool, key: PageKey, origin: Origin, classified: bool): Pool
    requires Shape(s)
  {
    CountKeepsShape(s, true, !classified && origin.Demand?);
    CountKeepsShape(s, false, !classified && origin.Demand?);
    if !s.open || (origin.Prefetch? && (key in s.table || key in s.loading)) then s
    else if key in s.table && s.frames[s.table[key]].state.Ready? then
      Pin(Count(s, true, !classified && origin.Demand?), key, s.table[key])
    else
      Miss(Count(s, false, !classified && origin.Demand?), key, origin)
  }

  ghost function Fetched(s: Pool, origin: Origin): Pool {
    s.(stats := s.stats.(fetches := if origin.Demand? then s.stats.fetches + 1 else s.stats.fetches))
  }

  /** Entry of load_page. */
  ghost function Begin(s: Pool, key: PageKey, origin: Origin): Pool
    requires Shape(s)
  {
    if !s.open || key.page == 0 then s
    else
      Attempt(Fetched(s, origin), key, origin, false)
  }

  /** The page read of a load, made without the lock; `succeeds` is the outcome of the I/O. */
  ghost function ReadIo(s: Pool, c: nat, succeeds: bool): Pool
    requires c in s.loads && s.loads[c].io.Reading?
  {
    var load := s.loads[c];
    var result := if succeeds && load.key in s.disk then Some(s.disk[load.key]) else None;
    s.(loads := s.loads[c := load.(io := ReadDone(result))])
  }

  ghost function Complete(s: Pool, c: nat, failed: bool): Pool
    requires c in s.completions
  {
    s.(completions := s.completions[c := s.completions[c].(done := true, failed := failed)], loads := s.loads - {c})
  }

  /** The FREE-frame reservation still belongs to this load (the test after relocking). */
  ghost predicate FreeMatches(s: Pool, c: nat)
    requires LoadShape(s, c)
  {
    var load := s.loads[c];
    var frame := s.frames[load.frame];
    && frame.state.Loading? && frame.key == Some(load.key)
    && frame.ticket == s.completions[c].ticket && frame.completion == Some(c)
  }

  ghost function FinishFree(s: Pool, c: nat): Pool
    requires LoadShape(s, c) && s.loads[c].io.ReadDone?
  {
    var load := s.loads[c];
    var frame := s.frames[load.frame];
    if !FreeMatches(s, c) then Complete(s, c, true)
    else if load.io.result.None? then
      Complete(s.(table := s.table - {load.key}, frames := s.frames[load.frame := Reset(frame)]), c, true)
    else
      var t := Complete(PublishFree(s, c, load.io.result.value), c, false);
      if load.origin.Prefetch? then t else Grant(t, load.key, load.frame)
  }

  function Loaded(frame: Frame, page: RawPage): Frame {
    frame.(page := page, state := Ready, dirty := false, completion := None, pins := 0)
  }

  /** The LOADING frame becomes READY, unpinned. */
  ghost function PublishFree(s: Pool, c: nat, page: RawPage): Pool
    requires LoadShape(s, c)
  {
    var f := s.loads[c].frame;
    s.(frames := s.frames[f := Loaded(s.frames[f], page)],
       order := RecordLoad(s.order, f))
  }

  ghost predicate Published(s: Pool, c: nat)
    requires c in s.loads
  {
    s.loads[c].key in s.loading && s.loading[s.loads[c].key].completion == c
  }

  ghost predicate VictimOwned(s: Pool, c: nat)
    requires LoadShape(s, c)
  {
    var frame := s.frames[s.loads[c].frame];
    frame.reserved && frame.replacementTicket == s.loads[c].ticket
  }

  /** complete_failure: withdraw the reservation and wake the waiters with an error. */
  ghost function Abandon(s: Pool, c: nat): Pool
    requires LoadShape(s, c)
  {
    var load := s.loads[c];
    var frame := s.frames[load.frame];
    Complete(s.(loading := if Published(s, c) then s.loading - {load.key} else s.loading,
                frames := if VictimOwned(s, c) then s.frames[load.frame := frame.(reserved := false)] else s.frames),
             c, true)
  }

  ghost predicate VictimUntouched(s: Pool, c: nat, dirty: bool, generation: nat)
    requires LoadShape(s, c)
  {
    var load := s.loads[c];
    var frame := s.frames[load.frame];
    && s.open && frame.state.Ready? && frame.key == Some(load.oldKey)
    && load.oldKey in s.table && s.table[load.oldKey] == load.frame
    && frame.dirty == dirty && frame.pins == 0 && VictimOwned(s, c) && frame.generation == generation
  }

  /** Give the victim frame to the requested page. */
  ghost function Replace(s: Pool, c: nat, page: RawPage): Pool
    requires LoadShape(s, c)
  {
    var load := s.loads[c];
    var t := Complete(Swap(s, c, page), c, false);
    if load.origin.Prefetch? then t else Grant(t, load.key, load.frame)
  }

  /** A victim's frame, given to another page. */
  function TakenOver(frame: Frame, key: PageKey, page: RawPage): Frame {
    frame.(page := page, key := Some(key), dirty := false, ticket := frame.ticket + 1, state := Ready, pins := 0,
           reserved := false, completion := None)
  }

  ghost function Swap(s: Pool, c: nat, page: RawPage): Pool
    requires LoadShape(s, c)
  {
    var load := s.loads[c];
    var ready := TakenOver(s.frames[load.frame], load.key, page);
    s.(table := s.table[load.key := load.frame] - {load.oldKey},
       frames := s.frames[load.frame := ready],
       loading := s.loading - {load.key},
       order := RecordLoad(s.order, load.frame),
       completions := s.completions[c := s.completions[c].(ticket := ready.ticket)])
  }

  ghost function FinishClean(s: Pool, c: nat): Pool
    requires LoadShape(s, c) && s.loads[c].io.ReadDone?
  {
    var load := s.loads[c];
    if !Published(s, c) || load.io.result.None? then Abandon(s, c)
    else if !VictimUntouched(s, c, false, load.generation) then
      Abandon(WithStats(s, s.stats.CleanCancelled()), c)
    else
      Replace(WithStats(s, s.stats.CleanCommitted()), c, load.io.result.value)
  }

  /** After the read for a dirty victim: snapshot the victim and drop the lock again to write it back. */
  ghost function SnapshotDirty(s: Pool, c: nat): Pool
    requires LoadShape(s, c) && s.loads[c].io.ReadDone?
  {
    var load := s.loads[c];
    if !Published(s, c) || load.io.result.None? then Abandon(s, c)
    else if !VictimUntouched(s, c, true, load.generation) then
      Abandon(WithStats(s, s.stats.DirtyCancelled()), c)
    else
      var frame := s.frames[load.frame];
      s.(loads := s.loads[c := load.(io := Writing(load.io.result.value, frame.page, frame.generation))])
  }

  /** The write-back, made without the lock. A failed write may leave any bytes behind. */
  ghost function WriteIo(s: Pool, c: nat, succeeds: bool, garbage: RawPage): Pool
    requires c in s.loads && s.loads[c].io.Writing?
  {
    var load := s.loads[c];
    var io := load.io;
    s.(disk := s.disk[load.oldKey := if succeeds then io.snapshot else garbage],
       loads := s.loads[c := load.(io := WriteDone(io.loaded, io.snapshot, io.writeGeneration, succeeds))])
  }

  ghost function FinishDirty(s: Pool, c: nat): Pool
    requires LoadShape(s, c) && s.loads[c].io.WriteDone?
  {
    if !s.loads[c].io.landed then Abandon(s, c)
    else CommitDirty(WithStats(s, s.stats.DirtyLanded()), c)
  }

  ghost function CommitDirty(s: Pool, c: nat): Pool
    requires LoadShape(s, c) && s.loads[c].io.WriteDone?
  {
    var io := s.loads[c].io;
    if !Published(s, c) || !VictimUntouched(s, c, true, io.writeGeneration) then
      Abandon(WithStats(s, s.stats.DirtyCancelled()), c)
    else
      Replace(WithStats(s, s.stats.DirtyCommitted()), c, io.loaded)
  }

  /** A blocked fetcher runs again once the completion it waits for is done. */
  ghost function Wake(s: Pool, w: nat): Pool
    requires Shape(s) && w in s.waiters && s.waiters[w].completion in s.completions
  {
    var waiter := s.waiters[w];
    var completion := s.completions[waiter.completion];
    var t := s.(waiters := s.waiters - {w});
    var published :=
      && waiter.key in s.table && s.frames[s.table[waiter.key]].state.Ready?
      && s.frames[s.table[waiter.key]].key == Some(waiter.key)
      && s.frames[s.table[waiter.key]].ticket == completion.ticket;
    if completion.failed || !published then
      if completion.origin.Prefetch? then Attempt(t, waiter.key, Demand, true) else t
    else
      Pin(t, waiter.key, s.table[waiter.key])
  }

  // Guard operations.

  ghost function GuardWrite(s: Pool, g: nat, page: RawPage): Pool
    requires GuardShape(s, g)
  {
    var guard := s.guards[g];
    s.(frames := s.frames[guard.frame := s.frames[guard.frame].(page := page)],
       guards := s.guards[g := guard.(unmarked := true)],
       logical := s.logical[guard.key := page])
  }

  ghost function MarkDirty(s: Pool, g: nat): Pool
    requires GuardShape(s, g)
  {
    var guard := s.guards[g];
    var frame := s.frames[guard.frame];
    s.(frames := s.frames[guard.frame :=
                   frame.(dirty := true,
                       generation := if frame.reserved then frame.generation + 1 else frame.generation)],
       guards := s.guards[g := guard.(unmarked := false)])
  }

  ghost function Unpin(s: Pool, g: nat): Pool
    requires GuardShape(s, g) && s.frames[s.guards[g].frame].pins > 0
  {
    var frame := s.frames[s.guards[g].frame];
    s.(frames := s.frames[s.guards[g].frame := frame.(pins := frame.pins - 1)], guards := s.guards - {g})
  }

  // Flushing, releasing and closing.

  ghost predicate Flushable(s: Pool, f: nat) {
    f < |s.frames| && s.frames[f].state.Ready? && s.frames[f].key.Some? && s.frames[f].dirty
  }

  ghost function FlushOk(s: Pool, f: nat): Pool
    requires Flushable(s, f)
  {
    s.(disk := s.disk[s.frames[f].key.value := s.frames[f].page],
       frames := s.frames[f := s.frames[f].(dirty := false)],
       stats := s.stats.(dirtyFlushes := s.stats.dirtyFlushes + 1))
  }

  ghost function FlushFail(s: Pool, f: nat, garbage: RawPage): Pool
    requires Flushable(s, f)
  {
    s.(disk := s.disk[s.frames[f].key.value := garbage])
  }

  predicate Belongs(frame: Frame, table: nat) {
    frame.key.Some? && frame.key.value.table == table
  }

  /** All frames, or those of one table. */
  predicate InScope(frame: Frame, scope: Option<nat>) {
    scope.None? || Belongs(frame, scope.value)
  }

  /** Reset the frames in scope. */
  function Forget(frames: seq<Frame>, scope: Option<nat>): (r: seq<Frame>)
    ensures |r| == |frames|
    ensures forall f :: 0 <= f < |frames| ==> r[f] == if InScope(frames[f], scope) then Reset(frames[f]) else frames[f]
  {
    if frames == [] then []
    else Forget(frames[..|frames| - 1], scope) +
         [if InScope(frames[|frames| - 1], scope) then Reset(frames[|frames| - 1]) else frames[|frames| - 1]]
  }

  /** The prepare pass of release_table succeeded and every dirty frame of the table has been flushed. */
  ghost predicate Releasable(s: Pool, table: nat) {
    && s.open
    && (forall k <- s.loading :: k.table != table && s.loading[k].oldKey.table != table)
    && (forall f :: 0 <= f < |s.frames| && Belongs(s.frames[f], table) ==> s.frames[f].pins == 0 && !s.frames[f].dirty)
  }

  function Evicted(order: seq<nat>, frames: seq<Frame>, table: nat): (r: seq<nat>)
    requires forall i :: 0 <= i < |order| ==> order[i] < |frames|
    ensures forall i :: 0 <= i < |r| ==> r[i] in order
  {
    if order == [] then []
    else if Belongs(frames[order[0]], table) then Evicted(order[1..], frames, table)
    else [order[0]] + Evicted(order[1..], frames, table)
  }

  function OtherTables(pages: map<PageKey, nat>, table: nat): map<PageKey, nat> {
    map k | k in pages && k.table != table :: pages[k]
  }

  ghost function Release(s: Pool, table: nat): Pool
    requires Shape(s)
  {
    s.(table := OtherTables(s.table, table),
       order := Evicted(s.order, s.frames, table),
       frames := Forget(s.frames, Some(table)))
  }

  /** The tests of close() passed and flush_all has succeeded. */
  ghost predicate Closable(s: Pool) {
    && s.open && s.loading == map[]
    && (forall f :: 0 <= f < |s.frames| ==> s.frames[f].pins == 0 && !s.frames[f].reserved && !s.frames[f].dirty)
  }

  ghost function Close(s: Pool): Pool {
    s.(table := map[], order := [], open := false, frames := Forget(s.frames, None))
  }
}
