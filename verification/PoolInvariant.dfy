/** What every reachable state of the buffer pool satisfies. */
module PoolInvariant {
  import opened Common
  import opened PoolState

  /** Some published reservation names the frame as its victim. */
  ghost predicate Backed(loading: map<PageKey, Reservation>, f: nat) {
    exists k :: k in loading && loading[k].victim == f
  }

  /** A frame agrees with the page table and with the load or the guards that hold it. */
  ghost predicate FrameOk(s: Pool, f: nat)
    requires f < |s.frames|
  {
    var frame := s.frames[f];
    && (frame.key.Some? <==> !frame.state.Free?)
    && (frame.key.Some? ==> frame.key.value in s.table && s.table[frame.key.value] == f)
    && (frame.completion.Some? <==> frame.state.Loading?)
    && (frame.state.Free? ==> !frame.dirty && frame.pins == 0 && !frame.reserved)
    && (frame.state.Loading? ==>
          && !frame.dirty && frame.pins == 1 && !frame.reserved
          && frame.completion.value in s.loads && s.loads[frame.completion.value].kind.FreeFrame?
          && s.loads[frame.completion.value].frame == f)
    && (frame.reserved ==> Backed(s.loading, f))
  }

  ghost predicate FramesOk(s: Pool) {
    forall f: nat :: f < |s.frames| ==> FrameOk(s, f)
  }

  ghost predicate TableOk(s: Pool) {
    && (forall k <- s.table :: s.table[k] < |s.frames| && s.frames[s.table[k]].key == Some(k))
    && (forall k <- s.table :: s.frames[s.table[k]].state.Ready? ==> k in s.disk)
  }

  ghost predicate LoadOk(s: Pool, c: nat)
    requires c in s.loads
  {
    var load := s.loads[c];
    && c in s.completions && !s.completions[c].done && s.completions[c].origin == load.origin
    && load.frame < |s.frames|
    && if load.kind.FreeFrame? then
         && s.frames[load.frame].completion == Some(c)
         && s.frames[load.frame].key == Some(load.key)
         && s.frames[load.frame].ticket == s.completions[c].ticket
         && (load.io.Reading? || load.io.ReadDone?)
       else
         && load.key in s.loading
         && s.loading[load.key] == Reservation(load.frame, load.oldKey, load.ticket, load.generation, c)
         && s.frames[load.frame].state.Ready? && s.frames[load.frame].key == Some(load.oldKey)
         && s.frames[load.frame].reserved && s.frames[load.frame].replacementTicket == load.ticket
         && (load.kind.CleanVictim? ==> load.io.Reading? || load.io.ReadDone?)
  }

  ghost predicate LoadsOk(s: Pool) {
    && (forall c <- s.loads :: LoadOk(s, c))
    && (forall c, d :: c in s.loads && d in s.loads && s.loads[c].frame == s.loads[d].frame ==> c == d)
  }

  /** Requested keys in the loading table name a live load and are not in the page table. */
  ghost predicate LoadingOk(s: Pool) {
    forall k <- s.loading ::
      && k !in s.table
      && s.loading[k].completion in s.loads
      && !s.loads[s.loading[k].completion].kind.FreeFrame?
      && s.loads[s.loading[k].completion].key == k
      && s.loads[s.loading[k].completion].frame == s.loading[k].victim
  }

  ghost function Holders(guards: map<nat, Guard>, f: nat): set<nat> {
    set g | g in guards && guards[g].frame == f
  }

  ghost predicate GuardsOk(s: Pool) {
    && (forall g <- s.guards ::
          && s.guards[g].frame < |s.frames|
          && s.frames[s.guards[g].frame].state.Ready?
          && s.frames[s.guards[g].frame].key == Some(s.guards[g].key))
    && (forall f: nat :: f < |s.frames| && s.frames[f].state.Ready? ==> s.frames[f].pins == |Holders(s.guards, f)|)
  }

  ghost predicate Distinct(order: seq<nat>) {
    forall i, j :: 0 <= i < j < |order| ==> order[i] != order[j]
  }

  /** The replacer lists exactly the READY frames, each once. */
  ghost predicate OrderOk(s: Pool) {
    && Distinct(s.order)
    && (forall f: nat :: f in s.order <==> f < |s.frames| && s.frames[f].state.Ready?)
  }

  ghost predicate IdsOk(s: Pool) {
    && (forall c <- s.completions :: c < s.nextId)
    && (forall c <- s.loads :: c < s.nextId)
    && (forall g <- s.guards :: g < s.nextId)
    && (forall w <- s.waiters :: w < s.nextId && s.waiters[w].completion in s.completions)
  }

  ghost predicate StatsOk(s: Pool) {
    && s.stats.fetches == s.stats.hits + s.stats.misses
    && s.stats.evictions == s.stats.cleanCommits + s.stats.dirtyCommits
    && s.stats.dirtyCommits <= s.stats.dirtyFlushes
    && s.stats.dirtyCommits <= s.stats.dirtyWriteSuccesses
  }

  ghost predicate Structure(s: Pool) {
    FramesOk(s) && TableOk(s) && LoadsOk(s) && LoadingOk(s) && GuardsOk(s) && OrderOk(s) && IdsOk(s)
  }

  // ---------------------------------------------------------------- coherence

  ghost predicate Resident(s: Pool, k: PageKey) {
    k in s.table && s.table[k] < |s.frames| && s.frames[s.table[k]].state.Ready?
  }

  /** No guard of the frame has changed the page without announcing it. */
  ghost predicate AllMarked(s: Pool, f: nat) {
    forall g <- s.guards :: s.guards[g].frame == f ==> !s.guards[g].unmarked
  }

  /** The content a reader sees: the READY frame's bytes if there is one, the disk's otherwise. */
  ghost predicate Current(s: Pool, k: PageKey)
    requires k in s.disk && k in s.logical
  {
    s.logical[k] == if Resident(s, k) then s.frames[s.table[k]].page else s.disk[k]
  }

  ghost predicate CleanMatchesDisk(s: Pool, f: nat)
    requires f < |s.frames|
  {
    var frame := s.frames[f];
    frame.state.Ready? && frame.key.Some? && !frame.dirty && AllMarked(s, f) ==>
      frame.key.value in s.disk && s.disk[frame.key.value] == frame.page
  }

  /** The coherence promise: readers see the last write, and a clean frame may be dropped. */
  ghost predicate Coherent(s: Pool) {
    && s.disk.Keys == s.logical.Keys
    && (forall k :: k in s.disk && k in s.logical ==> Current(s, k))
    && (forall f: nat :: f < |s.frames| ==> CleanMatchesDisk(s, f))
  }

  /** What an in-flight load knows about the bytes it carries. */
  ghost predicate CarriesCurrent(s: Pool, c: nat)
    requires c in s.loads && s.loads[c].frame < |s.frames|
  {
    var load := s.loads[c];
    var frame := s.frames[load.frame];
    match load.io
    case Reading => true
    case ReadDone(result) => result.Some? ==> load.key in s.logical && s.logical[load.key] == result.value
    case Writing(loaded, snapshot, g) =>
      && load.key in s.logical && s.logical[load.key] == loaded
      && (frame.dirty || !AllMarked(s, load.frame))
      && g <= frame.generation && (g == frame.generation ==> frame.pins == 0 && frame.page == snapshot)
    case WriteDone(loaded, snapshot, g, landed) =>
      && load.key in s.logical && s.logical[load.key] == loaded
      && g <= frame.generation && (g == frame.generation ==> frame.pins == 0 && frame.page == snapshot)
      && (landed && g == frame.generation && frame.dirty ==>
            load.oldKey in s.disk && s.disk[load.oldKey] == snapshot)
  }

  ghost predicate LoadsCarryCurrent(s: Pool) {
    forall c <- s.loads :: s.loads[c].frame < |s.frames| && CarriesCurrent(s, c)
  }

  ghost predicate Inv(s: Pool) {
    Structure(s) && StatsOk(s) && Coherent(s) && LoadsCarryCurrent(s)
  }

  /** A write-back of the frame is in flight, and no guard is about to mark the frame dirty again. */
  ghost predicate FlushHazard(s: Pool, f: nat) {
    AllMarked(s, f) && exists c :: c in s.loads && WritesBack(s, c, f)
  }

  /** The load writes the frame back and is still able to land or to commit. */
  ghost predicate WritesBack(s: Pool, c: nat, f: nat)
    requires c in s.loads
  {
    && s.loads[c].frame == f && f < |s.frames|
    && (|| s.loads[c].io.Writing?
        || (s.loads[c].io.WriteDone? && s.loads[c].io.landed
            && s.loads[c].io.writeGeneration == s.frames[f].generation))
  }

  // ---------------------------------------------------------------- steps and runs

  datatype Label =
    | Fetch(key: PageKey, origin: Origin)
    | DoRead(load: nat, succeeds: bool)
    | DoFinishFree(load: nat)
    | DoFinishClean(load: nat)
    | DoSnapshot(load: nat)
    | DoWrite(load: nat, succeeds: bool, garbage: RawPage)
    | DoFinishDirty(load: nat)
    | DoWake(waiter: nat)
    | DoGuardWrite(guard: nat, page: RawPage)
    | DoMarkDirty(guard: nat)
    | DoUnpin(guard: nat)
    | DoFlush(frame: nat, succeeds: bool, garbage: RawPage)
    | DoRelease(table: nat)
    | DoClose

  /** A step can happen. Guards announce their writes before release; flushes avoid FlushHazard. */
  ghost predicate Enabled(s: Pool, l: Label) {
    match l
    case Fetch(key, _) => Shape(s)
    case DoRead(c, ok) => c in s.loads && s.loads[c].io.Reading?
    case DoFinishFree(c) => LoadShape(s, c) && s.loads[c].kind.FreeFrame? && s.loads[c].io.ReadDone?
    case DoFinishClean(c) => LoadShape(s, c) && s.loads[c].kind.CleanVictim? && s.loads[c].io.ReadDone?
    case DoSnapshot(c) => LoadShape(s, c) && s.loads[c].kind.DirtyVictim? && s.loads[c].io.ReadDone?
    case DoWrite(c, _, _) => c in s.loads && s.loads[c].io.Writing?
    case DoFinishDirty(c) => LoadShape(s, c) && s.loads[c].io.WriteDone?
    case DoWake(w) =>
      Shape(s) && w in s.waiters && s.waiters[w].completion in s.completions &&
      s.completions[s.waiters[w].completion].done
    case DoGuardWrite(g, _) => GuardShape(s, g)
    case DoMarkDirty(g) => GuardShape(s, g)
    case DoUnpin(g) => GuardShape(s, g) && !s.guards[g].unmarked && s.frames[s.guards[g].frame].pins > 0
    case DoFlush(f, _, _) => Flushable(s, f) && !FlushHazard(s, f)
    case DoRelease(table) => Shape(s) && Releasable(s, table)
    case DoClose => Closable(s)
  }

  ghost function Apply(s: Pool, l: Label): Pool
    requires Enabled(s, l)
  {
    match l
    case Fetch(key, origin) => Begin(s, key, origin)
    case DoRead(c, ok) => ReadIo(s, c, ok)
    case DoFinishFree(c) => FinishFree(s, c)
    case DoFinishClean(c) => FinishClean(s, c)
    case DoSnapshot(c) => SnapshotDirty(s, c)
    case DoWrite(c, ok, garbage) => WriteIo(s, c, ok, garbage)
    case DoFinishDirty(c) => FinishDirty(s, c)
    case DoWake(w) => Wake(s, w)
    case DoGuardWrite(g, page) => GuardWrite(s, g, page)
    case DoMarkDirty(g) => MarkDirty(s, g)
    case DoUnpin(g) => Unpin(s, g)
    case DoFlush(f, ok, garbage) => if ok then FlushOk(s, f) else FlushFail(s, f, garbage)
    case DoRelease(table) => Release(s, table)
    case DoClose => Close(s)
  }

  /** A freshly created pool over a disk. */
  ghost function Initial(policy: Policy, capacity: nat, disk: map<PageKey, RawPage>): Pool {
    Pool(policy,
         seq(capacity, _ => Frame(ZeroPage(), None, false, 0, Free, 0, None, false, 0, 0)),
         map[], map[], [], true, Stats(0, 0, 0, 0, 0, 0, 0, 0, 0, 0, 0, 0, 0), map[], 0,
         disk, map[], map[], map[], disk)
  }

  /** The labels can be taken one after the other, starting in s. */
  ghost predicate CanRun(s: Pool, labels: seq<Label>)
    decreases |labels|, 0
  {
    labels == [] ||
    (CanRun(s, labels[..|labels| - 1]) && Enabled(Run(s, labels[..|labels| - 1]), labels[|labels| - 1]))
  }

  /** The state after the labels. */
  ghost function Run(s: Pool, labels: seq<Label>): Pool
    requires CanRun(s, labels)
    decreases |labels|, 1
  {
    if labels == [] then s else Apply(Run(s, labels[..|labels| - 1]), labels[|labels| - 1])
  }
}
