/**
 The pool's methods, each one region under metadata_mutex_ written as the source writes it: fields are
 updated in place and the searches are loops. Every method is proved to take exactly the corresponding
 step of PoolState, so what PoolTheorems proves about runs holds of these bodies.

 The ghost fields are the environment: the disk, the loads in flight, the blocked fetchers and the live
 guards. The outcome of a page write made under the lock is a parameter.
 */
module BufferPools {
  import opened Common
  import opened PoolState
  import opened PoolInvariant
  import opened PoolSteps
  import opened PoolFinish
  import opened PoolTheorems

  lemma WithoutStep(order: seq<nat>, id: nat, i: nat)
    requires i < |order| && order[..i] + Without(order[i..], id) == Without(order, id)
    ensures if order[i] == id then order[..i] + order[i + 1..] == Without(order, id)
            else order[..i + 1] + Without(order[i + 1..], id) == Without(order, id)
  {
    assert order[i..][1..] == order[i + 1..];
    if order[i] != id {
      assert order[..i + 1] == order[..i] + [order[i]];
    }
  }

  /** FifoReplacer::remove: find the frame and erase it. */
  method RemoveFrame(order: seq<nat>, id: nat) returns (r: seq<nat>)
    ensures r == Without(order, id)
  {
    var i := 0;
    assert order[0..] == order && order[..0] == [];
    while i < |order|
      invariant 0 <= i <= |order|
      invariant order[..i] + Without(order[i..], id) == Without(order, id)
    {
      WithoutStep(order, id, i);
      if order[i] == id {
        return order[..i] + order[i + 1..];
      }
      i := i + 1;
    }
    assert order[i..] == [] && order[..i] == order;
    r := order;
  }

  method FindFree(frames: seq<Frame>) returns (r: Option<nat>)
    ensures r == FirstFree(frames)
  {
    var i := 0;
    while i < |frames| && !frames[i].state.Free?
      invariant 0 <= i <= |frames|
      invariant FirstFree(frames) == FirstFree(frames, i)
    {
      i := i + 1;
    }
    r := if i < |frames| then Some(i) else None;
  }

  method FindVictim(order: seq<nat>, frames: seq<Frame>, origin: Origin) returns (r: Option<nat>)
    requires forall i :: 0 <= i < |order| ==> order[i] < |frames|
    ensures r == ChooseVictim(order, frames, origin)
  {
    var i := 0;
    while i < |order| && !Eligible(frames[order[i]], origin)
      invariant 0 <= i <= |order|
      invariant ChooseVictim(order, frames, origin) == ChooseVictim(order[i..], frames, origin)
    {
      i := i + 1;
    }
    r := if i < |order| then Some(order[i]) else None;
  }

  /** How a page write ended; a failed write leaves some bytes behind. */
  datatype Write = Landed | Lost(garbage: RawPage)

  class BufferPool {
    const policy: Policy
    var frames: seq<Frame>
    var table: map<PageKey, nat>
    var loading: map<PageKey, Reservation>
    var order: seq<nat>
    var open: bool
    var stats: Stats
    var completions: map<nat, Completion>
    var nextId: nat
    ghost var disk: map<PageKey, RawPage>
    ghost var loads: map<nat, Load>
    ghost var waiters: map<nat, Waiter>
    ghost var guards: map<nat, Guard>
    ghost var logical: map<PageKey, RawPage>

    ghost function State(): Pool
      reads this
    {
      Pool(policy, frames, table, loading, order, open, stats, completions, nextId, disk, loads, waiters, guards,
          logical)
    }

    constructor (policy: Policy, capacity: nat, ghost disk: map<PageKey, RawPage>)
      ensures State() == Initial(policy, capacity, disk)
    {
      this.policy := policy;
      frames := seq(capacity, _ => Frame(ZeroPage(), None, false, 0, Free, 0, None, false, 0, 0));
      table, loading, order, open := map[], map[], [], true;
      stats := Stats(0, 0, 0, 0, 0, 0, 0, 0, 0, 0, 0, 0, 0);
      completions, nextId := map[], 0;
      this.disk, loads, waiters, guards, logical := disk, map[], map[], map[], disk;
    }

    /** The hit path: bump the generation of a reserved frame, pin it, reorder under LRU. */
    method PinFrame(key: PageKey, f: nat) returns (granted: bool)
      requires f < |frames|
      modifies this
      ensures State() == Pin(old(State()), key, f)
      ensures granted <==> old(frames[f].pins) < MAX_PINS
    {
      frames := frames[f := Touched(frames[f])];
      if frames[f].pins >= MAX_PINS {
        return false;
      }
      frames := frames[f := frames[f].(pins := frames[f].pins + 1)];
      guards := guards[nextId := Guard(f, key, false)];
      nextId := nextId + 1;
      if policy.Lru? {
        var rest := RemoveFrame(order, f);
        order := rest + [f];
      }
      return true;
    }

    /** load_page's loop body when the page is READY nowhere. */
    method MissPage(key: PageKey, origin: Origin)
      requires Shape(State())
      modifies this
      ensures State() == Miss(old(State()), key, origin)
    {
      if key in table {
        if frames[table[key]].completion.Some? {
          waiters := waiters[nextId := Waiter(key, frames[table[key]].completion.value)];
          nextId := nextId + 1;
        }
        return;
      }
      if key in loading {
        waiters := waiters[nextId := Waiter(key, loading[key].completion)];
        nextId := nextId + 1;
        return;
      }
      var empty := FindFree(frames);
      if empty.Some? {
        ReserveFreeFrame(key, origin, empty.value);
        return;
      }
      var victim := FindVictim(order, frames, origin);
      if victim.Some? {
        ReserveVictimFrame(key, origin, victim.value);
      }
    }

    method ReserveFreeFrame(key: PageKey, origin: Origin, f: nat)
      requires f < |frames|
      modifies this
      ensures State() == ReserveFree(old(State()), key, origin, f)
    {
      if origin.Demand? {
        stats := stats.(freeFrameMisses := stats.freeFrameMisses + 1);
      }
      var ticket := frames[f].ticket + 1;
      var load := Load(FreeFrame, key, f, origin, key, ticket, frames[f].generation, Reading);
      frames := frames[f := ForLoad(frames[f], key, nextId)];
      table := table[key := f];
      StartLoad(Completion(origin, ticket, false, false), load);
    }

    /** A completion to wait for, and the load that will settle it. */
    method StartLoad(completion: Completion, load: Load)
      modifies this`completions, this`loads, this`nextId
      ensures completions == old(completions)[old(nextId) := completion]
      ensures loads == old(loads)[old(nextId) := load] && nextId == old(nextId) + 1
    {
      completions := completions[nextId := completion];
      loads := loads[nextId := load];
      nextId := nextId + 1;
    }

    method ReserveVictimFrame(key: PageKey, origin: Origin, f: nat)
      requires f < |frames| && frames[f].key.Some?
      modifies this
      ensures State() == ReserveVictim(old(State()), key, origin, f)
    {
      ghost var want := ReserveVictim(State(), key, origin, f);
      var target := frames[f];
      stats := Selected(stats, target.dirty);
      var ticket := target.replacementTicket + 1;
      loading := loading[key := Reservation(f, target.key.value, ticket, target.generation, nextId)];
      frames := frames[f := Reserved(target)];
      StartLoad(Completion(origin, 0, false, false),
                Load(if target.dirty then DirtyVictim else CleanVictim,
                     key, f, origin, target.key.value, ticket, target.generation, Reading));
      assert stats == want.stats && loading == want.loading && frames == want.frames && loads == want.loads;
    }

    /** complete_failure of the two replacement branches. */
    method CompleteFailure(c: nat, load: Load)
      requires LoadShape(State(), c) && loads[c] == load
      modifies this
      ensures State() == Abandon(old(State()), c)
    {
      if load.key in loading && loading[load.key].completion == c {
        loading := loading - {load.key};
      }
      if frames[load.frame].reserved && frames[load.frame].replacementTicket == load.ticket {
        frames := frames[load.frame := frames[load.frame].(reserved := false)];
      }
      CompleteLoad(c, true);
    }

    /** Publish the outcome to the waiters; the load is over. */
    method CompleteLoad(c: nat, failed: bool)
      requires c in completions
      modifies this
      ensures State() == Complete(old(State()), c, failed)
    {
      completions := completions[c := completions[c].(done := true, failed := failed)];
      loads := loads - {c};
    }

    method GrantGuard(key: PageKey, f: nat)
      requires f < |frames|
      modifies this
      ensures State() == Grant(old(State()), key, f)
    {
      frames := frames[f := frames[f].(pins := frames[f].pins + 1)];
      guards := guards[nextId := Guard(f, key, false)];
      nextId := nextId + 1;
    }

    /** The commit of a replacement: insert the new key, erase the old one, publish the frame. */
    method SwapFrame(c: nat, load: Load, page: RawPage)
      requires LoadShape(State(), c) && loads[c] == load
      modifies this
      ensures State() == Swap(old(State()), c, page)
    {
      var f := load.frame;
      ghost var want := Swap(State(), c, page);
      var ready := TakenOver(frames[f], load.key, page);
      var rest := RemoveFrame(order, f);
      table := table[load.key := f] - {load.oldKey};
      frames := frames[f := ready];
      loading := loading - {load.key};
      order := rest + [f];
      completions := completions[c := completions[c].(ticket := ready.ticket)];
      assert table == want.table && frames == want.frames && order == want.order && completions == want.completions;
    }

    method CommitReplacement(c: nat, load: Load, page: RawPage)
      requires LoadShape(State(), c) && loads[c] == load
      modifies this
      ensures State() == Replace(old(State()), c, page)
    {
      SwapFrame(c, load, page);
      CompleteLoad(c, false);
      if load.origin.Demand? {
        GrantGuard(load.key, load.frame);
      }
    }

    /** The lock region after the read of a clean replacement. */
    method FinishCleanLoad(c: nat, load: Load)
      requires LoadShape(State(), c) && loads[c] == load && load.kind.CleanVictim? && load.io.ReadDone?
      modifies this
      ensures State() == FinishClean(old(State()), c)
    {
      var target := frames[load.frame];
      var published := load.key in loading && loading[load.key].completion == c;
      if !published || load.io.result.None? {
        CompleteFailure(c, load);
        return;
      }
      var owned := target.reserved && target.replacementTicket == load.ticket;
      var canCommit :=
        && open && target.state.Ready? && target.key == Some(load.oldKey)
        && load.oldKey in table && table[load.oldKey] == load.frame
        && !target.dirty && target.pins == 0 && owned && target.generation == load.generation;
      if !canCommit {
        stats := stats.CleanCancelled();
        CompleteFailure(c, load);
      } else {
        stats := stats.CleanCommitted();
        CommitReplacement(c, load, load.io.result.value);
      }
    }

    /** The lock region after the read for a dirty victim; a result means the write-back may start. */
    method SnapshotVictim(c: nat, load: Load) returns (snapshot: Option<(RawPage, nat)>)
      requires LoadShape(State(), c) && loads[c] == load && load.kind.DirtyVictim? && load.io.ReadDone?
      modifies this
      ensures State() == SnapshotDirty(old(State()), c)
      ensures snapshot.Some? ==> snapshot.value == (old(frames[load.frame].page), old(frames[load.frame].generation))
    {
      var target := frames[load.frame];
      var published := load.key in loading && loading[load.key].completion == c;
      if !published || load.io.result.None? {
        CompleteFailure(c, load);
        return None;
      }
      var owned := target.reserved && target.replacementTicket == load.ticket;
      var canSnapshot :=
        && open && target.state.Ready? && target.key == Some(load.oldKey)
        && load.oldKey in table && table[load.oldKey] == load.frame
        && target.dirty && target.pins == 0 && owned && target.generation == load.generation;
      if !canSnapshot {
        stats := stats.DirtyCancelled();
        CompleteFailure(c, load);
        return None;
      }
      loads := loads[c := load.(io := Writing(load.io.result.value, target.page, target.generation))];
      return Some((target.page, target.generation));
    }

    /** The lock region after the write-back of a dirty victim. */
    method FinishDirtyLoad(c: nat, load: Load)
      requires LoadShape(State(), c) && loads[c] == load && load.io.WriteDone?
      modifies this
      ensures State() == FinishDirty(old(State()), c)
    {
      if !load.io.landed {
        CompleteFailure(c, load);
        return;
      }
      stats := stats.DirtyLanded();
      var target := frames[load.frame];
      var published := load.key in loading && loading[load.key].completion == c;
      var owned := target.reserved && target.replacementTicket == load.ticket;
      var canCommit :=
        && open && published && target.state.Ready? && target.key == Some(load.oldKey)
        && load.oldKey in table && table[load.oldKey] == load.frame
        && target.dirty && target.pins == 0 && owned && target.generation == load.io.writeGeneration;
      if !canCommit {
        stats := stats.DirtyCancelled();
        CompleteFailure(c, load);
      } else {
        stats := stats.DirtyCommitted();
        CommitReplacement(c, load, load.io.loaded);
      }
    }

    /** The lock region after the read into a FREE frame. */
    method FinishFreeLoad(c: nat, load: Load)
      requires LoadShape(State(), c) && loads[c] == load && load.kind.FreeFrame? && load.io.ReadDone?
      modifies this
      ensures State() == FinishFree(old(State()), c)
    {
      var f := load.frame;
      var matches :=
        && frames[f].state.Loading? && frames[f].key == Some(load.key)
        && frames[f].ticket == completions[c].ticket && frames[f].completion == Some(c);
      if !matches {
        CompleteLoad(c, true);
        return;
      }
      if load.io.result.None? {
        table := table - {load.key};
        frames := frames[f := Reset(frames[f])];
        CompleteLoad(c, true);
        return;
      }
      PublishLoaded(c, f, load.io.result.value);
      CompleteLoad(c, false);
      if load.origin.Demand? {
        GrantGuard(load.key, f);
      }
    }

    method PublishLoaded(c: nat, f: nat, page: RawPage)
      requires LoadShape(State(), c) && loads[c].frame == f
      modifies this
      ensures State() == PublishFree(old(State()), c, page)
    {
      frames := frames[f := Loaded(frames[f], page)];
      var rest := RemoveFrame(order, f);
      order := rest + [f];
    }

    /** One turn of load_page's loop. */
    method AttemptPage(key: PageKey, origin: Origin, classified: bool)
      requires Shape(State())
      modifies this
      ensures State() == Attempt(old(State()), key, origin, classified)
    {
      if !open || (origin.Prefetch? && (key in table || key in loading)) {
        return;
      }
      if key in table && frames[table[key]].state.Ready? {
        if !classified && origin.Demand? {
          stats := stats.(hits := stats.hits + 1);
        }
        var _ := PinFrame(key, table[key]);
        return;
      }
      if !classified && origin.Demand? {
        stats := stats.(misses := stats.misses + 1);
      }
      MissPage(key, origin);
    }

    /** load_page up to the first time the lock is dropped. */
    method LoadPage(key: PageKey, origin: Origin)
      requires Shape(State())
      modifies this
      ensures State() == Begin(old(State()), key, origin)
    {
      if !open || key.page == 0 {
        return;
      }
      if origin.Demand? {
        stats := stats.(fetches := stats.fetches + 1);
      }
      AttemptPage(key, origin, false);
    }

    /** A fetcher blocked on a completion runs again. */
    method ResumeFetch(w: nat, waiter: Waiter)
      requires Shape(State()) && w in waiters && waiters[w] == waiter && waiter.completion in completions
      modifies this
      ensures State() == Wake(old(State()), w)
    {
      waiters := waiters - {w};
      var completion := completions[waiter.completion];
      if !completion.failed && waiter.key in table {
        var f := table[waiter.key];
        if frames[f].state.Ready? && frames[f].key == Some(waiter.key) && frames[f].ticket == completion.ticket {
          var _ := PinFrame(waiter.key, f);
          return;
        }
      }
      if completion.origin.Prefetch? {
        AttemptPage(waiter.key, Demand, true);
      }
    }

    method MarkFrameDirty(f: nat, ghost g: nat)
      requires GuardShape(State(), g) && guards[g].frame == f
      modifies this
      ensures State() == MarkDirty(old(State()), g)
    {
      if frames[f].reserved {
        frames := frames[f := frames[f].(generation := frames[f].generation + 1)];
      }
      frames := frames[f := frames[f].(dirty := true)];
      guards := guards[g := guards[g].(unmarked := false)];
    }

    method UnpinFrame(f: nat, ghost g: nat)
      requires Inv(State()) && g in guards && guards[g].frame == f
      modifies this
      ensures GuardShape(old(State()), g) && old(frames[f].pins) > 0
      ensures State() == Unpin(old(State()), g)
    {
      GuardFrameIsPinned(State(), g);
      frames := frames[f := frames[f].(pins := frames[f].pins - 1)];
      guards := guards - {g};
    }

    /** flush_frame_locked: nothing to do unless the frame is READY and dirty. */
    method FlushFrame(f: nat, write: Write) returns (ok: bool)
      requires f < |frames|
      modifies this
      ensures ok <==> !Flushable(old(State()), f) || write.Landed?
      ensures State() == FlushStep(old(State()), f, write)
    {
      if !frames[f].state.Ready? || frames[f].key.None? || !frames[f].dirty {
        return true;
      }
      if write.Lost? {
        disk := disk[frames[f].key.value := write.garbage];
        return false;
      }
      disk := disk[frames[f].key.value := frames[f].page];
      frames := frames[f := frames[f].(dirty := false)];
      stats := stats.(dirtyFlushes := stats.dirtyFlushes + 1);
      return true;
    }

    /** flush_all_locked, or the flush loop of release_table: stop at the first failed write. */
    method FlushFrames(scope: Option<nat>, writes: seq<Write>) returns (ok: bool)
      requires |writes| == |frames|
      modifies this
      ensures State() == FlushFrom(old(State()), 0, scope, writes)
      ensures ok == Flushes(old(State()), 0, scope, writes)
    {
      var f := 0;
      ok := true;
      while ok && f < |frames|
        invariant 0 <= f <= |frames| == old(|frames|)
        invariant ok ==> FlushFrom(old(State()), 0, scope, writes) == FlushFrom(State(), f, scope, writes)
        invariant ok ==> Flushes(old(State()), 0, scope, writes) == Flushes(State(), f, scope, writes)
        invariant !ok ==> FlushFrom(old(State()), 0, scope, writes) == State()
        invariant !ok ==> !Flushes(old(State()), 0, scope, writes)
        decreases ok, |frames| - f
      {
        if InScope(frames[f], scope) {
          ok := FlushFrame(f, writes[f]);
        }
        f := f + 1;
      }
    }

    /** Reset the frames in scope, one by one. */
    method ForgetFrames(scope: Option<nat>)
      modifies this`frames
      ensures frames == Forget(old(frames), scope)
    {
      var f := 0;
      while f < |frames|
        invariant 0 <= f <= |frames| == old(|frames|)
        invariant forall h :: 0 <= h < f ==>
          frames[h] == if InScope(old(frames)[h], scope) then Reset(old(frames)[h]) else old(frames)[h]
        invariant forall h :: f <= h < |frames| ==> frames[h] == old(frames)[h]
      {
        if InScope(frames[f], scope) {
          frames := frames[f := Reset(frames[f])];
        }
        f := f + 1;
      }
    }

    /** close: refuse while anything is in flight or pinned, flush everything, then forget every frame. */
    method ClosePool(writes: seq<Write>) returns (ok: bool)
      requires Inv(State()) && |writes| == |frames|
      modifies this
      ensures Inv(State()) && logical == old(logical)
      ensures ok <==> !old(open) || (old(CanClose(State())) && old(Flushes(State(), 0, None, writes)))
      ensures ok && old(open) ==> !open && table == map[] && disk == logical
      ensures ok && !old(open) ==> State() == old(State())
      ensures !ok ==> open && OnlyFlushed(old(State()), State())
    {
      if !open {
        return true;
      }
      if loading != map[] || !Idle(frames) {
        return false;
      }
      CloseAfterFlush(State(), writes);
      FlushFromFrame(State(), 0, None, writes);
      ok := FlushFrames(None, writes);
      if ok {
        ForgetAll();
      }
    }

    method ForgetAll()
      modifies this
      ensures State() == Close(old(State()))
    {
      table, order, open := map[], [], false;
      ForgetFrames(None);
    }

    /** release_table: refuse while the table is in use, flush its frames, then drop them. */
    method ReleaseTable(tableId: nat, writes: seq<Write>) returns (ok: bool)
      requires Inv(State()) && |writes| == |frames|
      modifies this
      ensures Inv(State()) && logical == old(logical)
      ensures ok <==>
        old(open) && old(Unused(loading, frames, tableId)) && old(Flushes(State(), 0, Some(tableId), writes))
      ensures ok ==> forall k <- table :: k.table != tableId
      ensures !ok ==> OnlyFlushed(old(State()), State())
      ensures ok ==> forall k <- disk :: k.table == tableId ==> k in logical && disk[k] == logical[k]
    {
      if !open || !Unused(loading, frames, tableId) {
        return false;
      }
      ReleaseAfterFlush(State(), tableId, writes);
      FlushFromFrame(State(), 0, Some(tableId), writes);
      ok := FlushFrames(Some(tableId), writes);
      if ok {
        DropTable(tableId);
      }
    }

    method DropTable(tableId: nat)
      requires Structure(State()) && Shape(State())
      modifies this
      ensures State() == Release(old(State()), tableId)
    {
      DropFrames(tableId, State());
    }

    /** The commit pass of release_table: every frame of the table leaves the page table and the replacer. */
    method DropFrames(tableId: nat, ghost s: Pool)
      requires Structure(s) && Shape(s) && s.table == table && s.order == order && s.frames == frames
      modifies this`table, this`order, this`frames
      ensures table == OtherTables(s.table, tableId) && order == Evicted(s.order, s.frames, tableId)
      ensures frames == Forget(s.frames, Some(tableId))
    {
      var f := 0;
      PartsBegin(s, tableId);
      while f < |frames|
        invariant 0 <= f <= |frames| == |s.frames|
        invariant table == TableFrom(s.table, tableId, f) && order == OrderFrom(s.order, s.frames, tableId, f)
        invariant frames == FramesFrom(s.frames, tableId, f)
      {
        DropFrame(tableId, f, s);
        f := f + 1;
      }
      PartsEnd(s, tableId);
    }

    method DropFrame(tableId: nat, f: nat, ghost s: Pool)
      requires Structure(s) && f < |frames| == |s.frames|
      requires table == TableFrom(s.table, tableId, f) && order == OrderFrom(s.order, s.frames, tableId, f)
      requires frames == FramesFrom(s.frames, tableId, f)
      modifies this`table, this`order, this`frames
      ensures table == TableFrom(s.table, tableId, f + 1) && order == OrderFrom(s.order, s.frames, tableId, f + 1)
      ensures frames == FramesFrom(s.frames, tableId, f + 1)
    {
      PartsStep(s, tableId, f);
      if Belongs(frames[f], tableId) {
        table := table - {frames[f].key.value};
        order := RemoveFrame(order, f);
        frames := frames[f := Reset(frames[f])];
      }
    }
  }

  ghost function FramesFrom(frames: seq<Frame>, id: nat, f: nat): (r: seq<Frame>)
    requires f <= |frames|
    ensures |r| == |frames| && r[f..] == frames[f..]
  {
    Forget(frames[..f], Some(id)) + frames[f..]
  }

  lemma FramesStep(frames: seq<Frame>, id: nat, f: nat)
    requires f < |frames|
    ensures FramesFrom(frames, id, f)[f] == frames[f]
    ensures FramesFrom(frames, id, f + 1) ==
            if Belongs(frames[f], id) then FramesFrom(frames, id, f)[f := Reset(frames[f])]
                else FramesFrom(frames, id, f)
  {
    assert frames[..f + 1][..f] == frames[..f];
  }

  /** The page table and the replacer once the frames of the table before f are gone. */
  ghost function TableFrom(table: map<PageKey, nat>, id: nat, f: nat): map<PageKey, nat> {
    map k | k in table && !(k.table == id && table[k] < f) :: table[k]
  }

  ghost function OrderFrom(order: seq<nat>, frames: seq<Frame>, id: nat, f: nat): seq<nat> {
    if order == [] then []
    else if order[0] < |frames| && order[0] < f &&
        Belongs(frames[order[0]], id) then OrderFrom(order[1..], frames, id, f)
    else [order[0]] + OrderFrom(order[1..], frames, id, f)
  }

  lemma {:induction false} OrderBegins(order: seq<nat>, frames: seq<Frame>, id: nat)
    ensures OrderFrom(order, frames, id, 0) == order
  {
    if order != [] {
      OrderBegins(order[1..], frames, id);
    }
  }

  lemma {:induction false} OrderEnds(order: seq<nat>, frames: seq<Frame>, id: nat)
    requires forall i :: 0 <= i < |order| ==> order[i] < |frames|
    ensures OrderFrom(order, frames, id, |frames|) == Evicted(order, frames, id)
  {
    if order != [] {
      OrderEnds(order[1..], frames, id);
    }
  }

  lemma {:induction false} OrderSkips(order: seq<nat>, frames: seq<Frame>, id: nat, f: nat)
    requires f < |frames| && (f !in order || !Belongs(frames[f], id))
    ensures OrderFrom(order, frames, id, f + 1) == OrderFrom(order, frames, id, f)
    decreases |order|
  {
    if order != [] {
      assert forall x :: x in order[1..] ==> x in order;
      OrderSkips(order[1..], frames, id, f);
    }
  }

  lemma {:induction false} OrderDrops(order: seq<nat>, frames: seq<Frame>, id: nat, f: nat)
    requires f < |frames| && Distinct(order) && Belongs(frames[f], id)
    ensures OrderFrom(order, frames, id, f + 1) == Without(OrderFrom(order, frames, id, f), f)
    decreases |order|
  {
    if order != [] {
      if order[0] == f {
        assert forall i :: 0 < i < |order| ==> order[i] != f;
        OrderSkips(order[1..], frames, id, f);
        assert ([order[0]] + OrderFrom(order[1..], frames, id, f))[1..] == OrderFrom(order[1..], frames, id, f);
      } else {
        OrderDrops(order[1..], frames, id, f);
        var rest := OrderFrom(order[1..], frames, id, f);
        assert ([order[0]] + rest)[1..] == rest;
      }
    }
  }

  lemma PartsBegin(s: Pool, id: nat)
    ensures TableFrom(s.table, id, 0) == s.table && OrderFrom(s.order, s.frames, id, 0) == s.order
    ensures FramesFrom(s.frames, id, 0) == s.frames
  {
    OrderBegins(s.order, s.frames, id);
  }

  /** The one entry of the page table for frame f is the frame's own key. */
  lemma TableStep(s: Pool, id: nat, f: nat)
    requires FramesOk(s) && TableOk(s) && f < |s.frames|
    ensures TableFrom(s.table, id, f + 1) ==
            if Belongs(s.frames[f], id) then TableFrom(s.table, id, f) - {s.frames[f].key.value}
                else TableFrom(s.table, id, f)
  {
    assert FrameOk(s, f);
  }

  lemma PartsStep(s: Pool, id: nat, f: nat)
    requires Structure(s) && f < |s.frames|
    ensures FramesFrom(s.frames, id, f)[f] == s.frames[f]
    ensures FramesFrom(s.frames, id, f + 1) ==
            if Belongs(s.frames[f], id) then FramesFrom(s.frames, id, f)[f := Reset(s.frames[f])]
                else FramesFrom(s.frames, id, f)
    ensures TableFrom(s.table, id, f + 1) ==
            if Belongs(s.frames[f], id) then TableFrom(s.table, id, f) - {s.frames[f].key.value}
                else TableFrom(s.table, id, f)
    ensures OrderFrom(s.order, s.frames, id, f + 1) ==
            if Belongs(s.frames[f], id) then Without(OrderFrom(s.order, s.frames, id, f), f)
                else OrderFrom(s.order, s.frames, id, f)
  {
    TableStep(s, id, f);
    FramesStep(s.frames, id, f);
    if Belongs(s.frames[f], id) {
      OrderDrops(s.order, s.frames, id, f);
    } else {
      OrderSkips(s.order, s.frames, id, f);
    }
  }

  lemma PartsEnd(s: Pool, id: nat)
    requires Shape(s)
    ensures FramesFrom(s.frames, id, |s.frames|) == Forget(s.frames, Some(id))
    ensures TableFrom(s.table, id, |s.frames|) == OtherTables(s.table, id)
    ensures OrderFrom(s.order, s.frames, id, |s.frames|) == Evicted(s.order, s.frames, id)
  {
    OrderEnds(s.order, s.frames, id);
    assert s.frames[..|s.frames|] == s.frames;
  }

  ghost function FlushStep(s: Pool, f: nat, write: Write): Pool {
    if !Flushable(s, f) then s
    else if write.Landed? then FlushOk(s, f)
    else FlushFail(s, f, write.garbage)
  }

  /** No frame is pinned or reserved (the test of close and of the destructor). */
  predicate Idle(frames: seq<Frame>) {
    forall f :: 0 <= f < |frames| ==> frames[f].pins == 0 && !frames[f].reserved
  }

  /** close goes on to flush only a pool in which nothing is loading, pinned or reserved. */
  ghost predicate CanClose(s: Pool) {
    s.loading == map[] && Idle(s.frames)
  }

  /** The prepare pass of release_table: no speculative replacement touches the table, no guard holds it. */
  predicate Unused(loading: map<PageKey, Reservation>, frames: seq<Frame>, table: nat) {
    && (forall k :: k in loading ==> k.table != table && loading[k].oldKey.table != table)
    && (forall f :: 0 <= f < |frames| && Belongs(frames[f], table) ==> frames[f].pins == 0)
  }

  /** Flush the frames in scope from f on, stopping after the first failed write. */
  ghost function FlushFrom(s: Pool, f: nat, scope: Option<nat>, writes: seq<Write>): Pool
    requires |writes| == |s.frames|
    decreases |s.frames| - f
  {
    if f >= |s.frames| then s
    else if !InScope(s.frames[f], scope) then FlushFrom(s, f + 1, scope, writes)
    else if Flushable(s, f) && writes[f].Lost? then FlushStep(s, f, writes[f])
    else FlushFrom(FlushStep(s, f, writes[f]), f + 1, scope, writes)
  }

  ghost predicate Flushes(s: Pool, f: nat, scope: Option<nat>, writes: seq<Write>)
    requires |writes| == |s.frames|
    decreases |s.frames| - f
  {
    f >= |s.frames| ||
    if !InScope(s.frames[f], scope) then Flushes(s, f + 1, scope, writes)
    else !(Flushable(s, f) && writes[f].Lost?) && Flushes(FlushStep(s, f, writes[f]), f + 1, scope, writes)
  }

  lemma FlushStepKeepsInv(s: Pool, f: nat, write: Write)
    requires Inv(s) && (Flushable(s, f) ==> !FlushHazard(s, f))
    ensures Inv(FlushStep(s, f, write))
  {
    if Flushable(s, f) {
      if write.Landed? {
        FlushKeepsInv(s, f, true, []);
      } else {
        FlushKeepsInv(s, f, false, write.garbage);
      }
    }
  }

  ghost predicate NoHazards(s: Pool, scope: Option<nat>) {
    forall f: nat :: f < |s.frames| && InScope(s.frames[f], scope) ==> !FlushHazard(s, f)
  }

  lemma FlushStepKeepsHazards(s: Pool, f: nat, write: Write, scope: Option<nat>)
    requires NoHazards(s, scope)
    ensures NoHazards(FlushStep(s, f, write), scope)
  {
    var t := FlushStep(s, f, write);
    FlushStepFrames(s, f, write);
    forall h: nat | h < |t.frames| && InScope(t.frames[h], scope) ensures !FlushHazard(t, h) {
      assert !FlushHazard(s, h);
      HazardDependsOn(s, t, h);
    }
  }

  /** A flush touches neither loads nor generations. */
  lemma FlushStepFrames(s: Pool, f: nat, write: Write)
    ensures var t := FlushStep(s, f, write);
            t.loads == s.loads && |t.frames| == |s.frames| &&
                forall h :: 0 <= h < |s.frames| ==> SameAccess(s.frames[h], t.frames[h])
  {
    if Flushable(s, f) {
      assert FlushOk(s, f).frames == s.frames[f := s.frames[f].(dirty := false)];
      assert FlushFail(s, f, ZeroPage()).frames == s.frames;
    }
  }

  predicate SameAccess(a: Frame, b: Frame) {
    a.generation == b.generation && a.key == b.key
  }

  lemma HazardDependsOn(s: Pool, t: Pool, h: nat)
    requires t.loads == s.loads && t.guards == s.guards && h < |t.frames| == |s.frames|
    requires t.frames[h].generation == s.frames[h].generation
    ensures FlushHazard(t, h) ==> FlushHazard(s, h)
  {
  }

  ghost predicate Safe(s: Pool, scope: Option<nat>) {
    Inv(s) && NoHazards(s, scope)
  }

  lemma FlushStepKeepsSafe(s: Pool, f: nat, write: Write, scope: Option<nat>)
    requires Safe(s, scope) && f < |s.frames| && InScope(s.frames[f], scope)
    ensures Safe(FlushStep(s, f, write), scope) && |FlushStep(s, f, write).frames| == |s.frames|
  {
    FlushStepKeepsInv(s, f, write);
    FlushStepKeepsHazards(s, f, write, scope);
  }

  lemma {:induction false} FlushFromKeepsInv(s: Pool, f: nat, scope: Option<nat>, writes: seq<Write>)
    requires Safe(s, scope) && |writes| == |s.frames|
    ensures Inv(FlushFrom(s, f, scope, writes))
    decreases |s.frames| - f
  {
    if f < |s.frames| {
      if InScope(s.frames[f], scope) {
        FlushStepKeepsSafe(s, f, writes[f], scope);
        FlushFromKeepsInv(FlushStep(s, f, writes[f]), f + 1, scope, writes);
      } else {
        FlushFromKeepsInv(s, f + 1, scope, writes);
      }
    }
  }

  ghost predicate SameButDirty(a: Frame, b: Frame) {
    b == a.(dirty := b.dirty) && (!a.dirty ==> !b.dirty)
  }

  /** Flushing changes nothing but disk bytes, dirty bits and counters. */
  ghost predicate OnlyFlushed(s: Pool, t: Pool) {
    && t == s.(frames := t.frames, disk := t.disk, stats := t.stats)
    && |t.frames| == |s.frames|
    && (forall h :: 0 <= h < |s.frames| ==> SameButDirty(s.frames[h], t.frames[h]))
  }

  lemma OnlyFlushedTrans(s: Pool, t: Pool, u: Pool)
    requires OnlyFlushed(s, t) && OnlyFlushed(t, u)
    ensures OnlyFlushed(s, u)
  {
    forall h | 0 <= h < |s.frames| ensures SameButDirty(s.frames[h], u.frames[h]) {
      assert SameButDirty(s.frames[h], t.frames[h]) && SameButDirty(t.frames[h], u.frames[h]);
    }
  }

  lemma FlushStepFrame(s: Pool, f: nat, write: Write)
    requires f < |s.frames|
    ensures OnlyFlushed(s, FlushStep(s, f, write))
    ensures write.Landed? && Flushable(s, f) ==> !FlushStep(s, f, write).frames[f].dirty
  {
  }

  lemma {:induction false} FlushFromFrame(s: Pool, f: nat, scope: Option<nat>, writes: seq<Write>)
    requires |writes| == |s.frames|
    ensures OnlyFlushed(s, FlushFrom(s, f, scope, writes))
    decreases |s.frames| - f
  {
    if f < |s.frames| {
      if InScope(s.frames[f], scope) {
        FlushStepFrame(s, f, writes[f]);
        FlushFromFrame(FlushStep(s, f, writes[f]), f + 1, scope, writes);
        OnlyFlushedTrans(s, FlushStep(s, f, writes[f]), FlushFrom(FlushStep(s, f, writes[f]), f + 1, scope, writes));
      } else {
        FlushFromFrame(s, f + 1, scope, writes);
      }
    }
  }

  /** When every write lands, every READY frame in scope ends up clean. */
  lemma {:induction false} FlushFromCleans(s: Pool, f: nat, scope: Option<nat>, writes: seq<Write>, h: nat)
    requires |writes| == |s.frames| && f <= h < |s.frames| && InScope(s.frames[h], scope)
    requires Flushes(s, f, scope, writes) && s.frames[h].state.Ready? && s.frames[h].key.Some?
    ensures h < |FlushFrom(s, f, scope, writes).frames| && !FlushFrom(s, f, scope, writes).frames[h].dirty
    decreases |s.frames| - f
  {
    var t := if InScope(s.frames[f], scope) then FlushStep(s, f, writes[f]) else s;
    FlushStepFrame(s, f, writes[f]);
    FlushFromFrame(t, f + 1, scope, writes);
    assert SameButDirty(t.frames[h], FlushFrom(t, f + 1, scope, writes).frames[h]);
    if h > f {
      assert SameButDirty(s.frames[h], t.frames[h]);
      FlushFromCleans(t, f + 1, scope, writes, h);
    }
  }

  lemma NoHazardWhenIdle(s: Pool)
    requires Inv(s) && s.loading == map[] && Idle(s.frames)
    ensures NoHazards(s, None)
  {
    if c :| c in s.loads {
      LoadHoldsFrame(s, c);
      assert false;
    }
  }

  lemma CloseAfterFlush(s: Pool, writes: seq<Write>)
    requires Inv(s) && s.open && s.loading == map[] && Idle(s.frames) && |writes| == |s.frames|
    ensures var t := FlushFrom(s, 0, None, writes);
            && Inv(t) && t.logical == s.logical && t.open && |t.frames| == |s.frames|
            && (Flushes(s, 0, None, writes) ==> Inv(Close(t)) && t.disk == s.logical)
  {
    NoHazardWhenIdle(s);
    FlushFromKeepsInv(s, 0, None, writes);
    FlushFromFrame(s, 0, None, writes);
    if Flushes(s, 0, None, writes) {
      FlushedIsClosable(s, writes);
      CloseKeepsInv(FlushFrom(s, 0, None, writes));
      CloseWritesBack(FlushFrom(s, 0, None, writes));
    }
  }

  lemma FlushedIsClosable(s: Pool, writes: seq<Write>)
    requires FramesOk(s) && s.open && s.loading == map[] && Idle(s.frames) && |writes| == |s.frames|
    requires Flushes(s, 0, None, writes)
    ensures Closable(FlushFrom(s, 0, None, writes))
  {
    FlushFromFrame(s, 0, None, writes);
    forall h | 0 <= h < |s.frames|
      ensures var frame := FlushFrom(s, 0, None, writes).frames[h]; frame.pins == 0 && !frame.reserved && !frame.dirty
    {
      assert SameButDirty(s.frames[h], FlushFrom(s, 0, None, writes).frames[h]);
      CleanAfterFlush(s, None, writes, h);
    }
  }

  lemma CleanAfterFlush(s: Pool, scope: Option<nat>, writes: seq<Write>, h: nat)
    requires FramesOk(s) && |writes| == |s.frames| && h < |s.frames| && InScope(s.frames[h], scope)
    requires Flushes(s, 0, scope, writes)
    ensures h < |FlushFrom(s, 0, scope, writes).frames| && !FlushFrom(s, 0, scope, writes).frames[h].dirty
  {
    FlushFromFrame(s, 0, scope, writes);
    assert FrameOk(s, h) && SameButDirty(s.frames[h], FlushFrom(s, 0, scope, writes).frames[h]);
    if s.frames[h].state.Ready? {
      FlushFromCleans(s, 0, scope, writes, h);
    }
  }

  lemma FlushedIsReleasable(s: Pool, table: nat, writes: seq<Write>)
    requires FramesOk(s) && s.open && Unused(s.loading, s.frames, table) && |writes| == |s.frames|
    requires Flushes(s, 0, Some(table), writes)
    ensures Releasable(FlushFrom(s, 0, Some(table), writes), table)
  {
    FlushFromFrame(s, 0, Some(table), writes);
    var t := FlushFrom(s, 0, Some(table), writes);
    forall h | 0 <= h < |t.frames| && Belongs(t.frames[h], table) ensures t.frames[h].pins == 0 && !t.frames[h].dirty {
      assert SameButDirty(s.frames[h], t.frames[h]);
      CleanAfterFlush(s, Some(table), writes, h);
    }
  }

  lemma ReleaseAfterFlush(s: Pool, table: nat, writes: seq<Write>)
    requires Inv(s) && s.open && Unused(s.loading, s.frames, table) && |writes| == |s.frames|
    ensures var t := FlushFrom(s, 0, Some(table), writes);
            && Inv(t) && Shape(t) && t.logical == s.logical
            && (Flushes(s, 0, Some(table), writes) ==>
                  && Inv(Release(t, table))
                  && forall k <- t.disk :: k.table == table ==> k in t.logical && t.disk[k] == t.logical[k])
  {
    forall f: nat | f < |s.frames| && InScope(s.frames[f], Some(table)) ensures !FlushHazard(s, f) {
      ReleaseFlushIsSafe(s, table, f);
    }
    FlushFromKeepsInv(s, 0, Some(table), writes);
    FlushFromFrame(s, 0, Some(table), writes);
    InvShape(FlushFrom(s, 0, Some(table), writes));
    if Flushes(s, 0, Some(table), writes) {
      FlushedIsReleasable(s, table, writes);
      ReleaseKeepsInv(FlushFrom(s, 0, Some(table), writes), table);
      ReleasedIsOnDisk(FlushFrom(s, 0, Some(table), writes), table);
    }
  }

  lemma ReleasedIsOnDisk(s: Pool, table: nat)
    requires Inv(s) && Releasable(s, table)
    ensures forall k <- s.disk :: k.table == table ==> k in s.logical && s.disk[k] == s.logical[k]
  {
    forall k | k in s.disk && k.table == table ensures k in s.logical && s.disk[k] == s.logical[k] {
      assert k in s.logical.Keys && Current(s, k);
      if Resident(s, k) {
        NoHolders(s, s.table[k]);
        assert CleanMatchesDisk(s, s.table[k]);
      }
    }
  }
}
