/**
 What each step of the buffer pool does, stated on the state before and the state after: which pages the page
 table and the frames hold, which guards exist, what the replacer lists, what is on disk and how a load ended.
 The invariants say that no step goes wrong; these results say that each step does its work.
 */
module PoolOutcomes {
  import opened Common
  import opened PoolState
  import opened PoolInvariant
  import opened PoolSteps
  import opened PoolFinish

  // ---------------------------------------------------------------- what a step may change

  /** Only frame f may have changed. */
  ghost predicate OthersAlone(s: Pool, t: Pool, f: nat) {
    f < |s.frames| && f < |t.frames| && t.frames == s.frames[f := t.frames[f]]
  }

  /** Exactly one guard is new; it is for the page and the frame. */
  ghost predicate OneNewGuard(s: Pool, t: Pool, key: PageKey, f: nat) {
    s.nextId !in s.guards && t.guards == s.guards[s.nextId := Guard(f, key, false)] && t.nextId == s.nextId + 1
  }

  /** The entry moved to the end of the list, or joined it there; the others keep their order. */
  ghost predicate MovedToBack(before: seq<nat>, after: seq<nat>, f: nat) {
    exists i: nat :: RemovedAt(before, i, f) && after == Skipped(before, i) + [f]
  }

  /** The list without its i-th entry, or the list itself. */
  function Skipped(order: seq<nat>, i: nat): seq<nat> {
    if i < |order| then order[..i] + order[i + 1..] else order
  }

  /** The first place of f in the list, or the list's end when f is not in it. */
  ghost predicate RemovedAt(order: seq<nat>, i: nat, f: nat) {
    i <= |order| && f !in order[..i] && (i < |order| ==> order[i] == f)
  }

  /** A page is in a READY frame that the page table names. */
  ghost predicate Served(s: Pool, key: PageKey, f: nat, page: RawPage) {
    && key in s.table && s.table[key] == f && f < |s.frames|
    && s.frames[f].state.Ready? && s.frames[f].key == Some(key) && s.frames[f].page == page
  }

  /** The load is over and its completion says how; the other loads go on. */
  ghost predicate Over(s: Pool, t: Pool, c: nat, failed: bool) {
    && t.loads == s.loads - {c}
    && c in s.completions && c in t.completions
    && t.completions == s.completions[c := t.completions[c]]
    && t.completions[c].done && t.completions[c].failed == failed
    && t.completions[c].origin == s.completions[c].origin
  }

  ghost predicate SameOutside(s: Pool, t: Pool) {
    t.policy == s.policy && t.open == s.open && t.disk == s.disk && t.logical == s.logical && t.waiters == s.waiters
  }

  /** A load ends well: its page is served from its frame, and a demand load hands out one guard. */
  ghost predicate Delivered(s: Pool, t: Pool, c: nat, page: RawPage)
    requires c in s.loads
  {
    var load := s.loads[c];
    && Served(t, load.key, load.frame, page)
    && !t.frames[load.frame].dirty && !t.frames[load.frame].reserved
    && Over(s, t, c, false) && t.completions[c].ticket == t.frames[load.frame].ticket
    && (if load.origin.Demand? then
          && OneNewGuard(s, t, load.key, load.frame) && t.frames[load.frame].pins == 1
        else
          && t.guards == s.guards && t.frames[load.frame].pins == 0)
  }

  /** Around a load that ends well: the frame joins the end of the replacer's list, and nothing else moves. */
  ghost predicate Settled(s: Pool, t: Pool, f: nat) {
    OthersAlone(s, t, f) && MovedToBack(s.order, t.order, f) && SameOutside(s, t)
  }

  /** A replacement fails: the victim stays, without its reservation, and nobody gets a guard. */
  ghost predicate Withdrawn(s: Pool, t: Pool, c: nat)
    requires c in s.loads && s.loads[c].frame < |s.frames|
  {
    var load := s.loads[c];
    && Over(s, t, c, true)
    && t.table == s.table && t.guards == s.guards && t.order == s.order && SameOutside(s, t)
    && t.loading == s.loading - {load.key}
    && OthersAlone(s, t, load.frame)
    && t.frames[load.frame] == s.frames[load.frame].(reserved := false)
  }

  /** The victim's page gave way to the load's page, and no other mapping changed. */
  ghost predicate Replaced(s: Pool, t: Pool, c: nat)
    requires c in s.loads
  {
    var load := s.loads[c];
    && load.oldKey in s.table && load.oldKey !in t.table && load.key !in s.table
    && t.table == s.table[load.key := load.frame] - {load.oldKey}
    && t.loading == s.loading - {load.key}
  }

  lemma SkippedLater(x: nat, rest: seq<nat>, j: nat)
    requires j <= |rest|
    ensures ([x] + rest)[..j + 1] == [x] + rest[..j]
    ensures Skipped([x] + rest, j + 1) == [x] + Skipped(rest, j)
  {
    if j < |rest| {
      assert ([x] + rest)[j + 2..] == rest[j + 1..];
    }
  }

  lemma {:induction false} WithoutIsRemoved(order: seq<nat>, f: nat) returns (i: nat)
    ensures RemovedAt(order, i, f)
    ensures Without(order, f) == Skipped(order, i)
  {
    i := 0;
    if order != [] && order[0] != f {
      var j := WithoutIsRemoved(order[1..], f);
      i := j + 1;
      SkippedLater(order[0], order[1..], j);
      assert order == [order[0]] + order[1..];
    }
  }

  lemma RecordLoadMoves(order: seq<nat>, f: nat)
    ensures MovedToBack(order, RecordLoad(order, f), f)
  {
    var i := WithoutIsRemoved(order, f);
    assert RemovedAt(order, i, f);
  }

  // ---------------------------------------------------------------- the end of a load

  /** The state after a load into a FREE frame whose read brought the page. */
  ghost function FreeDone(s: Pool, c: nat, page: RawPage): Pool
    requires LoadShape(s, c)
  {
    var load := s.loads[c];
    if load.origin.Prefetch? then PublishedFree(s, c, page)
    else Grant(PublishedFree(s, c, page), load.key, load.frame)
  }

  lemma PublishedFields(s: Pool, c: nat, page: RawPage)
    requires LoadShape(s, c)
    ensures var f, t := s.loads[c].frame, PublishedFree(s, c, page);
            && t.frames == s.frames[f := Loaded(s.frames[f], page)] && t.order == RecordLoad(s.order, f)
            && Over(s, t, c, false) && t.completions[c].ticket == s.completions[c].ticket
            && t.guards == s.guards && t.nextId == s.nextId
            && t.loading == s.loading && t.stats == s.stats && t.table == s.table && SameOutside(s, t)
  {
  }

  lemma GrantFields(s: Pool, key: PageKey, f: nat)
    requires f < |s.frames| && s.nextId !in s.guards
    ensures var t := Grant(s, key, f);
            && t.frames == s.frames[f := s.frames[f].(pins := s.frames[f].pins + 1)] && t.order == s.order
            && OneNewGuard(s, t, key, f) && t.loads == s.loads && t.completions == s.completions
            && t.loading == s.loading && t.stats == s.stats && t.table == s.table && SameOutside(s, t)
  {
  }

  lemma FreeDoneDelivers(s: Pool, c: nat, page: RawPage)
    requires LoadShape(s, c) && FreeMatches(s, c)
    requires s.nextId !in s.guards && s.loads[c].key in s.table && s.table[s.loads[c].key] == s.loads[c].frame
    requires !s.frames[s.loads[c].frame].reserved
    ensures Delivered(s, FreeDone(s, c, page), c, page)
  {
    PublishedFields(s, c, page);
    GrantFields(PublishedFree(s, c, page), s.loads[c].key, s.loads[c].frame);
  }

  lemma FreeDoneKeeps(s: Pool, c: nat, page: RawPage)
    requires LoadShape(s, c) && s.nextId !in s.guards
    ensures var t := FreeDone(s, c, page);
            && OthersAlone(s, t, s.loads[c].frame) && t.order == RecordLoad(s.order, s.loads[c].frame)
            && SameOutside(s, t) && t.loading == s.loading && t.stats == s.stats && t.table == s.table
  {
    PublishedFields(s, c, page);
    GrantFields(PublishedFree(s, c, page), s.loads[c].key, s.loads[c].frame);
  }

  lemma FreeDoneSettles(s: Pool, c: nat, page: RawPage)
    requires LoadShape(s, c) && s.nextId !in s.guards
    ensures Settled(s, FreeDone(s, c, page), s.loads[c].frame)
  {
    FreeDoneKeeps(s, c, page);
    RecordLoadMoves(s.order, s.loads[c].frame);
  }

  /** A load into a FREE frame fails: the frame is FREE again and the page has no frame. */
  ghost predicate GivenBack(s: Pool, t: Pool, c: nat)
    requires c in s.loads && s.loads[c].frame < |s.frames|
  {
    var load := s.loads[c];
    && Over(s, t, c, true)
    && load.key in s.table && t.table == s.table - {load.key}
    && OthersAlone(s, t, load.frame) && t.frames[load.frame] == Reset(s.frames[load.frame])
    && t.guards == s.guards && t.order == s.order && t.loading == s.loading && t.stats == s.stats && SameOutside(s, t)
  }

  lemma DropFreeGivesBack(s: Pool, c: nat)
    requires LoadShape(s, c) && s.loads[c].key in s.table
    ensures GivenBack(s, DropFree(s, c), c)
  {
  }

  lemma FinishFreeCases(s: Pool, c: nat)
    requires FramesOk(s) && LoadsOk(s) && IdsOk(s)
    requires LoadShape(s, c) && s.loads[c].kind.FreeFrame? && s.loads[c].io.ReadDone?
    ensures FinishFree(s, c) == if s.loads[c].io.result.Some? then FreeDone(s, c, s.loads[c].io.result.value)
                                else DropFree(s, c)
    ensures FreeMatches(s, c) && s.nextId !in s.guards && !s.frames[s.loads[c].frame].reserved
    ensures s.loads[c].key in s.table && s.table[s.loads[c].key] == s.loads[c].frame
  {
    FreeLoadIsNeverStale(s, c);
    assert FrameOk(s, s.loads[c].frame);
  }

  /**
   A load into a FREE frame succeeds exactly when its read did. A failed read gives the frame and the mapping back.
   */
  lemma FreeLoadOutcome(s: Pool, c: nat)
    requires Inv(s) && Enabled(s, DoFinishFree(c))
    ensures var load, t := s.loads[c], Apply(s, DoFinishFree(c));
            if load.io.result.Some? then
              && Delivered(s, t, c, load.io.result.value) && Settled(s, t, load.frame)
              && t.table == s.table && t.loading == s.loading && t.stats == s.stats
            else
              GivenBack(s, t, c)
  {
    FinishFreeCases(s, c);
    if s.loads[c].io.result.Some? {
      FreeDoneDelivers(s, c, s.loads[c].io.result.value);
      FreeDoneKeeps(s, c, s.loads[c].io.result.value);
      FreeDoneSettles(s, c, s.loads[c].io.result.value);
    } else {
      DropFreeGivesBack(s, c);
    }
  }

  /** The victim of a replacement may still be evicted: nobody touched it since the generation was recorded. */
  predicate Undisturbed(frame: Frame, dirty: bool, generation: nat) {
    frame.dirty == dirty && frame.pins == 0 && frame.generation == generation
  }

  /** The tests after relocking come down to three conditions. */
  lemma VictimStands(s: Pool, c: nat, dirty: bool, generation: nat)
    requires FramesOk(s) && LoadsOk(s) && c in s.loads && !s.loads[c].kind.FreeFrame?
    ensures LoadShape(s, c) && Published(s, c) && VictimOwned(s, c) && s.loads[c].oldKey in s.table
    ensures VictimUntouched(s, c, dirty, generation) <==>
            s.open && Undisturbed(s.frames[s.loads[c].frame], dirty, generation)
  {
    assert LoadOk(s, c) && FrameOk(s, s.loads[c].frame);
  }

  lemma AbandonWithdraws(s: Pool, stats: Stats, c: nat)
    requires LoadShape(s, c) && Published(s, c) && VictimOwned(s, c)
    ensures Withdrawn(s, Abandon(WithStats(s, stats), c), c)
    ensures Abandon(WithStats(s, stats), c).stats == stats
  {
  }

  /** The page stands in its frame, and the load is still to be completed. */
  ghost predicate InPlace(s: Pool, u: Pool, c: nat, page: RawPage)
    requires LoadShape(s, c)
  {
    var load := s.loads[c];
    && c in u.completions && u.completions == s.completions[c := u.completions[c]] && load.frame < |u.frames|
    && Served(u, load.key, load.frame, page) && u.frames[load.frame].pins == 0
    && !u.frames[load.frame].dirty && !u.frames[load.frame].reserved
    && u.completions[c].ticket == u.frames[load.frame].ticket && u.completions[c].origin == s.completions[c].origin
    && u.loads == s.loads && u.guards == s.guards && u.nextId == s.nextId
  }

  lemma SwapServes(s: Pool, stats: Stats, c: nat, page: RawPage)
    requires LoadShape(s, c) && s.loads[c].key != s.loads[c].oldKey
    ensures InPlace(s, Swap(WithStats(s, stats), c, page), c, page)
    ensures Swap(WithStats(s, stats), c, page).stats == stats
  {
  }

  lemma HandOutDelivers(s: Pool, u: Pool, c: nat, page: RawPage)
    requires LoadShape(s, c) && s.nextId !in s.guards && InPlace(s, u, c, page)
    ensures var load, done := s.loads[c], Complete(u, c, false);
            var t := if load.origin.Prefetch? then done else Grant(done, load.key, load.frame);
            Delivered(s, t, c, page) && t.stats == u.stats
  {
  }

  lemma ReplaceDelivers(s: Pool, stats: Stats, c: nat, page: RawPage)
    requires LoadShape(s, c) && s.nextId !in s.guards && s.loads[c].key != s.loads[c].oldKey
    ensures Delivered(s, Replace(WithStats(s, stats), c, page), c, page)
    ensures Replace(WithStats(s, stats), c, page).stats == stats
  {
    var u := Swap(WithStats(s, stats), c, page);
    SwapServes(s, stats, c, page);
    HandOutDelivers(s, u, c, page);
  }

  lemma SwapKeeps(s: Pool, stats: Stats, c: nat, page: RawPage)
    requires LoadShape(s, c) && s.loads[c].key !in s.table && s.loads[c].oldKey in s.table
    ensures var u := Swap(WithStats(s, stats), c, page);
            && OthersAlone(s, u, s.loads[c].frame) && u.order == RecordLoad(s.order, s.loads[c].frame)
            && SameOutside(s, u) && Replaced(s, u, c)
  {
  }

  /** Completing a load and granting its guard touch neither the table nor the order nor the other frames. */
  lemma HandOutKeeps(u: Pool, c: nat, load: Load)
    requires c in u.completions && load.frame < |u.frames|
    ensures var done := Complete(u, c, false);
            var t := if load.origin.Prefetch? then done else Grant(done, load.key, load.frame);
            && OthersAlone(u, t, load.frame) && t.order == u.order && SameOutside(u, t)
            && t.table == u.table && t.loading == u.loading
  {
  }

  lemma ReplaceKeeps(s: Pool, stats: Stats, c: nat, page: RawPage)
    requires LoadShape(s, c) && s.loads[c].key !in s.table && s.loads[c].oldKey in s.table
    ensures var t := Replace(WithStats(s, stats), c, page);
            && OthersAlone(s, t, s.loads[c].frame) && t.order == RecordLoad(s.order, s.loads[c].frame)
            && SameOutside(s, t) && Replaced(s, t, c)
  {
    var u := Swap(WithStats(s, stats), c, page);
    SwapKeeps(s, stats, c, page);
    HandOutKeeps(u, c, s.loads[c]);
  }

  lemma ReplaceSettles(s: Pool, stats: Stats, c: nat, page: RawPage)
    requires LoadShape(s, c) && s.loads[c].key !in s.table && s.loads[c].oldKey in s.table
    ensures Settled(s, Replace(WithStats(s, stats), c, page), s.loads[c].frame)
    ensures Replaced(s, Replace(WithStats(s, stats), c, page), c)
  {
    ReplaceKeeps(s, stats, c, page);
    RecordLoadMoves(s.order, s.loads[c].frame);
  }

  /** A replacement ends well. */
  ghost predicate Committed(s: Pool, t: Pool, c: nat, page: RawPage)
    requires c in s.loads
  {
    Delivered(s, t, c, page) && Replaced(s, t, c) && Settled(s, t, s.loads[c].frame)
  }

  lemma ReplacementCommits(s: Pool, stats: Stats, c: nat, page: RawPage)
    requires LoadsOk(s) && LoadingOk(s) && IdsOk(s) && c in s.loads && !s.loads[c].kind.FreeFrame?
    requires LoadShape(s, c) && s.loads[c].oldKey in s.table
    ensures var t := Replace(WithStats(s, stats), c, page);
            Committed(s, t, c, page) && t.stats == stats
  {
    assert LoadOk(s, c) && s.loads[c].key !in s.table;
    ReplaceDelivers(s, stats, c, page);
    ReplaceSettles(s, stats, c, page);
  }

  lemma CleanEnds(s: Pool, c: nat)
    requires FramesOk(s) && LoadsOk(s) && LoadingOk(s) && IdsOk(s)
    requires LoadShape(s, c) && s.loads[c].kind.CleanVictim? && s.loads[c].io.ReadDone?
    ensures var load, t := s.loads[c], FinishClean(s, c);
            if load.io.result.None? then
              Withdrawn(s, t, c) && t.stats == s.stats
            else if s.open && Undisturbed(s.frames[load.frame], false, load.generation) then
              && Committed(s, t, c, load.io.result.value)
              && t.stats == s.stats.(cleanCommits := s.stats.cleanCommits + 1, evictions := s.stats.evictions + 1)
            else
              Withdrawn(s, t, c) && t.stats == s.stats.(cleanCancels := s.stats.cleanCancels + 1)
  {
    var load := s.loads[c];
    VictimStands(s, c, false, load.generation);
    if load.io.result.None? {
      AbandonWithdraws(s, s.stats, c);
      assert WithStats(s, s.stats) == s;
    } else if s.open && Undisturbed(s.frames[load.frame], false, load.generation) {
      ReplacementCommits(s, s.stats.CleanCommitted(), c, load.io.result.value);
    } else {
      AbandonWithdraws(s, s.stats.CleanCancelled(), c);
    }
  }

  /**
   A clean replacement commits exactly when the pool is open, the read succeeded and the victim is still clean,
   unpinned and untouched since it was chosen. Only then does the new page take the frame.
   */
  lemma CleanReplacementOutcome(s: Pool, c: nat)
    requires Inv(s) && Enabled(s, DoFinishClean(c))
    ensures var load, t := s.loads[c], Apply(s, DoFinishClean(c));
            if load.io.result.None? then
              Withdrawn(s, t, c) && t.stats == s.stats
            else if s.open && Undisturbed(s.frames[load.frame], false, load.generation) then
              && Committed(s, t, c, load.io.result.value)
              && t.stats == s.stats.(cleanCommits := s.stats.cleanCommits + 1, evictions := s.stats.evictions + 1)
            else
              Withdrawn(s, t, c) && t.stats == s.stats.(cleanCancels := s.stats.cleanCancels + 1)
  {
    CleanEnds(s, c);
  }

  lemma SnapshotEnds(s: Pool, c: nat)
    requires FramesOk(s) && LoadsOk(s)
    requires LoadShape(s, c) && s.loads[c].kind.DirtyVictim? && s.loads[c].io.ReadDone?
    ensures var load, t, frame := s.loads[c], SnapshotDirty(s, c), s.frames[s.loads[c].frame];
            if load.io.result.None? then
              Withdrawn(s, t, c) && t.stats == s.stats
            else if s.open && Undisturbed(frame, true, load.generation) then
              && t == s.(loads := t.loads) && OnlyLoad(s, t, c)
              && t.loads[c].io == Writing(load.io.result.value, frame.page, frame.generation)
            else
              Withdrawn(s, t, c) && t.stats == s.stats.(dirtyCancels := s.stats.dirtyCancels + 1)
  {
    var load := s.loads[c];
    VictimStands(s, c, true, load.generation);
    if load.io.result.None? {
      AbandonWithdraws(s, s.stats, c);
      assert WithStats(s, s.stats) == s;
    } else if !(s.open && Undisturbed(s.frames[load.frame], true, load.generation)) {
      AbandonWithdraws(s, s.stats.DirtyCancelled(), c);
    }
  }

  /**
   After the read for a dirty victim, the write-back starts exactly when the victim is still dirty, unpinned and
   untouched. It carries the victim's bytes and generation and the bytes read.
   */
  lemma SnapshotOutcome(s: Pool, c: nat)
    requires Inv(s) && Enabled(s, DoSnapshot(c))
    ensures var load, t, frame := s.loads[c], Apply(s, DoSnapshot(c)), s.frames[s.loads[c].frame];
            if load.io.result.None? then
              Withdrawn(s, t, c) && t.stats == s.stats
            else if s.open && Undisturbed(frame, true, load.generation) then
              && t == s.(loads := t.loads) && OnlyLoad(s, t, c)
              && t.loads[c].io == Writing(load.io.result.value, frame.page, frame.generation)
            else
              Withdrawn(s, t, c) && t.stats == s.stats.(dirtyCancels := s.stats.dirtyCancels + 1)
  {
    SnapshotEnds(s, c);
  }

  lemma DirtyCounts(stats: Stats)
    ensures stats.DirtyLanded().DirtyCommitted() ==
            stats.(dirtyWriteSuccesses := stats.dirtyWriteSuccesses + 1, dirtyFlushes := stats.dirtyFlushes + 1,
                   evictions := stats.evictions + 1, dirtyCommits := stats.dirtyCommits + 1)
    ensures stats.DirtyLanded().DirtyCancelled() ==
            stats.(dirtyWriteSuccesses := stats.dirtyWriteSuccesses + 1, dirtyCancels := stats.dirtyCancels + 1)
  {
  }

  lemma DirtyCases(s: Pool, c: nat)
    requires FramesOk(s) && LoadsOk(s)
    requires LoadShape(s, c) && !s.loads[c].kind.FreeFrame? && s.loads[c].io.WriteDone?
    ensures FinishDirty(s, c) ==
            if !s.loads[c].io.landed then Abandon(WithStats(s, s.stats), c)
            else if s.open && Undisturbed(s.frames[s.loads[c].frame], true, s.loads[c].io.writeGeneration) then
              Replace(WithStats(s, s.stats.DirtyLanded().DirtyCommitted()), c, s.loads[c].io.loaded)
            else Abandon(WithStats(s, s.stats.DirtyLanded().DirtyCancelled()), c)
  {
    VictimStands(s, c, true, s.loads[c].io.writeGeneration);
    assert WithStats(s, s.stats) == s;
    assert WithStats(WithStats(s, s.stats.DirtyLanded()), s.stats.DirtyLanded().DirtyCommitted()) ==
           WithStats(s, s.stats.DirtyLanded().DirtyCommitted());
  }

  /** How a replacement ends after its write-back. */
  ghost predicate DirtyEnding(s: Pool, t: Pool, c: nat)
    requires LoadShape(s, c) && s.loads[c].io.WriteDone?
  {
    var load, io := s.loads[c], s.loads[c].io;
    if !io.landed then
      Withdrawn(s, t, c) && t.stats == s.stats
    else if s.open && Undisturbed(s.frames[load.frame], true, io.writeGeneration) then
      && Committed(s, t, c, io.loaded)
      && t.stats == s.stats.(dirtyWriteSuccesses := s.stats.dirtyWriteSuccesses + 1,
                             dirtyFlushes := s.stats.dirtyFlushes + 1,
                             evictions := s.stats.evictions + 1, dirtyCommits := s.stats.dirtyCommits + 1)
    else
      && Withdrawn(s, t, c)
      && t.stats == s.stats.(dirtyWriteSuccesses := s.stats.dirtyWriteSuccesses + 1,
                             dirtyCancels := s.stats.dirtyCancels + 1)
  }

  lemma DirtyCommits(s: Pool, c: nat)
    requires LoadsOk(s) && LoadingOk(s) && IdsOk(s)
    requires LoadShape(s, c) && s.loads[c].oldKey in s.table
    requires !s.loads[c].kind.FreeFrame? && s.loads[c].io.WriteDone? && s.loads[c].io.landed
    requires s.open && Undisturbed(s.frames[s.loads[c].frame], true, s.loads[c].io.writeGeneration)
    ensures DirtyEnding(s, Replace(WithStats(s, s.stats.DirtyLanded().DirtyCommitted()), c, s.loads[c].io.loaded), c)
  {
    DirtyCounts(s.stats);
    ReplacementCommits(s, s.stats.DirtyLanded().DirtyCommitted(), c, s.loads[c].io.loaded);
  }

  lemma DirtyCancels(s: Pool, c: nat, stats: Stats)
    requires LoadShape(s, c) && Published(s, c) && VictimOwned(s, c) && s.loads[c].io.WriteDone?
    requires !s.loads[c].io.landed || !s.open ||
             !Undisturbed(s.frames[s.loads[c].frame], true, s.loads[c].io.writeGeneration)
    requires stats == if s.loads[c].io.landed then s.stats.DirtyLanded().DirtyCancelled() else s.stats
    ensures DirtyEnding(s, Abandon(WithStats(s, stats), c), c)
  {
    DirtyCounts(s.stats);
    AbandonWithdraws(s, stats, c);
  }

  lemma DirtyEnds(s: Pool, c: nat)
    requires FramesOk(s) && LoadsOk(s) && LoadingOk(s) && IdsOk(s)
    requires LoadShape(s, c) && !s.loads[c].kind.FreeFrame? && s.loads[c].io.WriteDone?
    ensures DirtyEnding(s, FinishDirty(s, c), c)
  {
    var load := s.loads[c];
    VictimStands(s, c, true, load.io.writeGeneration);
    DirtyCases(s, c);
    if load.io.landed && s.open && Undisturbed(s.frames[load.frame], true, load.io.writeGeneration) {
      DirtyCommits(s, c);
    } else {
      DirtyCancels(s, c, if load.io.landed then s.stats.DirtyLanded().DirtyCancelled() else s.stats);
    }
  }

  /**
   A dirty replacement commits exactly when the write-back landed, the pool is open and the victim is still dirty,
   unpinned and untouched since its bytes were copied.
   */
  lemma DirtyReplacementOutcome(s: Pool, c: nat)
    requires Inv(s) && Enabled(s, DoFinishDirty(c))
    ensures var load, t, io := s.loads[c], Apply(s, DoFinishDirty(c)), s.loads[c].io;
            if !io.landed then
              Withdrawn(s, t, c) && t.stats == s.stats
            else if s.open && Undisturbed(s.frames[load.frame], true, io.writeGeneration) then
              && Committed(s, t, c, io.loaded)
              && t.stats == s.stats.(dirtyWriteSuccesses := s.stats.dirtyWriteSuccesses + 1,
                                     dirtyFlushes := s.stats.dirtyFlushes + 1,
                                     evictions := s.stats.evictions + 1, dirtyCommits := s.stats.dirtyCommits + 1)
            else
              && Withdrawn(s, t, c)
              && t.stats == s.stats.(dirtyWriteSuccesses := s.stats.dirtyWriteSuccesses + 1,
                                     dirtyCancels := s.stats.dirtyCancels + 1)
  {
    assert LoadOk(s, c);
    DirtyEnds(s, c);
  }

  // ---------------------------------------------------------------- the I/O of a load

  /** Only the state of one load changed. */
  ghost predicate OnlyLoad(s: Pool, t: Pool, c: nat)
    requires c in s.loads
  {
    c in t.loads && t.loads == s.loads[c := s.loads[c].(io := t.loads[c].io)]
  }

  /** A read brings the page's bytes on disk, exactly when it succeeds and the page exists. */
  lemma ReadOutcome(s: Pool, c: nat, succeeds: bool)
    requires Enabled(s, DoRead(c, succeeds))
    ensures var load, t := s.loads[c], Apply(s, DoRead(c, succeeds));
            && OnlyLoad(s, t, c) && t == s.(loads := t.loads) && t.loads[c].io.ReadDone?
            && (t.loads[c].io.result.Some? <==> succeeds && load.key in s.disk)
            && (t.loads[c].io.result.Some? ==> t.loads[c].io.result.value == s.disk[load.key])
  {
  }

  /** A write-back that succeeds puts the copied bytes on disk, under the victim's page and nowhere else. */
  lemma WriteBackOutcome(s: Pool, c: nat, succeeds: bool, garbage: RawPage)
    requires Enabled(s, DoWrite(c, succeeds, garbage))
    ensures var load, t := s.loads[c], Apply(s, DoWrite(c, succeeds, garbage));
            && OnlyLoad(s, t, c) && t == s.(loads := t.loads, disk := t.disk)
            && t.loads[c].io.WriteDone? && t.loads[c].io.landed == succeeds
            && t.loads[c].io.loaded == load.io.loaded && t.loads[c].io.snapshot == load.io.snapshot
            && t.loads[c].io.writeGeneration == load.io.writeGeneration
            && load.oldKey in t.disk && t.disk == s.disk[load.oldKey := t.disk[load.oldKey]]
            && (succeeds ==> t.disk[load.oldKey] == load.io.snapshot)
  {
  }

  // ---------------------------------------------------------------- fetching

  /** Nothing of the pool changed but the statistics. */
  ghost predicate OnlyStats(s: Pool, t: Pool) {
    t == s.(stats := t.stats)
  }

  /** The frame was accessed: its generation moves on while a replacement has reserved it. */
  ghost predicate Accessed(s: Pool, t: Pool, f: nat, pins: nat) {
    && OthersAlone(s, t, f)
    && t.frames[f] == s.frames[f].(pins := pins, generation := t.frames[f].generation)
    && t.frames[f].generation == s.frames[f].generation + if s.frames[f].reserved then 1 else 0
  }

  /**
   The page is READY in frame f. Below the largest pin count there is one more pin and one new guard, and an LRU pool
   moves the frame to the end of its list, while a FIFO pool keeps its order. At the largest pin count no guard is
   handed out.
   */
  ghost predicate Hit(s: Pool, t: Pool, key: PageKey, f: nat)
    requires f < |s.frames|
  {
    && t.table == s.table && t.loading == s.loading && t.loads == s.loads && t.completions == s.completions
    && SameOutside(s, t)
    && if s.frames[f].pins < MAX_PINS then
         && Accessed(s, t, f, s.frames[f].pins + 1) && OneNewGuard(s, t, key, f)
         && (if s.policy.Lru? then MovedToBack(s.order, t.order, f) else t.order == s.order)
       else
         Accessed(s, t, f, s.frames[f].pins) && t.guards == s.guards && t.order == s.order && t.nextId == s.nextId
  }

  /** The fetch blocks until completion c is done. */
  ghost predicate Blocks(s: Pool, t: Pool, key: PageKey, c: nat) {
    t == s.(waiters := s.waiters[s.nextId := Waiter(key, c)], nextId := s.nextId + 1, stats := t.stats)
  }

  /** The completion of a new load; a load into a FREE frame knows the frame's ticket already. */
  ghost predicate NewLoad(s: Pool, t: Pool, load: Load, ticket: nat) {
    && t.completions == s.completions[s.nextId := Completion(load.origin, ticket, false, false)]
    && t.loads == s.loads[s.nextId := load]
    && t.nextId == s.nextId + 1 && t.guards == s.guards && t.order == s.order && SameOutside(s, t)
  }

  /** The lowest FREE frame is taken for the page and its read begins. */
  ghost predicate StartsInFree(s: Pool, t: Pool, key: PageKey, origin: Origin, f: nat) {
    && f < |s.frames| && s.frames[f].state.Free? && (forall h :: 0 <= h < f ==> !s.frames[h].state.Free?)
    && OthersAlone(s, t, f)
    && t.frames[f] == s.frames[f].(ticket := s.frames[f].ticket + 1, key := Some(key), dirty := false, pins := 1,
                                   state := Loading, completion := Some(s.nextId))
    && t.table == s.table[key := f] && t.loading == s.loading
    && NewLoad(s, t, Load(FreeFrame, key, f, origin, key, t.frames[f].ticket, s.frames[f].generation, Reading),
               t.frames[f].ticket)
  }

  /** The first frame of the replacer's list that may be evicted. */
  ghost predicate FirstVictim(s: Pool, origin: Origin, i: nat) {
    && i < |s.order| && s.order[i] < |s.frames| && Eligible(s.frames[s.order[i]], origin)
    && forall j :: 0 <= j < i ==> s.order[j] < |s.frames| && !Eligible(s.frames[s.order[j]], origin)
  }

  /** The victim is reserved under a new ticket, keeps its page, and the read of the new page begins. */
  ghost predicate StartsOnVictim(s: Pool, t: Pool, key: PageKey, origin: Origin, f: nat) {
    && f < |s.frames| && s.frames[f].key.Some?
    && OthersAlone(s, t, f)
    && t.frames[f] == s.frames[f].(reserved := true, replacementTicket := s.frames[f].replacementTicket + 1)
    && t.table == s.table
    && t.loading == s.loading[key := Reservation(f, s.frames[f].key.value, t.frames[f].replacementTicket,
                                                 s.frames[f].generation, s.nextId)]
    && NewLoad(s, t, Load(if s.frames[f].dirty then DirtyVictim else CleanVictim, key, f, origin,
                          s.frames[f].key.value, t.frames[f].replacementTicket, s.frames[f].generation, Reading), 0)
  }

  /** A page nobody holds: a FREE frame first, then the first victim, else no room. */
  ghost predicate Starts(s: Pool, t: Pool, key: PageKey, origin: Origin) {
    if exists f :: 0 <= f < |s.frames| && s.frames[f].state.Free? then
      exists f :: 0 <= f < |s.frames| && StartsInFree(s, t, key, origin, f)
    else if exists i: nat :: FirstVictim(s, origin, i) then
      exists i: nat :: FirstVictim(s, origin, i) && StartsOnVictim(s, t, key, origin, s.order[i])
    else OnlyStats(s, t)
  }

  /** What one turn of the fetch loop does. */
  ghost predicate Turns(s: Pool, t: Pool, key: PageKey, origin: Origin)
    requires Shape(s)
  {
    if !s.open || (origin.Prefetch? && (key in s.table || key in s.loading)) then OnlyStats(s, t)
    else if key in s.table then
      if s.frames[s.table[key]].state.Ready? then Hit(s, t, key, s.table[key])
      else s.frames[s.table[key]].completion.Some? && Blocks(s, t, key, s.frames[s.table[key]].completion.value)
    else if key in s.loading then Blocks(s, t, key, s.loading[key].completion)
    else Starts(s, t, key, origin)
  }

  lemma {:induction false} FirstFreeIsLowest(frames: seq<Frame>, from: nat)
    requires from <= |frames|
    ensures FirstFree(frames, from).Some? ==>
              from <= FirstFree(frames, from).value < |frames| &&
              forall h :: from <= h < FirstFree(frames, from).value ==> !frames[h].state.Free?
    decreases |frames| - from
  {
    if from < |frames| && !frames[from].state.Free? {
      FirstFreeIsLowest(frames, from + 1);
    }
  }

  lemma {:induction false} ChooseVictimIsFirst(s: Pool, origin: Origin, from: nat)
    requires from <= |s.order| && forall i :: 0 <= i < |s.order| ==> s.order[i] < |s.frames|
    ensures ChooseVictim(s.order[from..], s.frames, origin).None? ==>
              forall i :: from <= i < |s.order| ==> !Eligible(s.frames[s.order[i]], origin)
    ensures ChooseVictim(s.order[from..], s.frames, origin).Some? ==>
              exists i :: from <= i < |s.order| &&
                          s.order[i] == ChooseVictim(s.order[from..], s.frames, origin).value &&
                          Eligible(s.frames[s.order[i]], origin) &&
                          forall j :: from <= j < i ==> !Eligible(s.frames[s.order[j]], origin)
    decreases |s.order| - from
  {
    if from < |s.order| {
      assert s.order[from..][0] == s.order[from] && s.order[from..][1..] == s.order[from + 1..];
      if !Eligible(s.frames[s.order[from]], origin) {
        ChooseVictimIsFirst(s, origin, from + 1);
      }
    }
  }

  lemma VictimFound(s: Pool, origin: Origin) returns (i: nat)
    requires Shape(s)
    ensures ChooseVictim(s.order, s.frames, origin).None? ==> forall j: nat :: !FirstVictim(s, origin, j)
    ensures ChooseVictim(s.order, s.frames, origin).Some? ==>
              FirstVictim(s, origin, i) && s.order[i] == ChooseVictim(s.order, s.frames, origin).value
  {
    ChooseVictimIsFirst(s, origin, 0);
    assert s.order[0..] == s.order;
    i := 0;
    if ChooseVictim(s.order, s.frames, origin).Some? {
      i :| 0 <= i < |s.order| && s.order[i] == ChooseVictim(s.order, s.frames, origin).value &&
           Eligible(s.frames[s.order[i]], origin) &&
           forall j :: 0 <= j < i ==> !Eligible(s.frames[s.order[j]], origin);
    }
  }

  lemma ReserveFreeStarts(s: Pool, key: PageKey, origin: Origin, f: nat)
    requires f < |s.frames| && s.frames[f].state.Free? && (forall h :: 0 <= h < f ==> !s.frames[h].state.Free?)
    ensures StartsInFree(s, ReserveFree(s, key, origin, f), key, origin, f)
  {
  }

  lemma ReserveVictimStarts(s: Pool, key: PageKey, origin: Origin, f: nat)
    requires f < |s.frames| && s.frames[f].key.Some?
    ensures StartsOnVictim(s, ReserveVictim(s, key, origin, f), key, origin, f)
  {
  }

  lemma MissStarts(s: Pool, key: PageKey, origin: Origin)
    requires Shape(s) && key !in s.table && key !in s.loading
    ensures Starts(s, Miss(s, key, origin), key, origin)
  {
    FirstFreeIsLowest(s.frames, 0);
    var free := FirstFree(s.frames);
    if free.Some? {
      ReserveFreeStarts(s, key, origin, free.value);
    } else {
      var i := VictimFound(s, origin);
      if ChooseVictim(s.order, s.frames, origin).Some? {
        ReserveVictimStarts(s, key, origin, s.order[i]);
        assert FirstVictim(s, origin, i);
      }
    }
  }

  lemma TouchFields(s: Pool, f: nat)
    requires f < |s.frames|
    ensures Accessed(s, Touch(s, f), f, s.frames[f].pins)
    ensures Touch(s, f) == s.(frames := Touch(s, f).frames)
  {
  }

  lemma PinKeeps(s: Pool, key: PageKey, f: nat)
    requires f < |s.frames| && s.nextId !in s.guards && s.frames[f].pins < MAX_PINS
    ensures var t := Pin(s, key, f);
            && t.table == s.table && t.loading == s.loading && t.loads == s.loads && t.completions == s.completions
            && SameOutside(s, t) && OneNewGuard(s, t, key, f)
            && t.order == if s.policy.Lru? then RecordLoad(s.order, f) else s.order
  {
  }

  lemma PinAccesses(s: Pool, key: PageKey, f: nat)
    requires f < |s.frames| && s.frames[f].pins < MAX_PINS
    ensures Accessed(s, Pin(s, key, f), f, s.frames[f].pins + 1)
  {
    assert Pin(s, key, f).frames ==
           s.frames[f := Touched(s.frames[f]).(pins := s.frames[f].pins + 1)];
  }

  lemma PinHits(s: Pool, key: PageKey, f: nat)
    requires f < |s.frames| && s.nextId !in s.guards
    ensures Hit(s, Pin(s, key, f), key, f)
  {
    if s.frames[f].pins < MAX_PINS {
      PinKeeps(s, key, f);
      PinAccesses(s, key, f);
      RecordLoadMoves(s.order, f);
    } else {
      TouchFields(s, f);
    }
  }

  // The statistics of a fetch play no part in what it does.

  lemma HitWithoutStats(s: Pool, stats: Stats, t: Pool, key: PageKey, f: nat)
    requires f < |s.frames| && Hit(WithStats(s, stats), t, key, f)
    ensures Hit(s, t, key, f)
  {
  }

  lemma FreeWithoutStats(s: Pool, stats: Stats, t: Pool, key: PageKey, origin: Origin, f: nat)
    requires StartsInFree(WithStats(s, stats), t, key, origin, f)
    ensures StartsInFree(s, t, key, origin, f)
  {
  }

  lemma VictimWithoutStats(s: Pool, stats: Stats, t: Pool, key: PageKey, origin: Origin, f: nat)
    requires StartsOnVictim(WithStats(s, stats), t, key, origin, f)
    ensures StartsOnVictim(s, t, key, origin, f)
  {
  }

  lemma FirstVictimWithoutStats(s: Pool, stats: Stats, origin: Origin, i: nat)
    ensures FirstVictim(s, origin, i) == FirstVictim(WithStats(s, stats), origin, i)
  {
  }

  lemma StartsWithoutStats(s: Pool, stats: Stats, t: Pool, key: PageKey, origin: Origin)
    requires Starts(WithStats(s, stats), t, key, origin)
    ensures Starts(s, t, key, origin)
  {
    var u := WithStats(s, stats);
    forall i: nat ensures FirstVictim(s, origin, i) == FirstVictim(u, origin, i) {
      FirstVictimWithoutStats(s, stats, origin, i);
    }
    if exists f :: 0 <= f < |u.frames| && u.frames[f].state.Free? {
      var f :| 0 <= f < |u.frames| && StartsInFree(u, t, key, origin, f);
      FreeWithoutStats(s, stats, t, key, origin, f);
    } else if exists i: nat :: FirstVictim(u, origin, i) {
      var i: nat :| FirstVictim(u, origin, i) && StartsOnVictim(u, t, key, origin, u.order[i]);
      VictimWithoutStats(s, stats, t, key, origin, s.order[i]);
    }
  }

  lemma AttemptHits(s: Pool, key: PageKey, origin: Origin, classified: bool)
    requires Shape(s) && IdsOk(s) && s.open && key in s.table && s.frames[s.table[key]].state.Ready? && origin.Demand?
    ensures Hit(s, Attempt(s, key, origin, classified), key, s.table[key])
  {
    var u := Count(s, true, !classified && origin.Demand?);
    assert u == WithStats(s, u.stats);
    PinHits(u, key, s.table[key]);
    HitWithoutStats(s, u.stats, Pin(u, key, s.table[key]), key, s.table[key]);
  }

  lemma AttemptStarts(s: Pool, key: PageKey, origin: Origin, classified: bool)
    requires Shape(s) && s.open && key !in s.table && key !in s.loading
    ensures Starts(s, Attempt(s, key, origin, classified), key, origin)
  {
    var u := Count(s, false, !classified && origin.Demand?);
    assert u == WithStats(s, u.stats);
    MissStarts(u, key, origin);
    StartsWithoutStats(s, u.stats, Miss(u, key, origin), key, origin);
  }

  lemma AttemptBlocks(s: Pool, key: PageKey, classified: bool)
    requires Shape(s) && s.open && (key in s.table || key in s.loading)
    requires key in s.table ==> !s.frames[s.table[key]].state.Ready? && s.frames[s.table[key]].completion.Some?
    ensures Blocks(s, Attempt(s, key, Demand, classified), key,
                   if key in s.table then s.frames[s.table[key]].completion.value else s.loading[key].completion)
  {
  }

  lemma AttemptTurns(s: Pool, key: PageKey, origin: Origin, classified: bool)
    requires Shape(s) && FramesOk(s) && TableOk(s) && IdsOk(s)
    ensures Turns(s, Attempt(s, key, origin, classified), key, origin)
  {
    if s.open && !(origin.Prefetch? && (key in s.table || key in s.loading)) {
      if key !in s.table && key !in s.loading {
        AttemptStarts(s, key, origin, classified);
      } else if key in s.table && s.frames[s.table[key]].state.Ready? {
        AttemptHits(s, key, origin, classified);
      } else {
        if key in s.table {
          assert FrameOk(s, s.table[key]);
        }
        AttemptBlocks(s, key, classified);
      }
    }
  }
}
