/** The steps that end a load, release a table or close the pool keep the invariant. */
module PoolFinish {
  import opened Common
  import opened PoolState
  import opened PoolInvariant
  import opened PoolSteps
  import opened PoolLoads

  // ---------------------------------------------------------------- a FREE-frame load

  /** The test after relocking never fails: nobody else can take a LOADING frame. */
  lemma FreeLoadIsNeverStale(s: Pool, c: nat)
    requires FramesOk(s) && LoadsOk(s) && c in s.loads && s.loads[c].kind.FreeFrame?
    ensures LoadShape(s, c) && FreeMatches(s, c)
  {
    assert LoadOk(s, c) && FrameOk(s, s.loads[c].frame);
  }

  ghost function DropFree(s: Pool, c: nat): Pool
    requires LoadShape(s, c)
  {
    var load := s.loads[c];
    Complete(s.(table := s.table - {load.key}, frames := s.frames[load.frame := Reset(s.frames[load.frame])]), c, true)
  }

  lemma DropFreeFrames(s: Pool, c: nat)
    requires LoadShape(s, c) && FreeMatches(s, c) && s.loads[c].kind.FreeFrame?
    requires FramesOk(s) && TableOk(s)
    ensures FramesOk(DropFree(s, c)) && TableOk(DropFree(s, c))
  {
    var t := DropFree(s, c);
    var f := s.loads[c].frame;
    assert FrameOk(s, f);
    forall h: nat | h < |t.frames| ensures FrameOk(t, h) { assert FrameOk(s, h); }
  }

  lemma DropFreeLoads(s: Pool, c: nat)
    requires LoadShape(s, c) && FreeMatches(s, c) && s.loads[c].kind.FreeFrame?
    requires LoadsOk(s) && LoadingOk(s)
    ensures LoadsOk(DropFree(s, c)) && LoadingOk(DropFree(s, c))
  {
    var t := DropFree(s, c);
    forall d | d in t.loads ensures LoadOk(t, d) { assert LoadOk(s, d); }
  }

  lemma DropFreeRest(s: Pool, c: nat)
    requires LoadShape(s, c) && FreeMatches(s, c)
    requires GuardsOk(s) && OrderOk(s) && IdsOk(s)
    ensures GuardsOk(DropFree(s, c)) && OrderOk(DropFree(s, c)) && IdsOk(DropFree(s, c))
  {
    var t := DropFree(s, c);
    forall h: nat ensures h in t.order <==> h < |t.frames| && t.frames[h].state.Ready? {}
  }

  lemma DropFreeCoherent(s: Pool, c: nat)
    requires LoadShape(s, c) && FreeMatches(s, c)
    requires Coherent(s) && LoadsCarryCurrent(s) && LoadsOk(s) && TableOk(s) && FramesOk(s)
    ensures Coherent(DropFree(s, c)) && LoadsCarryCurrent(DropFree(s, c))
  {
    var t := DropFree(s, c);
    assert FrameOk(s, s.loads[c].frame);
    forall k | k in t.disk && k in t.logical ensures Current(t, k) { assert Current(s, k); }
    forall h: nat | h < |t.frames| ensures CleanMatchesDisk(t, h) {
      assert CleanMatchesDisk(s, h);
      if AllMarked(t, h) { MarksElsewhere(s, t, h); }
    }
    forall d | d in t.loads ensures t.loads[d].frame < |t.frames| && CarriesCurrent(t, d) {
      assert CarriesCurrent(s, d);
    }
  }

  ghost function PublishedFree(s: Pool, c: nat, page: RawPage): Pool
    requires LoadShape(s, c)
  {
    Complete(PublishFree(s, c, page), c, false)
  }

  lemma PublishFreeFrames(s: Pool, c: nat, page: RawPage)
    requires LoadShape(s, c) && FreeMatches(s, c) && s.loads[c].kind.FreeFrame? && s.loads[c].key in s.disk
    requires FramesOk(s) && TableOk(s)
    ensures FramesOk(PublishedFree(s, c, page)) && TableOk(PublishedFree(s, c, page))
  {
    var t := PublishedFree(s, c, page);
    var f := s.loads[c].frame;
    assert FrameOk(s, f);
    forall h: nat | h < |t.frames| ensures FrameOk(t, h) { assert FrameOk(s, h); }
  }

  lemma PublishFreeLoads(s: Pool, c: nat, page: RawPage)
    requires LoadShape(s, c) && FreeMatches(s, c) && s.loads[c].kind.FreeFrame?
    requires LoadsOk(s) && LoadingOk(s)
    ensures LoadsOk(PublishedFree(s, c, page)) && LoadingOk(PublishedFree(s, c, page))
  {
    var t := PublishedFree(s, c, page);
    forall d | d in t.loads ensures LoadOk(t, d) { assert LoadOk(s, d); }
  }

  lemma PublishFreeRest(s: Pool, c: nat, page: RawPage)
    requires LoadShape(s, c) && FreeMatches(s, c)
    requires GuardsOk(s) && OrderOk(s) && IdsOk(s)
    ensures GuardsOk(PublishedFree(s, c, page)) && OrderOk(PublishedFree(s, c, page)) &&
      IdsOk(PublishedFree(s, c, page))
  {
    var t := PublishedFree(s, c, page);
    var f := s.loads[c].frame;
    RecordLoadKeepsOrder(s, t, f);
    assert Holders(t.guards, f) == {};
  }

  lemma PublishFreeCoherent(s: Pool, c: nat, page: RawPage)
    requires LoadShape(s, c) && FreeMatches(s, c)
    requires Coherent(s) && LoadsCarryCurrent(s) && LoadsOk(s) && TableOk(s) && FramesOk(s)
    requires s.loads[c].key in s.logical && s.logical[s.loads[c].key] == page
    ensures Coherent(PublishedFree(s, c, page)) && LoadsCarryCurrent(PublishedFree(s, c, page))
  {
    var t := PublishedFree(s, c, page);
    var f := s.loads[c].frame;
    var key := s.loads[c].key;
    assert FrameOk(s, f) && key in s.disk.Keys && Current(s, key);
    forall k | k in t.disk && k in t.logical ensures Current(t, k) { assert Current(s, k); }
    forall h: nat | h < |t.frames| ensures CleanMatchesDisk(t, h) {
      assert CleanMatchesDisk(s, h);
      if AllMarked(t, h) { MarksElsewhere(s, t, h); }
    }
    forall d | d in t.loads ensures t.loads[d].frame < |t.frames| && CarriesCurrent(t, d) {
      assert CarriesCurrent(s, d);
    }
  }

  lemma FinishFreeKeepsInv(s: Pool, c: nat)
    requires Inv(s) && LoadShape(s, c) && s.loads[c].kind.FreeFrame? && s.loads[c].io.ReadDone?
    ensures Inv(FinishFree(s, c))
  {
    FreeLoadIsNeverStale(s, c);
    var load := s.loads[c];
    if load.io.result.None? {
      DropFreeFrames(s, c);
      DropFreeLoads(s, c);
      DropFreeRest(s, c);
      DropFreeCoherent(s, c);
      assert Inv(DropFree(s, c));
    } else {
      var page := load.io.result.value;
      assert load.key in s.logical.Keys by { assert CarriesCurrent(s, c); }
      PublishFreeFrames(s, c, page);
      PublishFreeLoads(s, c, page);
      PublishFreeRest(s, c, page);
      PublishFreeCoherent(s, c, page);
      GrantAfterPublish(s, c, page);
    }
  }

  lemma GrantAfterPublish(s: Pool, c: nat, page: RawPage)
    requires LoadShape(s, c) && FreeMatches(s, c) && LoadsOk(s) && Inv(PublishedFree(s, c, page))
    ensures Inv(Grant(PublishedFree(s, c, page), s.loads[c].key, s.loads[c].frame))
  {
    var t := PublishedFree(s, c, page);
    assert Pinnable(t, s.loads[c].frame) by {
      forall d | d in t.loads ensures t.loads[d].frame != s.loads[c].frame { assert LoadOk(s, d); }
    }
    GrantKeepsInv(t, s.loads[c].key, s.loads[c].frame);
  }

  // ---------------------------------------------------------------- giving a victim back

  /** A replacement's reservation and victim are still its own when it takes the lock again. */
  lemma VictimLoadIsNeverStale(s: Pool, c: nat)
    requires LoadsOk(s) && c in s.loads && !s.loads[c].kind.FreeFrame?
    ensures LoadShape(s, c) && Published(s, c) && VictimOwned(s, c)
  {
    assert LoadOk(s, c);
  }

  lemma AbandonFrames(s: Pool, c: nat)
    requires LoadShape(s, c) && !s.loads[c].kind.FreeFrame?
    requires FramesOk(s) && TableOk(s) && LoadsOk(s) && LoadingOk(s)
    ensures FramesOk(Abandon(s, c)) && TableOk(Abandon(s, c))
  {
    var t := Abandon(s, c);
    assert LoadOk(s, c);
    forall h: nat | h < |t.frames| ensures FrameOk(t, h) {
      assert FrameOk(s, h);
      if t.frames[h].reserved {
        BackedElsewhere(s, t, h, s.loads[c].key);
      }
    }
  }

  lemma BackedElsewhere(s: Pool, t: Pool, f: nat, key: PageKey)
    requires Backed(s.loading, f) && key in s.loading && s.loading[key].victim != f && t.loading == s.loading - {key}
    ensures Backed(t.loading, f)
  {
    var k :| k in s.loading && s.loading[k].victim == f;
    assert t.loading[k].victim == f;
  }

  lemma AbandonLoads(s: Pool, c: nat)
    requires LoadShape(s, c) && !s.loads[c].kind.FreeFrame? && LoadsOk(s)
    ensures LoadsOk(Abandon(s, c))
  {
    var t := Abandon(s, c);
    assert LoadOk(s, c);
    forall d | d in t.loads ensures LoadOk(t, d) { assert LoadOk(s, d); }
  }

  lemma AbandonLoading(s: Pool, c: nat)
    requires LoadShape(s, c) && Published(s, c) && LoadingOk(s)
    ensures LoadingOk(Abandon(s, c))
  {
  }

  lemma AbandonRest(s: Pool, c: nat)
    requires LoadShape(s, c) && GuardsOk(s) && OrderOk(s) && IdsOk(s)
    ensures GuardsOk(Abandon(s, c)) && OrderOk(Abandon(s, c)) && IdsOk(Abandon(s, c))
  {
    var t := Abandon(s, c);
    forall h: nat ensures h in t.order <==> h < |t.frames| && t.frames[h].state.Ready? {}
  }

  lemma AbandonCoherent(s: Pool, c: nat)
    requires LoadShape(s, c) && Coherent(s) && LoadsCarryCurrent(s)
    ensures Coherent(Abandon(s, c)) && LoadsCarryCurrent(Abandon(s, c))
  {
    var t := Abandon(s, c);
    forall k | k in t.disk && k in t.logical ensures Current(t, k) { assert Current(s, k); }
    forall h: nat | h < |t.frames| ensures CleanMatchesDisk(t, h) {
      assert CleanMatchesDisk(s, h);
      if AllMarked(t, h) { MarksElsewhere(s, t, h); }
    }
    forall d | d in t.loads ensures t.loads[d].frame < |t.frames| && CarriesCurrent(t, d) {
      assert CarriesCurrent(s, d);
    }
  }

  lemma AbandonKeepsInv(s: Pool, c: nat)
    requires Inv(s) && LoadShape(s, c) && !s.loads[c].kind.FreeFrame?
    ensures Inv(Abandon(s, c))
  {
    AbandonFrames(s, c);
    AbandonLoads(s, c);
    VictimLoadIsNeverStale(s, c);
    AbandonLoading(s, c);
    AbandonRest(s, c);
    AbandonCoherent(s, c);
  }

  // ---------------------------------------------------------------- committing a replacement

  ghost function Swapped(s: Pool, c: nat, page: RawPage): Pool
    requires LoadShape(s, c)
  {
    Complete(Swap(s, c, page), c, false)
  }

  /** The victim is unpinned and its bytes are on disk: dropping it loses nothing. */
  ghost predicate Droppable(s: Pool, c: nat) {
    && LoadShape(s, c) && !s.loads[c].kind.FreeFrame?
    && s.frames[s.loads[c].frame].pins == 0
    && s.loads[c].oldKey in s.disk
    && s.disk[s.loads[c].oldKey] == s.frames[s.loads[c].frame].page
  }

  lemma SwapTable(s: Pool, c: nat, page: RawPage)
    requires Droppable(s, c) && s.loads[c].key in s.disk
    requires FramesOk(s) && TableOk(s) && LoadsOk(s)
    ensures TableOk(Swapped(s, c, page))
  {
    assert LoadOk(s, c) && FrameOk(s, s.loads[c].frame);
  }

  lemma SwapFrames(s: Pool, c: nat, page: RawPage)
    requires Droppable(s, c) && FramesOk(s) && LoadsOk(s) && LoadingOk(s)
    ensures FramesOk(Swapped(s, c, page))
  {
    var t := Swapped(s, c, page);
    assert LoadOk(s, c) && FrameOk(s, s.loads[c].frame);
    forall h: nat | h < |t.frames| ensures FrameOk(t, h) {
      assert FrameOk(s, h);
      if t.frames[h].reserved { BackedElsewhere(s, t, h, s.loads[c].key); }
    }
  }

  lemma SwapLoads(s: Pool, c: nat, page: RawPage)
    requires Droppable(s, c) && LoadsOk(s)
    ensures LoadsOk(Swapped(s, c, page))
  {
    var t := Swapped(s, c, page);
    assert LoadOk(s, c);
    forall d | d in t.loads ensures LoadOk(t, d) { assert LoadOk(s, d); }
  }

  lemma SwapLoading(s: Pool, c: nat, page: RawPage)
    requires LoadShape(s, c) && Published(s, c) && LoadingOk(s)
    ensures LoadingOk(Swapped(s, c, page))
  {
  }

  lemma SwapRest(s: Pool, c: nat, page: RawPage)
    requires Droppable(s, c) && LoadsOk(s) && GuardsOk(s) && OrderOk(s) && IdsOk(s)
    ensures GuardsOk(Swapped(s, c, page)) && OrderOk(Swapped(s, c, page)) && IdsOk(Swapped(s, c, page))
  {
    var t := Swapped(s, c, page);
    var f := s.loads[c].frame;
    assert LoadOk(s, c);
    RecordLoadKeepsOrder(s, t, f);
    NoHolders(s, f);
    assert Holders(t.guards, f) == {};
  }

  lemma SwapCoherent(s: Pool, c: nat, page: RawPage)
    requires Droppable(s, c) && FramesOk(s) && TableOk(s) && LoadsOk(s) && LoadingOk(s) && Coherent(s)
    requires s.loads[c].key in s.logical && s.logical[s.loads[c].key] == page
    ensures Coherent(Swapped(s, c, page))
  {
    var t := Swapped(s, c, page);
    var load := s.loads[c];
    assert LoadOk(s, c) && FrameOk(s, load.frame);
    assert load.key in s.disk.Keys && load.oldKey in s.logical.Keys && Current(s, load.key) && Current(s, load.oldKey);
    forall k | k in t.disk && k in t.logical ensures Current(t, k) { assert Current(s, k); }
    forall h: nat | h < |t.frames| ensures CleanMatchesDisk(t, h) {
      assert CleanMatchesDisk(s, h);
      if AllMarked(t, h) { MarksElsewhere(s, t, h); }
    }
  }

  lemma SwapCarries(s: Pool, c: nat, page: RawPage)
    requires Droppable(s, c) && LoadsOk(s) && LoadsCarryCurrent(s)
    ensures LoadsCarryCurrent(Swapped(s, c, page))
  {
    var t := Swapped(s, c, page);
    forall d | d in t.loads ensures t.loads[d].frame < |t.frames| && CarriesCurrent(t, d) {
      assert CarriesCurrent(s, d);
    }
  }

  lemma ReplaceKeepsInv(s: Pool, c: nat, page: RawPage)
    requires Inv(s) && Droppable(s, c)
    requires s.loads[c].key in s.logical && s.logical[s.loads[c].key] == page
    ensures Inv(Replace(s, c, page))
  {
    assert s.loads[c].key in s.disk by { assert s.loads[c].key in s.logical.Keys; }
    SwapTable(s, c, page);
    SwapFrames(s, c, page);
    SwapLoads(s, c, page);
    VictimLoadIsNeverStale(s, c);
    SwapLoading(s, c, page);
    SwapRest(s, c, page);
    SwapCoherent(s, c, page);
    SwapCarries(s, c, page);
    GrantAfterSwap(s, c, page);
  }

  lemma GrantAfterSwap(s: Pool, c: nat, page: RawPage)
    requires LoadShape(s, c) && LoadsOk(s) && Inv(Swapped(s, c, page))
    ensures Inv(Grant(Swapped(s, c, page), s.loads[c].key, s.loads[c].frame))
  {
    var t := Swapped(s, c, page);
    assert Pinnable(t, s.loads[c].frame);
    GrantKeepsInv(t, s.loads[c].key, s.loads[c].frame);
  }

  lemma CleanVictimIsDroppable(s: Pool, c: nat)
    requires Structure(s) && Coherent(s) && LoadShape(s, c) && s.loads[c].kind.CleanVictim?
    requires VictimUntouched(s, c, false, s.loads[c].generation)
    ensures Droppable(s, c)
  {
    assert LoadOk(s, c);
    NoHolders(s, s.loads[c].frame);
    assert CleanMatchesDisk(s, s.loads[c].frame);
  }

  /** A cancelled or failed replacement. */
  lemma CancelKeepsInv(s: Pool, c: nat, stats: Stats)
    requires Inv(s) && LoadShape(s, c) && !s.loads[c].kind.FreeFrame? && StatsOk(WithStats(s, stats))
    ensures Inv(Abandon(WithStats(s, stats), c))
  {
    BookkeepingKeepsInv(s, WithStats(s, stats));
    AbandonKeepsInv(WithStats(s, stats), c);
  }

  lemma CommitKeepsInv(s: Pool, c: nat, stats: Stats, page: RawPage)
    requires Inv(s) && Droppable(s, c) && StatsOk(WithStats(s, stats))
    requires s.loads[c].key in s.logical && s.logical[s.loads[c].key] == page
    ensures Inv(Replace(WithStats(s, stats), c, page))
  {
    BookkeepingKeepsInv(s, WithStats(s, stats));
    ReplaceKeepsInv(WithStats(s, stats), c, page);
  }

  lemma FinishCleanKeepsInv(s: Pool, c: nat)
    requires Inv(s) && LoadShape(s, c) && s.loads[c].kind.CleanVictim? && s.loads[c].io.ReadDone?
    ensures Inv(FinishClean(s, c))
  {
    if !Published(s, c) || s.loads[c].io.result.None? {
      AbandonKeepsInv(s, c);
    } else if !VictimUntouched(s, c, false, s.loads[c].generation) {
      CancelKeepsInv(s, c, s.stats.CleanCancelled());
    } else {
      CleanVictimIsDroppable(s, c);
      assert CarriesCurrent(s, c);
      CommitKeepsInv(s, c, s.stats.CleanCommitted(), s.loads[c].io.result.value);
    }
  }

  lemma DirtyVictimIsDroppable(s: Pool, c: nat)
    requires Structure(s) && LoadsCarryCurrent(s) && LoadShape(s, c) && s.loads[c].io.WriteDone? && s.loads[c].io.landed
    requires VictimUntouched(s, c, true, s.loads[c].io.writeGeneration)
    ensures Droppable(s, c)
  {
    assert LoadOk(s, c) && CarriesCurrent(s, c);
  }

  lemma CommitDirtyKeepsInv(s: Pool, c: nat)
    requires Inv(s) && LoadShape(s, c) && s.loads[c].io.WriteDone? && s.loads[c].io.landed
    requires s.stats.dirtyCommits < s.stats.dirtyWriteSuccesses
    ensures Inv(CommitDirty(s, c))
  {
    assert LoadOk(s, c);
    if !Published(s, c) || !VictimUntouched(s, c, true, s.loads[c].io.writeGeneration) {
      CancelKeepsInv(s, c, s.stats.DirtyCancelled());
    } else {
      DirtyVictimIsDroppable(s, c);
      assert CarriesCurrent(s, c);
      CommitKeepsInv(s, c, s.stats.DirtyCommitted(), s.loads[c].io.loaded);
    }
  }

  lemma FinishDirtyKeepsInv(s: Pool, c: nat)
    requires Inv(s) && LoadShape(s, c) && s.loads[c].io.WriteDone?
    ensures Inv(FinishDirty(s, c))
  {
    if !s.loads[c].io.landed {
      assert LoadOk(s, c);
      AbandonKeepsInv(s, c);
    } else {
      BookkeepingKeepsInv(s, WithStats(s, s.stats.DirtyLanded()));
      CommitDirtyKeepsInv(WithStats(s, s.stats.DirtyLanded()), c);
    }
  }

  lemma SnapshotDirtyKeepsInv(s: Pool, c: nat)
    requires Inv(s) && LoadShape(s, c) && s.loads[c].kind.DirtyVictim? && s.loads[c].io.ReadDone?
    ensures Inv(SnapshotDirty(s, c))
  {
    if !Published(s, c) || s.loads[c].io.result.None? {
      AbandonKeepsInv(s, c);
    } else if !VictimUntouched(s, c, true, s.loads[c].generation) {
      CancelKeepsInv(s, c, s.stats.DirtyCancelled());
    } else {
      SnapshotIsOnlyIo(s, c);
      OnlyIoStructure(s, SnapshotDirty(s, c), c);
      OnlyIoCoherent(s, SnapshotDirty(s, c), c);
      SnapshotCarries(s, c);
    }
  }

  lemma SnapshotIsOnlyIo(s: Pool, c: nat)
    requires LoadShape(s, c) && s.loads[c].kind.DirtyVictim? && s.loads[c].io.ReadDone? && s.loads[c].io.result.Some?
    requires Published(s, c) && VictimUntouched(s, c, true, s.loads[c].generation)
    ensures OnlyIo(s, SnapshotDirty(s, c), c)
  {
  }

  lemma SnapshotCarries(s: Pool, c: nat)
    requires LoadsCarryCurrent(s) && LoadShape(s, c) && s.loads[c].io.ReadDone? && s.loads[c].io.result.Some?
    requires Published(s, c) && VictimUntouched(s, c, true, s.loads[c].generation)
    ensures LoadsCarryCurrent(SnapshotDirty(s, c))
  {
    var t := SnapshotDirty(s, c);
    forall d | d in t.loads ensures t.loads[d].frame < |t.frames| && CarriesCurrent(t, d) {
      assert CarriesCurrent(s, d);
    }
  }

  // ---------------------------------------------------------------- releasing a table, closing the pool

  lemma {:induction false} EvictedFacts(order: seq<nat>, frames: seq<Frame>, table: nat)
    requires Distinct(order) && forall i :: 0 <= i < |order| ==> order[i] < |frames|
    ensures Distinct(Evicted(order, frames, table))
    ensures forall x :: x in Evicted(order, frames, table) <==> x in order && !Belongs(frames[x], table)
  {
    if order != [] {
      assert order == [order[0]] + order[1..];
      EvictedFacts(order[1..], frames, table);
      var rest := Evicted(order[1..], frames, table);
      assert order[0] !in order[1..];
      forall i, j | 0 <= i < j < |[order[0]] + rest| ensures ([order[0]] + rest)[i] != ([order[0]] + rest)[j] {
        assert ([order[0]] + rest)[j] == rest[j - 1] && rest[j - 1] in order[1..];
      }
    }
  }

  lemma ReleaseFrames(s: Pool, table: nat)
    requires Shape(s) && Releasable(s, table) && FramesOk(s) && TableOk(s)
    ensures FramesOk(Release(s, table)) && TableOk(Release(s, table))
  {
    var t := Release(s, table);
    forall h: nat | h < |t.frames| ensures FrameOk(t, h) { assert FrameOk(s, h); }
    forall k | k in t.table
      ensures t.table[k] < |t.frames| && t.frames[t.table[k]].key == Some(k)
      ensures t.frames[t.table[k]].state.Ready? ==> k in t.disk
    {
      assert t.table[k] == s.table[k];
    }
  }

  /** No load touches a table that may be released. */
  lemma ReleaseAvoidsLoads(s: Pool, table: nat, c: nat)
    requires Releasable(s, table) && FramesOk(s) && LoadsOk(s) && c in s.loads
    ensures s.loads[c].frame < |s.frames| && !Belongs(s.frames[s.loads[c].frame], table)
    ensures s.loads[c].key.table != table
  {
    assert LoadOk(s, c) && FrameOk(s, s.loads[c].frame);
  }

  lemma ReleaseLoads(s: Pool, table: nat)
    requires Shape(s) && Releasable(s, table) && FramesOk(s) && LoadsOk(s) && LoadingOk(s)
    ensures LoadsOk(Release(s, table)) && LoadingOk(Release(s, table))
  {
    var t := Release(s, table);
    forall c | c in t.loads ensures LoadOk(t, c) {
      assert LoadOk(s, c);
      ReleaseAvoidsLoads(s, table, c);
    }
  }

  lemma ReleaseRest(s: Pool, table: nat)
    requires Shape(s) && Releasable(s, table) && GuardsOk(s) && OrderOk(s) && IdsOk(s) && FramesOk(s)
    ensures GuardsOk(Release(s, table)) && OrderOk(Release(s, table)) && IdsOk(Release(s, table))
  {
    var t := Release(s, table);
    EvictedFacts(s.order, s.frames, table);
    forall g | g in t.guards
      ensures t.guards[g].frame < |t.frames| && t.frames[t.guards[g].frame].state.Ready?
      ensures t.frames[t.guards[g].frame].key == Some(t.guards[g].key)
    {
      assert g in Holders(s.guards, s.guards[g].frame);
    }
    forall h: nat ensures h in t.order <==> h < |t.frames| && t.frames[h].state.Ready? {
      assert h < |s.frames| ==> FrameOk(s, h);
    }
  }

  lemma ReleaseCoherent(s: Pool, table: nat)
    requires Shape(s) && Releasable(s, table) && Coherent(s) && GuardsOk(s) && TableOk(s) && FramesOk(s)
    ensures Coherent(Release(s, table))
  {
    var t := Release(s, table);
    forall k | k in t.disk && k in t.logical ensures Current(t, k) {
      assert Current(s, k);
      if k in s.table && k.table == table {
        NoHolders(s, s.table[k]);
        assert CleanMatchesDisk(s, s.table[k]);
      }
    }
    forall h: nat | h < |t.frames| ensures CleanMatchesDisk(t, h) {
      assert CleanMatchesDisk(s, h);
      if AllMarked(t, h) { MarksElsewhere(s, t, h); }
    }
  }

  lemma ReleaseCarries(s: Pool, table: nat)
    requires Shape(s) && Releasable(s, table) && LoadsCarryCurrent(s) && FramesOk(s) && LoadsOk(s)
    ensures LoadsCarryCurrent(Release(s, table))
  {
    var t := Release(s, table);
    forall c | c in t.loads ensures t.loads[c].frame < |t.frames| && CarriesCurrent(t, c) {
      assert CarriesCurrent(s, c);
      ReleaseAvoidsLoads(s, table, c);
    }
  }

  lemma ReleaseKeepsInv(s: Pool, table: nat)
    requires Inv(s) && Shape(s) && Releasable(s, table)
    ensures Inv(Release(s, table))
  {
    ReleaseFrames(s, table);
    ReleaseLoads(s, table);
    ReleaseRest(s, table);
    ReleaseCoherent(s, table);
    ReleaseCarries(s, table);
  }

  lemma LoadHoldsFrame(s: Pool, c: nat)
    requires Structure(s) && c in s.loads
    ensures s.loading != map[] || (s.loads[c].frame < |s.frames| && s.frames[s.loads[c].frame].pins != 0)
  {
    assert LoadOk(s, c) && FrameOk(s, s.loads[c].frame);
  }

  lemma GuardHoldsFrame(s: Pool, g: nat)
    requires Structure(s) && g in s.guards
    ensures s.guards[g].frame < |s.frames| && s.frames[s.guards[g].frame].pins != 0
  {
    assert g in Holders(s.guards, s.guards[g].frame);
  }

  lemma ClosableHasNoLoads(s: Pool)
    requires Closable(s) && Structure(s)
    ensures s.loads == map[] && s.guards == map[]
  {
    if c :| c in s.loads {
      LoadHoldsFrame(s, c);
      assert false;
    }
    if g :| g in s.guards {
      GuardHoldsFrame(s, g);
      assert false;
    }
  }

  /** A successful close leaves every page's last written value on disk. */
  lemma CloseWritesBack(s: Pool)
    requires Inv(s) && Closable(s)
    ensures s.disk == s.logical
  {
    ClosableHasNoLoads(s);
    forall k | k in s.disk ensures k in s.logical && s.disk[k] == s.logical[k] {
      assert k in s.logical.Keys && Current(s, k);
      if Resident(s, k) { assert CleanMatchesDisk(s, s.table[k]); }
    }
  }

  lemma CloseKeepsInv(s: Pool)
    requires Inv(s) && Closable(s)
    ensures Inv(Close(s))
  {
    ClosableHasNoLoads(s);
    CloseWritesBack(s);
    var t := Close(s);
    assert FramesOk(t) && Coherent(t);
  }
}
