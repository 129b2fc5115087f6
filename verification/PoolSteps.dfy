/** Each step of the buffer pool keeps the invariant. */
module PoolSteps {
  import opened Common
  import opened PoolState
  import opened PoolInvariant

  lemma InvShape(s: Pool)
    requires Structure(s)
    ensures Shape(s)
  {
    forall i | 0 <= i < |s.order| ensures s.order[i] < |s.frames| {
      assert s.order[i] in s.order;
    }
  }

  // ---------------------------------------------------------------- guards per frame

  lemma HoldersAdd(guards: map<nat, Guard>, g: nat, guard: Guard, f: nat)
    requires g !in guards
    ensures |Holders(guards[g := guard], f)| == |Holders(guards, f)| + (if guard.frame == f then 1 else 0)
  {
    assert Holders(guards[g := guard], f) ==
           if guard.frame == f then Holders(guards, f) + {g} else Holders(guards, f);
  }

  lemma HoldersUpdate(guards: map<nat, Guard>, g: nat, guard: Guard, f: nat)
    requires g in guards && guard.frame == guards[g].frame
    ensures Holders(guards[g := guard], f) == Holders(guards, f)
  {
  }

  lemma HoldersRemove(guards: map<nat, Guard>, g: nat, f: nat)
    requires g in guards
    ensures |Holders(guards - {g}, f)| == |Holders(guards, f)| - (if guards[g].frame == f then 1 else 0)
  {
    assert Holders(guards - {g}, f) == Holders(guards, f) - {g};
    if guards[g].frame == f {
      assert g in Holders(guards, f);
    } else {
      assert Holders(guards, f) - {g} == Holders(guards, f);
    }
  }

  lemma NoHolders(s: Pool, f: nat)
    requires GuardsOk(s) && f < |s.frames| && (s.frames[f].state.Ready? ==> s.frames[f].pins == 0)
    ensures AllMarked(s, f)
    ensures forall g <- s.guards :: s.guards[g].frame != f
  {
    forall g | g in s.guards ensures s.guards[g].frame != f {
      assert s.guards[g].frame == f ==> g in Holders(s.guards, f);
    }
  }

  /** Guards outside frame f are untouched, so the other frames keep their marks. */
  lemma MarksElsewhere(s: Pool, t: Pool, f: nat)
    requires AllMarked(t, f)
    requires forall g :: g in s.guards && s.guards[g].frame == f ==> g in t.guards && t.guards[g] == s.guards[g]
    ensures AllMarked(s, f)
  {
    forall g | g in s.guards && s.guards[g].frame == f ensures !s.guards[g].unmarked {
      assert t.guards[g] == s.guards[g];
    }
  }

  // ---------------------------------------------------------------- steps that keep every identity

  /** A frame kept its key, its state and its reservation; only READY frames changed otherwise. */
  ghost predicate SameRole(a: Frame, b: Frame) {
    && a.key == b.key && a.state == b.state && a.completion == b.completion && a.reserved == b.reserved
    && a.ticket == b.ticket && a.replacementTicket == b.replacementTicket
    && (!a.state.Ready? ==> a.pins == b.pins && a.dirty == b.dirty)
  }

  ghost predicate SameLoad(a: Load, b: Load) {
    && b == a.(io := b.io)
    && (b.io.Writing? || b.io.WriteDone? ==> a.io == b.io || a.kind.DirtyVictim?)
  }

  /** A step that moves no page between frames and starts or ends no load. */
  ghost predicate Soft(s: Pool, t: Pool) {
    && |t.frames| == |s.frames|
    && (forall f: nat :: f < |s.frames| ==> SameRole(s.frames[f], t.frames[f]))
    && t.table == s.table && t.loading == s.loading && t.completions == s.completions
    && t.disk.Keys == s.disk.Keys
    && t.loads.Keys == s.loads.Keys
    && (forall c :: c in s.loads ==> SameLoad(s.loads[c], t.loads[c]))
  }

  lemma SoftFrames(s: Pool, t: Pool)
    requires FramesOk(s) && Soft(s, t)
    ensures FramesOk(t)
  {
    forall f: nat | f < |t.frames| ensures FrameOk(t, f) {
      assert FrameOk(s, f) && SameRole(s.frames[f], t.frames[f]);
      if t.frames[f].state.Loading? {
        assert SameLoad(s.loads[t.frames[f].completion.value], t.loads[t.frames[f].completion.value]);
      }
    }
  }

  lemma SoftTable(s: Pool, t: Pool)
    requires TableOk(s) && Soft(s, t)
    ensures TableOk(t)
  {
    forall k | k in t.table
      ensures t.table[k] < |t.frames| && t.frames[t.table[k]].key == Some(k)
      ensures t.frames[t.table[k]].state.Ready? ==> k in t.disk
    {
      assert SameRole(s.frames[s.table[k]], t.frames[s.table[k]]);
      assert t.frames[t.table[k]].state.Ready? ==> k in s.disk.Keys;
    }
  }

  lemma SoftLoads(s: Pool, t: Pool)
    requires LoadsOk(s) && Soft(s, t)
    ensures LoadsOk(t)
  {
    forall c | c in t.loads ensures LoadOk(t, c) {
      assert LoadOk(s, c) && SameLoad(s.loads[c], t.loads[c]);
      assert SameRole(s.frames[s.loads[c].frame], t.frames[s.loads[c].frame]);
    }
    forall c, d | c in t.loads && d in t.loads && t.loads[c].frame == t.loads[d].frame ensures c == d {
      assert SameLoad(s.loads[c], t.loads[c]) && SameLoad(s.loads[d], t.loads[d]);
    }
  }

  lemma SoftLoading(s: Pool, t: Pool)
    requires LoadingOk(s) && Soft(s, t)
    ensures LoadingOk(t)
  {
    forall k | k in t.loading
      ensures k !in t.table && t.loading[k].completion in t.loads && !t.loads[t.loading[k].completion].kind.FreeFrame?
      ensures t.loads[t.loading[k].completion].key == k
      ensures t.loads[t.loading[k].completion].frame == t.loading[k].victim
    {
      assert SameLoad(s.loads[s.loading[k].completion], t.loads[s.loading[k].completion]);
    }
  }

  lemma SoftOrder(s: Pool, t: Pool)
    requires OrderOk(s) && Soft(s, t) && t.order == s.order
    ensures OrderOk(t)
  {
    forall f: nat ensures f in t.order <==> f < |t.frames| && t.frames[f].state.Ready? {
      assert f < |s.frames| ==> SameRole(s.frames[f], t.frames[f]);
    }
  }

  lemma SoftGuards(s: Pool, t: Pool)
    requires GuardsOk(s) && Soft(s, t) && t.guards == s.guards
    requires forall f: nat :: f < |s.frames| ==> t.frames[f].pins == s.frames[f].pins
    ensures GuardsOk(t)
  {
    forall g | g in t.guards
      ensures t.guards[g].frame < |t.frames| && t.frames[t.guards[g].frame].state.Ready?
      ensures t.frames[t.guards[g].frame].key == Some(t.guards[g].key)
    {
      assert SameRole(s.frames[s.guards[g].frame], t.frames[s.guards[g].frame]);
    }
    forall f: nat | f < |t.frames| && t.frames[f].state.Ready? ensures t.frames[f].pins == |Holders(t.guards, f)| {
      assert SameRole(s.frames[f], t.frames[f]);
    }
  }

  lemma SoftStructure(s: Pool, t: Pool)
    requires Structure(s) && Soft(s, t) && GuardsOk(t) && OrderOk(t) && IdsOk(t)
    ensures Structure(t)
  {
    SoftFrames(s, t);
    SoftTable(s, t);
    SoftLoads(s, t);
    SoftLoading(s, t);
  }

  // ---------------------------------------------------------------- steps that change no content

  /** A frame that a reservation watches changes generation whenever it is pinned or marked. */
  ghost predicate Watched(a: Frame, b: Frame) {
    && a.generation <= b.generation
    && (a.reserved && a.generation == b.generation ==> a.dirty == b.dirty && (a.pins == 0 ==> b.pins == 0))
    && (a.dirty ==> b.dirty)
    && a.page == b.page
  }

  ghost predicate Calm(s: Pool, t: Pool)
    requires |s.frames| == |t.frames|
  {
    && t.disk == s.disk && t.logical == s.logical && t.loads == s.loads
    && (forall f: nat :: f < |s.frames| ==> Watched(s.frames[f], t.frames[f]))
    && (forall f: nat :: f < |s.frames| && !t.frames[f].dirty && AllMarked(t, f) ==> AllMarked(s, f))
  }

  lemma CalmCoherent(s: Pool, t: Pool)
    requires Coherent(s) && Soft(s, t) && Calm(s, t)
    ensures Coherent(t)
  {
    forall k | k in t.disk && k in t.logical ensures Current(t, k) {
      assert Current(s, k);
      if k in s.table && s.table[k] < |s.frames| {
        assert SameRole(s.frames[s.table[k]], t.frames[s.table[k]]);
        assert Watched(s.frames[s.table[k]], t.frames[s.table[k]]);
      }
    }
    forall f: nat | f < |t.frames| ensures CleanMatchesDisk(t, f) {
      assert CleanMatchesDisk(s, f) && SameRole(s.frames[f], t.frames[f]) && Watched(s.frames[f], t.frames[f]);
    }
  }

  lemma CalmLoads(s: Pool, t: Pool)
    requires LoadsCarryCurrent(s) && LoadsOk(s) && Soft(s, t) && Calm(s, t)
    ensures LoadsCarryCurrent(t)
  {
    forall c | c in t.loads ensures t.loads[c].frame < |t.frames| && CarriesCurrent(t, c) {
      assert CarriesCurrent(s, c) && LoadOk(s, c);
      assert Watched(s.frames[s.loads[c].frame], t.frames[s.loads[c].frame]);
    }
  }

  lemma CalmKeepsInv(s: Pool, t: Pool)
    requires Inv(s) && Soft(s, t) && Calm(s, t) && GuardsOk(t) && OrderOk(t) && IdsOk(t) && StatsOk(t)
    ensures Inv(t)
  {
    SoftStructure(s, t);
    CalmCoherent(s, t);
    CalmLoads(s, t);
  }

  // ---------------------------------------------------------------- guard operations

  lemma MarkDirtyIsCalm(s: Pool, g: nat)
    requires GuardShape(s, g) && s.frames[s.guards[g].frame].state.Ready?
    ensures Soft(s, MarkDirty(s, g)) && Calm(s, MarkDirty(s, g))
  {
    var t := MarkDirty(s, g);
    forall f: nat | f < |s.frames| && !t.frames[f].dirty && AllMarked(t, f) ensures AllMarked(s, f) {
      MarksElsewhere(s, t, f);
    }
  }

  lemma MarkDirtyKeepsInv(s: Pool, g: nat)
    requires Inv(s) && GuardShape(s, g)
    ensures Inv(MarkDirty(s, g))
  {
    MarkDirtyIsCalm(s, g);
    UpdateGuardKeepsGuards(s, MarkDirty(s, g), g);
    SoftOrder(s, MarkDirty(s, g));
    CalmKeepsInv(s, MarkDirty(s, g));
  }

  lemma UpdateGuardKeepsGuards(s: Pool, t: Pool, g: nat)
    requires GuardsOk(s) && GuardShape(s, g) && |t.frames| == |s.frames|
    requires g in t.guards && t.guards == s.guards[g := t.guards[g]]
    requires t.guards[g].frame == s.guards[g].frame && t.guards[g].key == s.guards[g].key
    requires forall f: nat :: f < |s.frames| ==>
      SameRole(s.frames[f], t.frames[f]) && s.frames[f].pins == t.frames[f].pins
    ensures GuardsOk(t)
  {
    forall f: nat | f < |t.frames| && t.frames[f].state.Ready? ensures t.frames[f].pins == |Holders(t.guards, f)| {
      HoldersUpdate(s.guards, g, t.guards[g], f);
      assert SameRole(s.frames[f], t.frames[f]);
    }
    forall x | x in t.guards
      ensures t.guards[x].frame < |t.frames| && t.frames[t.guards[x].frame].state.Ready?
      ensures t.frames[t.guards[x].frame].key == Some(t.guards[x].key)
    {
      assert SameRole(s.frames[s.guards[x].frame], t.frames[s.guards[x].frame]);
    }
  }

  lemma UnpinKeepsGuards(s: Pool, g: nat)
    requires GuardsOk(s) && GuardShape(s, g) && s.frames[s.guards[g].frame].pins > 0
    ensures GuardsOk(Unpin(s, g))
  {
    var t := Unpin(s, g);
    forall f: nat | f < |t.frames| && t.frames[f].state.Ready? ensures t.frames[f].pins == |Holders(t.guards, f)| {
      HoldersRemove(s.guards, g, f);
    }
  }

  lemma UnpinIsCalm(s: Pool, g: nat)
    requires GuardShape(s, g) && !s.guards[g].unmarked
    requires s.frames[s.guards[g].frame].pins > 0 && s.frames[s.guards[g].frame].state.Ready?
    ensures Soft(s, Unpin(s, g)) && Calm(s, Unpin(s, g))
  {
    var t := Unpin(s, g);
    forall f: nat | f < |s.frames| && !t.frames[f].dirty && AllMarked(t, f) ensures AllMarked(s, f) {
      forall x | x in s.guards && s.guards[x].frame == f ensures !s.guards[x].unmarked {
        assert x != g ==> t.guards[x] == s.guards[x];
      }
    }
  }

  lemma UnpinKeepsInv(s: Pool, g: nat)
    requires Inv(s) && GuardShape(s, g) && !s.guards[g].unmarked && s.frames[s.guards[g].frame].pins > 0
    ensures Inv(Unpin(s, g))
  {
    UnpinKeepsGuards(s, g);
    UnpinIsCalm(s, g);
    SoftOrder(s, Unpin(s, g));
    CalmKeepsInv(s, Unpin(s, g));
  }

  lemma GuardWriteKeepsCoherence(s: Pool, g: nat, page: RawPage)
    requires Coherent(s) && TableOk(s) && FramesOk(s) && GuardsOk(s) && GuardShape(s, g)
    ensures Coherent(GuardWrite(s, g, page))
  {
    var t := GuardWrite(s, g, page);
    var f := s.guards[g].frame;
    assert FrameOk(s, f);
    assert s.guards[g].key in s.disk.Keys;
    forall k | k in t.disk && k in t.logical ensures Current(t, k) { assert Current(s, k); }
    forall h: nat | h < |t.frames| ensures CleanMatchesDisk(t, h) {
      assert CleanMatchesDisk(s, h);
      if h == f {
        assert t.guards[g].unmarked;
      } else if AllMarked(t, h) {
        MarksElsewhere(s, t, h);
      }
    }
  }

  lemma GuardWriteKeepsLoads(s: Pool, g: nat, page: RawPage)
    requires LoadsCarryCurrent(s) && FramesOk(s) && LoadsOk(s) && LoadingOk(s) && GuardsOk(s) && GuardShape(s, g)
    ensures LoadsCarryCurrent(GuardWrite(s, g, page))
  {
    var t := GuardWrite(s, g, page);
    assert g in Holders(s.guards, s.guards[g].frame);
    assert FrameOk(s, s.guards[g].frame);
    forall c | c in t.loads ensures t.loads[c].frame < |t.frames| && CarriesCurrent(t, c) {
      assert CarriesCurrent(s, c) && LoadOk(s, c) && FrameOk(s, s.loads[c].frame);
      GuardWriteMarks(s, g, page, s.loads[c].frame);
    }
  }

  lemma GuardWriteMarks(s: Pool, g: nat, page: RawPage, f: nat)
    requires GuardShape(s, g)
    ensures if f == s.guards[g].frame then !AllMarked(GuardWrite(s, g, page), f)
            else AllMarked(GuardWrite(s, g, page), f) ==> AllMarked(s, f)
  {
    var t := GuardWrite(s, g, page);
    if f == s.guards[g].frame {
      assert t.guards[g].unmarked;
    } else if AllMarked(t, f) {
      MarksElsewhere(s, t, f);
    }
  }

  lemma GuardWriteIsSoft(s: Pool, g: nat, page: RawPage)
    requires GuardsOk(s) && GuardShape(s, g)
    ensures Soft(s, GuardWrite(s, g, page)) && GuardsOk(GuardWrite(s, g, page))
  {
    UpdateGuardKeepsGuards(s, GuardWrite(s, g, page), g);
  }

  lemma GuardWriteKeepsStructure(s: Pool, g: nat, page: RawPage)
    requires Structure(s) && GuardShape(s, g)
    ensures Structure(GuardWrite(s, g, page))
  {
    var t := GuardWrite(s, g, page);
    GuardWriteIsSoft(s, g, page);
    SoftOrder(s, t);
    SoftStructure(s, t);
  }

  lemma GuardWriteKeepsInv(s: Pool, g: nat, page: RawPage)
    requires Inv(s) && GuardShape(s, g)
    ensures Inv(GuardWrite(s, g, page))
  {
    GuardWriteKeepsStructure(s, g, page);
    GuardWriteKeepsCoherence(s, g, page);
    GuardWriteKeepsLoads(s, g, page);
  }

  // ---------------------------------------------------------------- disk writes of a READY frame

  /** Only the disk bytes of frame f's page change; f ends up clean only with its own bytes, or while a guard is
      about to mark it dirty again. */
  ghost predicate DiskWrite(s: Pool, t: Pool, f: nat) {
    && f < |s.frames| && s.frames[f].state.Ready? && s.frames[f].key.Some?
    && s.frames[f].key.value in s.disk && s.frames[f].key.value in t.disk
    && t.disk == s.disk[s.frames[f].key.value := t.disk[s.frames[f].key.value]]
    && |t.frames| == |s.frames|
    && t.frames == s.frames[f := s.frames[f].(dirty := t.frames[f].dirty)]
    && (t.frames[f].dirty || t.disk[s.frames[f].key.value] == s.frames[f].page || !AllMarked(s, f))
    && t.guards == s.guards && t.logical == s.logical && t.order == s.order
    && t.table == s.table && t.loading == s.loading && t.completions == s.completions
    && t.waiters == s.waiters && t.nextId == s.nextId
  }

  lemma DiskWriteIsSoft(s: Pool, t: Pool, f: nat)
    requires DiskWrite(s, t, f)
    requires t.loads.Keys == s.loads.Keys && (forall c :: c in s.loads ==> SameLoad(s.loads[c], t.loads[c]))
    ensures Soft(s, t)
  {
    assert t.disk.Keys == s.disk.Keys;
  }

  lemma DiskWriteStructure(s: Pool, t: Pool, f: nat)
    requires Structure(s) && DiskWrite(s, t, f)
    requires t.loads.Keys == s.loads.Keys && (forall c :: c in s.loads ==> SameLoad(s.loads[c], t.loads[c]))
    ensures Structure(t)
  {
    DiskWriteIsSoft(s, t, f);
    SoftGuards(s, t);
    SoftOrder(s, t);
    SoftStructure(s, t);
  }

  lemma DiskWriteCoherent(s: Pool, t: Pool, f: nat)
    requires Coherent(s) && FramesOk(s) && DiskWrite(s, t, f)
    ensures Coherent(t)
  {
    assert FrameOk(s, f);
    assert t.disk.Keys == s.disk.Keys;
    forall k | k in t.disk && k in t.logical ensures Current(t, k) { assert Current(s, k); }
    forall h: nat | h < |t.frames| ensures CleanMatchesDisk(t, h) {
      assert CleanMatchesDisk(s, h) && FrameOk(s, h);
      if AllMarked(t, h) { MarksElsewhere(s, t, h); }
    }
  }

  /** A guard in the middle of an update pins its frame. */
  lemma UnmarkedIsPinned(s: Pool, f: nat)
    requires GuardsOk(s) && f < |s.frames| && s.frames[f].state.Ready?
    ensures !AllMarked(s, f) ==> s.frames[f].pins > 0
  {
    if !AllMarked(s, f) {
      var g :| g in s.guards && s.guards[g].frame == f && s.guards[g].unmarked;
      assert g in Holders(s.guards, f);
    }
  }

  lemma FlushLoads(s: Pool, t: Pool, f: nat)
    requires LoadsCarryCurrent(s) && FramesOk(s) && LoadsOk(s) && GuardsOk(s)
    requires DiskWrite(s, t, f) && !FlushHazard(s, f) && t.loads == s.loads
    ensures LoadsCarryCurrent(t)
  {
    assert FrameOk(s, f);
    UnmarkedIsPinned(s, f);
    forall c | c in t.loads ensures t.loads[c].frame < |t.frames| && CarriesCurrent(t, c) {
      assert CarriesCurrent(s, c) && LoadOk(s, c) && FrameOk(s, s.loads[c].frame);
      assert s.loads[c].frame == f && AllMarked(s, f) ==> !WritesBack(s, c, f);
      if AllMarked(t, s.loads[c].frame) { MarksElsewhere(s, t, s.loads[c].frame); }
    }
  }

  ghost function Flush(s: Pool, f: nat, succeeds: bool, garbage: RawPage): Pool
    requires Flushable(s, f)
  {
    if succeeds then FlushOk(s, f) else FlushFail(s, f, garbage)
  }

  lemma FlushIsDiskWrite(s: Pool, f: nat, succeeds: bool, garbage: RawPage)
    requires Flushable(s, f) && s.frames[f].key.value in s.disk
    ensures DiskWrite(s, Flush(s, f, succeeds, garbage), f)
    ensures Flush(s, f, succeeds, garbage).loads == s.loads
    ensures StatsOk(s) ==> StatsOk(Flush(s, f, succeeds, garbage))
  {
  }

  lemma FlushKeepsInv(s: Pool, f: nat, succeeds: bool, garbage: RawPage)
    requires Inv(s) && Flushable(s, f) && !FlushHazard(s, f)
    ensures Inv(Flush(s, f, succeeds, garbage))
  {
    assert s.frames[f].key.value in s.disk by { assert FrameOk(s, f); }
    FlushIsDiskWrite(s, f, succeeds, garbage);
    DiskWriteStructure(s, Flush(s, f, succeeds, garbage), f);
    DiskWriteCoherent(s, Flush(s, f, succeeds, garbage), f);
    FlushLoads(s, Flush(s, f, succeeds, garbage), f);
  }

  // ---------------------------------------------------------------- I/O without the lock

  /** A page being loaded is READY nowhere. */
  lemma LoadedKeyNotResident(s: Pool, c: nat)
    requires FramesOk(s) && LoadsOk(s) && LoadingOk(s) && c in s.loads
    ensures !Resident(s, s.loads[c].key)
  {
    assert LoadOk(s, c) && FrameOk(s, s.loads[c].frame);
  }

  /** Only what one load carries changes. */
  ghost predicate OnlyIo(s: Pool, t: Pool, c: nat) {
    && c in s.loads && c in t.loads
    && t.loads == s.loads[c := s.loads[c].(io := t.loads[c].io)]
    && SameLoad(s.loads[c], t.loads[c])
    && t.frames == s.frames && t.table == s.table && t.loading == s.loading && t.order == s.order
    && t.completions == s.completions && t.nextId == s.nextId && t.waiters == s.waiters
    && t.guards == s.guards && t.logical == s.logical && t.disk == s.disk && t.stats == s.stats
  }

  lemma OnlyIoStructure(s: Pool, t: Pool, c: nat)
    requires Structure(s) && OnlyIo(s, t, c)
    ensures Structure(t)
  {
    assert Soft(s, t);
    SoftGuards(s, t);
    SoftOrder(s, t);
    SoftStructure(s, t);
  }

  lemma OnlyIoCoherent(s: Pool, t: Pool, c: nat)
    requires Coherent(s) && OnlyIo(s, t, c)
    ensures Coherent(t)
  {
    forall k | k in t.disk && k in t.logical ensures Current(t, k) { assert Current(s, k); }
    forall f: nat | f < |t.frames| ensures CleanMatchesDisk(t, f) {
      assert CleanMatchesDisk(s, f);
      if AllMarked(t, f) { MarksElsewhere(s, t, f); }
    }
  }

  lemma ReadIoLoads(s: Pool, c: nat, succeeds: bool)
    requires LoadsCarryCurrent(s) && Coherent(s) && c in s.loads && s.loads[c].io.Reading?
    requires !Resident(s, s.loads[c].key)
    ensures LoadsCarryCurrent(ReadIo(s, c, succeeds))
  {
    var t := ReadIo(s, c, succeeds);
    forall d | d in t.loads ensures t.loads[d].frame < |t.frames| && CarriesCurrent(t, d) {
      assert CarriesCurrent(s, d);
      if d == c && succeeds && s.loads[c].key in s.disk {
        assert s.loads[c].key in s.logical.Keys;
        assert Current(s, s.loads[c].key);
      }
    }
  }

  lemma ReadIoKeepsInv(s: Pool, c: nat, succeeds: bool)
    requires Inv(s) && c in s.loads && s.loads[c].io.Reading?
    ensures Inv(ReadIo(s, c, succeeds))
  {
    LoadedKeyNotResident(s, c);
    OnlyIoStructure(s, ReadIo(s, c, succeeds), c);
    OnlyIoCoherent(s, ReadIo(s, c, succeeds), c);
    ReadIoLoads(s, c, succeeds);
  }

  lemma WriteIoLoads(s: Pool, c: nat, succeeds: bool, garbage: RawPage)
    requires LoadsCarryCurrent(s) && FramesOk(s) && LoadsOk(s) && c in s.loads && s.loads[c].io.Writing?
    ensures LoadsCarryCurrent(WriteIo(s, c, succeeds, garbage))
  {
    var t := WriteIo(s, c, succeeds, garbage);
    assert LoadOk(s, c) && FrameOk(s, s.loads[c].frame);
    forall d | d in t.loads ensures t.loads[d].frame < |t.frames| && CarriesCurrent(t, d) {
      assert CarriesCurrent(s, d) && LoadOk(s, d) && FrameOk(s, s.loads[d].frame);
    }
  }

  lemma WriteIoIsDiskWrite(s: Pool, c: nat, succeeds: bool, garbage: RawPage)
    requires c in s.loads && LoadOk(s, c) && s.loads[c].io.Writing? && CarriesCurrent(s, c)
    requires s.loads[c].oldKey in s.disk
    ensures DiskWrite(s, WriteIo(s, c, succeeds, garbage), s.loads[c].frame)
  {
  }

  lemma WriteIoKeepsInv(s: Pool, c: nat, succeeds: bool, garbage: RawPage)
    requires Inv(s) && c in s.loads && s.loads[c].io.Writing?
    ensures Inv(WriteIo(s, c, succeeds, garbage))
  {
    WriteIoOnFrame(s, c, succeeds, garbage);
    DiskWriteStructure(s, WriteIo(s, c, succeeds, garbage), s.loads[c].frame);
    DiskWriteCoherent(s, WriteIo(s, c, succeeds, garbage), s.loads[c].frame);
    WriteIoLoads(s, c, succeeds, garbage);
  }

  lemma WriteIoOnFrame(s: Pool, c: nat, succeeds: bool, garbage: RawPage)
    requires FramesOk(s) && TableOk(s) && LoadsOk(s) && LoadsCarryCurrent(s) && c in s.loads && s.loads[c].io.Writing?
    ensures DiskWrite(s, WriteIo(s, c, succeeds, garbage), s.loads[c].frame)
  {
    assert LoadOk(s, c) && CarriesCurrent(s, c) && FrameOk(s, s.loads[c].frame);
    WriteIoIsDiskWrite(s, c, succeeds, garbage);
  }
}
