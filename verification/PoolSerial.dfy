/**
 The pool under its callers' contract. Storage calls are made one at a time (README.md:3), so a flush never
 overlaps a demand fetch; the prefetch worker runs at any time, but reserves clean victims only
 (src/storage/buffer_pool.cpp:577-581). Hence no flush meets a write-back in flight.
 */
module PoolSerial {
  import opened Common
  import opened PoolState
  import opened PoolInvariant
  import opened PoolSteps
  import opened PoolFinish
  import opened PoolTheorems

  /** Only demand fetches replace dirty victims. */
  ghost predicate DirtyByDemand(loads: map<nat, Load>) {
    forall c <- loads :: loads[c].kind.DirtyVictim? ==> loads[c].origin.Demand?
  }

  // ---------------------------------------------------------------- every step keeps it

  lemma ReserveByDemand(s: Pool, key: PageKey, origin: Origin, f: nat)
    requires DirtyByDemand(s.loads) && f < |s.frames|
    ensures DirtyByDemand(ReserveFree(s, key, origin, f).loads)
    ensures s.frames[f].key.Some? && (origin.Prefetch? ==> !s.frames[f].dirty) ==>
      DirtyByDemand(ReserveVictim(s, key, origin, f).loads)
  {
  }

  lemma MissByDemand(s: Pool, key: PageKey, origin: Origin)
    requires DirtyByDemand(s.loads) && Shape(s)
    ensures DirtyByDemand(Miss(s, key, origin).loads)
  {
    if key !in s.table && key !in s.loading {
      var empty := FirstFree(s.frames);
      var victim := ChooseVictim(s.order, s.frames, origin);
      if empty.Some? {
        ReserveByDemand(s, key, origin, empty.value);
      } else if victim.Some? {
        ReserveByDemand(s, key, origin, victim.value);
      }
    }
  }

  lemma PinKeepsLoads(s: Pool, key: PageKey, f: nat)
    requires f < |s.frames|
    ensures Pin(s, key, f).loads == s.loads
  {
    var t := Touch(s, f);
    assert t.loads == s.loads && Grant(t, key, f).loads == t.loads;
  }

  lemma AttemptByDemand(s: Pool, key: PageKey, origin: Origin, classified: bool)
    requires DirtyByDemand(s.loads) && Shape(s)
    ensures DirtyByDemand(Attempt(s, key, origin, classified).loads)
  {
    var hit, miss := Count(s, true, !classified && origin.Demand?), Count(s, false, !classified && origin.Demand?);
    if key in s.table {
      PinKeepsLoads(hit, key, s.table[key]);
    }
    MissByDemand(miss, key, origin);
  }

  lemma WakeByDemand(s: Pool, w: nat)
    requires DirtyByDemand(s.loads) && Shape(s) && w in s.waiters && s.waiters[w].completion in s.completions
    ensures DirtyByDemand(Wake(s, w).loads)
  {
    var t, key := s.(waiters := s.waiters - {w}), s.waiters[w].key;
    AttemptByDemand(t, key, Demand, true);
    if key in s.table {
      PinKeepsLoads(t, key, s.table[key]);
    }
  }

  /** A load is over. */
  lemma CompleteByDemand(s: Pool, c: nat, failed: bool)
    requires DirtyByDemand(s.loads) && LoadShape(s, c)
    ensures Complete(s, c, failed).loads == s.loads - {c} && Abandon(s, c).loads == s.loads - {c}
    ensures DirtyByDemand(s.loads - {c})
  {
  }

  lemma ReplaceKeepsLoads(s: Pool, c: nat, page: RawPage)
    requires LoadShape(s, c)
    ensures Replace(s, c, page).loads == s.loads - {c}
  {
    var t := Complete(Swap(s, c, page), c, false);
    assert t.loads == s.loads - {c} && |t.frames| == |s.frames|;
  }

  lemma PublishedLoads(s: Pool, c: nat, page: RawPage)
    requires LoadShape(s, c)
    ensures PublishedFree(s, c, page).loads == s.loads - {c} && |PublishedFree(s, c, page).frames| == |s.frames|
    ensures DropFree(s, c).loads == s.loads - {c} && Complete(s, c, true).loads == s.loads - {c}
  {
  }

  lemma FinishFreeLoads(s: Pool, c: nat)
    requires LoadShape(s, c) && s.loads[c].io.ReadDone?
    ensures FinishFree(s, c).loads == s.loads - {c}
  {
    if !FreeMatches(s, c) || s.loads[c].io.result.None? {
      PublishedLoads(s, c, []);
    } else {
      PublishedLoads(s, c, s.loads[c].io.result.value);
    }
  }

  lemma FinishCleanLoads(s: Pool, c: nat)
    requires DirtyByDemand(s.loads) && LoadShape(s, c) && s.loads[c].io.ReadDone?
    ensures FinishClean(s, c).loads == s.loads - {c}
  {
    CompleteByDemand(s, c, true);
    CompleteByDemand(WithStats(s, s.stats.CleanCancelled()), c, true);
    if s.loads[c].io.result.Some? {
      ReplaceKeepsLoads(WithStats(s, s.stats.CleanCommitted()), c, s.loads[c].io.result.value);
    }
  }

  lemma CommitDirtyLoads(s: Pool, c: nat)
    requires DirtyByDemand(s.loads) && LoadShape(s, c) && s.loads[c].io.WriteDone?
    ensures CommitDirty(s, c).loads == s.loads - {c}
  {
    CompleteByDemand(WithStats(s, s.stats.DirtyCancelled()), c, true);
    ReplaceKeepsLoads(WithStats(s, s.stats.DirtyCommitted()), c, s.loads[c].io.loaded);
  }

  lemma FinishDirtyLoads(s: Pool, c: nat)
    requires DirtyByDemand(s.loads) && LoadShape(s, c) && s.loads[c].io.WriteDone?
    ensures FinishDirty(s, c).loads == s.loads - {c}
  {
    CompleteByDemand(s, c, true);
    CommitDirtyLoads(WithStats(s, s.stats.DirtyLanded()), c);
  }

  lemma SnapshotByDemand(s: Pool, c: nat)
    requires DirtyByDemand(s.loads) && LoadShape(s, c) && s.loads[c].io.ReadDone?
    ensures DirtyByDemand(SnapshotDirty(s, c).loads)
  {
    CompleteByDemand(s, c, true);
    CompleteByDemand(WithStats(s, s.stats.DirtyCancelled()), c, true);
  }

  lemma IoByDemand(s: Pool, c: nat, succeeds: bool, garbage: RawPage)
    requires DirtyByDemand(s.loads) && c in s.loads
    ensures s.loads[c].io.Reading? ==> DirtyByDemand(ReadIo(s, c, succeeds).loads)
    ensures s.loads[c].io.Writing? ==> DirtyByDemand(WriteIo(s, c, succeeds, garbage).loads)
  {
  }

  lemma GuardStepsKeepLoads(s: Pool, g: nat, page: RawPage)
    requires GuardShape(s, g)
    ensures GuardWrite(s, g, page).loads == s.loads && MarkDirty(s, g).loads == s.loads
    ensures s.frames[s.guards[g].frame].pins > 0 ==> Unpin(s, g).loads == s.loads
  {
  }

  lemma FlushKeepsLoads(s: Pool, f: nat, garbage: RawPage)
    requires Flushable(s, f)
    ensures FlushOk(s, f).loads == s.loads && FlushFail(s, f, garbage).loads == s.loads
  {
  }

  lemma EndStepsKeepLoads(s: Pool, table: nat)
    ensures Shape(s) ==> Release(s, table).loads == s.loads
    ensures Close(s).loads == s.loads
  {
  }

  lemma StepByDemand(s: Pool, l: Label)
    requires Enabled(s, l) && DirtyByDemand(s.loads)
    ensures DirtyByDemand(Apply(s, l).loads)
  {
    match l
    case Fetch(key, origin) => AttemptByDemand(Fetched(s, origin), key, origin, false);
    case DoRead(c, ok) => IoByDemand(s, c, ok, []);
    case DoFinishFree(c) =>
      FinishFreeLoads(s, c);
      CompleteByDemand(s, c, true);
    case DoFinishClean(c) =>
      FinishCleanLoads(s, c);
      CompleteByDemand(s, c, true);
    case DoSnapshot(c) => SnapshotByDemand(s, c);
    case DoWrite(c, ok, garbage) => IoByDemand(s, c, ok, garbage);
    case DoFinishDirty(c) =>
      FinishDirtyLoads(s, c);
      CompleteByDemand(s, c, true);
    case DoWake(w) => WakeByDemand(s, w);
    case DoGuardWrite(g, page) => GuardStepsKeepLoads(s, g, page);
    case DoMarkDirty(g) => GuardStepsKeepLoads(s, g, []);
    case DoUnpin(g) => GuardStepsKeepLoads(s, g, []);
    case DoFlush(f, _, garbage) => FlushKeepsLoads(s, f, garbage);
    case DoRelease(table) => EndStepsKeepLoads(s, table);
    case DoClose => EndStepsKeepLoads(s, 0);
  }

  /** In every run only demand fetches replace dirty victims. */
  lemma {:induction false} RunByDemand(s: Pool, labels: seq<Label>)
    requires CanRun(s, labels) && DirtyByDemand(s.loads)
    ensures DirtyByDemand(Run(s, labels).loads)
    decreases |labels|
  {
    if labels != [] {
      RunByDemand(s, labels[..|labels| - 1]);
      StepByDemand(Run(s, labels[..|labels| - 1]), labels[|labels| - 1]);
    }
  }

  // ---------------------------------------------------------------- serialised callers

  /** No fetch_page call is between its lock regions. */
  ghost predicate NoFetchInFlight(s: Pool) {
    forall c <- s.loads :: s.loads[c].origin.Prefetch?
  }

  lemma SerialFlushIsSafe(s: Pool, f: nat)
    requires LoadsOk(s) && DirtyByDemand(s.loads) && NoFetchInFlight(s)
    ensures !FlushHazard(s, f)
  {
    forall c | c in s.loads ensures !s.loads[c].io.Writing? && !s.loads[c].io.WriteDone? {
      assert LoadOk(s, c);
    }
  }

  /** What the callers' contract allows: any step at any time, but a flush only while no fetch is in flight.
      Write-backs are not mentioned. */
  ghost predicate Allowed(s: Pool, l: Label) {
    if l.DoFlush? then Flushable(s, l.frame) && NoFetchInFlight(s) else Enabled(s, l)
  }

  ghost function Take(s: Pool, l: Label): Pool
    requires Allowed(s, l)
  {
    if l.DoFlush? then Flush(s, l.frame, l.succeeds, l.garbage) else Apply(s, l)
  }

  ghost predicate CanRunSerially(s: Pool, labels: seq<Label>)
    decreases |labels|, 0
  {
    labels == [] ||
    (CanRunSerially(s, labels[..|labels| - 1]) && Allowed(RunSerially(s, labels[..|labels| - 1]), labels[|labels| - 1]))
  }

  ghost function RunSerially(s: Pool, labels: seq<Label>): Pool
    requires CanRunSerially(s, labels)
    decreases |labels|, 1
  {
    if labels == [] then s else Take(RunSerially(s, labels[..|labels| - 1]), labels[|labels| - 1])
  }

  lemma AllowedIsEnabled(s: Pool, l: Label)
    requires LoadsOk(s) && DirtyByDemand(s.loads) && Allowed(s, l)
    ensures Enabled(s, l) && Take(s, l) == Apply(s, l)
  {
    if l.DoFlush? {
      SerialFlushIsSafe(s, l.frame);
    }
  }

  /** Every run the contract allows is a run of the step system: no flush in it meets a write-back. */
  lemma {:induction false} SerialRunsAreRuns(s: Pool, labels: seq<Label>)
    requires Inv(s) && DirtyByDemand(s.loads) && CanRunSerially(s, labels)
    ensures CanRun(s, labels) && RunSerially(s, labels) == Run(s, labels)
    decreases |labels|
  {
    if labels != [] {
      var before := labels[..|labels| - 1];
      SerialRunsAreRuns(s, before);
      RunKeepsInv(s, before);
      RunByDemand(s, before);
      AllowedIsEnabled(Run(s, before), labels[|labels| - 1]);
    }
  }

  /** Under the contract the pool is coherent, with no condition on write-backs: what a reader sees of a page is
      the last value written to it through a guard. */
  lemma SerialReadersSeeLastWrite(policy: Policy, capacity: nat, disk: map<PageKey, RawPage>, labels: seq<Label>,
                                  k: PageKey)
    requires CanRunSerially(Initial(policy, capacity, disk), labels) && k in disk
    ensures var s := RunSerially(Initial(policy, capacity, disk), labels);
            && CanRun(Initial(policy, capacity, disk), labels) && Inv(s) && k in s.disk
            && LastWrite(Initial(policy, capacity, disk), labels, k) ==
               if Resident(s, k) then s.frames[s.table[k]].page else s.disk[k]
  {
    var start := Initial(policy, capacity, disk);
    InitialInv(policy, capacity, disk);
    SerialRunsAreRuns(start, labels);
    RunKeepsInv(start, labels);
    ReadersSeeLastWrite(policy, capacity, disk, labels, k);
  }
}
