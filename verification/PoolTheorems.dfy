/** The buffer pool's promises over every run. */
module PoolTheorems {
  import opened Common
  import opened PoolState
  import opened PoolInvariant
  import opened PoolSteps
  import opened PoolLoads
  import opened PoolFinish

  lemma InitialInv(policy: Policy, capacity: nat, disk: map<PageKey, RawPage>)
    ensures Inv(Initial(policy, capacity, disk))
  {
  }

  /** The steps of a load after its reservation. */
  predicate OfLoad(l: Label) {
    l.DoRead? || l.DoFinishFree? || l.DoFinishClean? || l.DoSnapshot? || l.DoWrite? || l.DoFinishDirty?
  }

  lemma LoadStepKeepsInv(s: Pool, l: Label)
    requires Inv(s) && Enabled(s, l) && OfLoad(l)
    ensures Inv(Apply(s, l))
  {
    match l
    case DoRead(c, ok) => ReadIoKeepsInv(s, c, ok);
    case DoFinishFree(c) => FinishFreeKeepsInv(s, c);
    case DoFinishClean(c) => FinishCleanKeepsInv(s, c);
    case DoSnapshot(c) => SnapshotDirtyKeepsInv(s, c);
    case DoWrite(c, ok, garbage) => WriteIoKeepsInv(s, c, ok, garbage);
    case DoFinishDirty(c) => FinishDirtyKeepsInv(s, c);
  }

  predicate OfGuard(l: Label) {
    l.DoGuardWrite? || l.DoMarkDirty? || l.DoUnpin?
  }

  lemma GuardStepKeepsInv(s: Pool, l: Label)
    requires Inv(s) && Enabled(s, l) && OfGuard(l)
    ensures Inv(Apply(s, l))
  {
    match l
    case DoGuardWrite(g, page) => GuardWriteKeepsInv(s, g, page);
    case DoMarkDirty(g) => MarkDirtyKeepsInv(s, g);
    case DoUnpin(g) => UnpinKeepsInv(s, g);
  }

  lemma CallKeepsInv(s: Pool, l: Label)
    requires Inv(s) && Enabled(s, l) && !OfLoad(l) && !OfGuard(l)
    ensures Inv(Apply(s, l))
  {
    match l
    case Fetch(key, origin) => BeginKeepsInv(s, key, origin);
    case DoWake(w) => WakeKeepsInv(s, w);
    case DoFlush(f, ok, garbage) => FlushKeepsInv(s, f, ok, garbage);
    case DoRelease(table) => ReleaseKeepsInv(s, table);
    case DoClose => CloseKeepsInv(s);
  }

  lemma StepKeepsInv(s: Pool, l: Label)
    requires Inv(s) && Enabled(s, l)
    ensures Inv(Apply(s, l))
  {
    if OfLoad(l) {
      LoadStepKeepsInv(s, l);
    } else if OfGuard(l) {
      GuardStepKeepsInv(s, l);
    } else {
      CallKeepsInv(s, l);
    }
  }

  /** Structure and coherence hold after every run that starts from a good state. */
  lemma {:induction false} RunKeepsInv(s: Pool, labels: seq<Label>)
    requires Inv(s) && CanRun(s, labels)
    ensures Inv(Run(s, labels))
    decreases |labels|
  {
    if labels != [] {
      RunKeepsInv(s, labels[..|labels| - 1]);
      StepKeepsInv(Run(s, labels[..|labels| - 1]), labels[|labels| - 1]);
    }
  }

  // ---------------------------------------------------------------- readers see the last write

  /** The value last written to page k through a guard during a run, or the initial disk's. */
  ghost function LastWrite(s: Pool, labels: seq<Label>, k: PageKey): RawPage
    requires CanRun(s, labels) && k in s.disk
    decreases |labels|
  {
    if labels == [] then s.disk[k]
    else
      var last, before := labels[|labels| - 1], labels[..|labels| - 1];
      if last.DoGuardWrite? && Run(s, before).guards[last.guard].key == k then last.page else LastWrite(s, before, k)
  }

  /** The step writes no page, reuses no identity and leaves the frame and key of every live guard alone. */
  ghost predicate Follows(s: Pool, t: Pool) {
    && t.logical == s.logical && s.nextId <= t.nextId
    && (forall g :: g in t.guards && g < s.nextId ==>
          g in s.guards && t.guards[g].frame == s.guards[g].frame && t.guards[g].key == s.guards[g].key)
  }

  lemma FollowsTrans(s: Pool, t: Pool, u: Pool)
    requires Follows(s, t) && Follows(t, u)
    ensures Follows(s, u)
  {
  }

  lemma GrantFollows(s: Pool, key: PageKey, f: nat)
    requires f < |s.frames|
    ensures Follows(s, Grant(s, key, f))
  {
  }

  lemma TouchFollows(s: Pool, f: nat)
    requires f < |s.frames|
    ensures Follows(s, Touch(s, f))
  {
  }

  lemma PromoteFollows(s: Pool, f: nat)
    ensures Follows(s, Promote(s, f))
  {
  }

  lemma PinFollows(s: Pool, key: PageKey, f: nat)
    requires f < |s.frames|
    ensures Follows(s, Pin(s, key, f))
  {
    TouchFollows(s, f);
    GrantFollows(Touch(s, f), key, f);
    PromoteFollows(Grant(Touch(s, f), key, f), f);
    FollowsTrans(s, Touch(s, f), Grant(Touch(s, f), key, f));
    FollowsTrans(s, Grant(Touch(s, f), key, f), Promote(Grant(Touch(s, f), key, f), f));
  }

  lemma WaitFollows(s: Pool, key: PageKey, c: nat)
    ensures Follows(s, Wait(s, key, c))
  {
  }

  lemma ReserveFreeFollows(s: Pool, key: PageKey, origin: Origin, f: nat)
    requires f < |s.frames|
    ensures Follows(s, ReserveFree(s, key, origin, f))
  {
  }

  lemma ReserveVictimFollows(s: Pool, key: PageKey, origin: Origin, f: nat)
    requires f < |s.frames| && s.frames[f].key.Some?
    ensures Follows(s, ReserveVictim(s, key, origin, f))
  {
  }

  lemma MissFollows(s: Pool, key: PageKey, origin: Origin)
    requires Shape(s)
    ensures Follows(s, Miss(s, key, origin))
  {
    if key in s.table {
      if s.frames[s.table[key]].completion.Some? {
        WaitFollows(s, key, s.frames[s.table[key]].completion.value);
      }
    } else if key in s.loading {
      WaitFollows(s, key, s.loading[key].completion);
    } else if FirstFree(s.frames).Some? {
      ReserveFreeFollows(s, key, origin, FirstFree(s.frames).value);
    } else if ChooseVictim(s.order, s.frames, origin).Some? {
      ReserveVictimFollows(s, key, origin, ChooseVictim(s.order, s.frames, origin).value);
    }
  }

  lemma CountFollows(s: Pool, hit: bool, counted: bool)
    ensures Follows(s, Count(s, hit, counted))
  {
  }

  lemma AttemptFollows(s: Pool, key: PageKey, origin: Origin, classified: bool)
    requires Shape(s)
    ensures Follows(s, Attempt(s, key, origin, classified))
  {
    if !s.open || (origin.Prefetch? && (key in s.table || key in s.loading)) {
    } else if key in s.table && s.frames[s.table[key]].state.Ready? {
      CountedPinFollows(s, key, !classified && origin.Demand?);
    } else {
      CountFollows(s, false, !classified && origin.Demand?);
      MissFollows(Count(s, false, !classified && origin.Demand?), key, origin);
      FollowsTrans(s, Count(s, false, !classified && origin.Demand?),
                   Miss(Count(s, false, !classified && origin.Demand?), key, origin));
    }
  }

  lemma CountedPinFollows(s: Pool, key: PageKey, counted: bool)
    requires key in s.table && s.table[key] < |s.frames|
    ensures Follows(s, Pin(Count(s, true, counted), key, s.table[key]))
  {
    CountFollows(s, true, counted);
    PinFollows(Count(s, true, counted), key, s.table[key]);
    FollowsTrans(s, Count(s, true, counted), Pin(Count(s, true, counted), key, s.table[key]));
  }

  lemma FetchedFollows(s: Pool, origin: Origin)
    ensures Follows(s, Fetched(s, origin))
  {
  }

  lemma BeginFollows(s: Pool, key: PageKey, origin: Origin)
    requires Shape(s)
    ensures Follows(s, Begin(s, key, origin))
  {
    if s.open && key.page != 0 {
      FetchedFollows(s, origin);
      AttemptFollows(Fetched(s, origin), key, origin, false);
      FollowsTrans(s, Fetched(s, origin), Attempt(Fetched(s, origin), key, origin, false));
    }
  }

  lemma WakeFollows(s: Pool, w: nat)
    requires Shape(s) && w in s.waiters && s.waiters[w].completion in s.completions
    ensures Follows(s, Wake(s, w))
  {
    var t := s.(waiters := s.waiters - {w});
    var key := s.waiters[w].key;
    AttemptFollows(t, key, Demand, true);
    if key in s.table { PinFollows(t, key, s.table[key]); }
  }

  lemma AbandonFollows(s: Pool, c: nat, stats: Stats)
    requires LoadShape(s, c)
    ensures Follows(s, Abandon(s, c)) && Follows(s, Abandon(WithStats(s, stats), c))
  {
  }

  lemma ReplaceFollows(s: Pool, c: nat, stats: Stats, page: RawPage)
    requires LoadShape(s, c)
    ensures Follows(s, Replace(WithStats(s, stats), c, page))
  {
  }

  lemma PublishedFreeFollows(s: Pool, c: nat, page: RawPage)
    requires LoadShape(s, c)
    ensures Follows(s, PublishedFree(s, c, page)) && Follows(s, DropFree(s, c)) && Follows(s, Complete(s, c, true))
  {
  }

  lemma FinishFreeFollows(s: Pool, c: nat)
    requires LoadShape(s, c) && s.loads[c].io.ReadDone?
    ensures Follows(s, FinishFree(s, c))
  {
    if !FreeMatches(s, c) || s.loads[c].io.result.None? {
      PublishedFreeFollows(s, c, []);
    } else {
      PublishedFreeFollows(s, c, s.loads[c].io.result.value);
      GrantFollows(PublishedFree(s, c, s.loads[c].io.result.value), s.loads[c].key, s.loads[c].frame);
      FollowsTrans(s, PublishedFree(s, c, s.loads[c].io.result.value),
                   Grant(PublishedFree(s, c, s.loads[c].io.result.value), s.loads[c].key, s.loads[c].frame));
    }
  }

  lemma FinishCleanFollows(s: Pool, c: nat)
    requires LoadShape(s, c) && s.loads[c].io.ReadDone?
    ensures Follows(s, FinishClean(s, c))
  {
    AbandonFollows(s, c, s.stats.CleanCancelled());
    if s.loads[c].io.result.Some? {
      ReplaceFollows(s, c, s.stats.CleanCommitted(), s.loads[c].io.result.value);
    }
  }

  lemma FinishDirtyFollows(s: Pool, c: nat)
    requires LoadShape(s, c) && s.loads[c].io.WriteDone?
    ensures Follows(s, FinishDirty(s, c))
  {
    var t := WithStats(s, s.stats.DirtyLanded());
    AbandonFollows(s, c, s.stats);
    AbandonFollows(t, c, t.stats.DirtyCancelled());
    ReplaceFollows(t, c, t.stats.DirtyCommitted(), s.loads[c].io.loaded);
  }

  lemma SnapshotFollows(s: Pool, c: nat)
    requires LoadShape(s, c) && s.loads[c].io.ReadDone?
    ensures Follows(s, SnapshotDirty(s, c))
  {
    AbandonFollows(s, c, s.stats.DirtyCancelled());
  }

  /** Apart from guard writes every step Follows. */
  lemma StepFollows(s: Pool, l: Label)
    requires Enabled(s, l) && !l.DoGuardWrite?
    ensures Follows(s, Apply(s, l))
  {
    match l {
      case Fetch(key, origin) => BeginFollows(s, key, origin);
      case DoFinishFree(c) => FinishFreeFollows(s, c);
      case DoFinishClean(c) => FinishCleanFollows(s, c);
      case DoSnapshot(c) => SnapshotFollows(s, c);
      case DoFinishDirty(c) => FinishDirtyFollows(s, c);
      case DoWake(w) => WakeFollows(s, w);
      case DoRead(c, ok) => PlainStepsFollow(s, l);
      case DoWrite(c, ok, garbage) => PlainStepsFollow(s, l);
      case DoMarkDirty(g) => PlainStepsFollow(s, l);
      case DoUnpin(g) => PlainStepsFollow(s, l);
      case DoFlush(f, ok, garbage) => FlushFollows(s, f, ok, garbage);
      case DoRelease(table) => PlainStepsFollow(s, l);
      case DoClose => PlainStepsFollow(s, l);
    }
  }

  lemma PlainStepsFollow(s: Pool, l: Label)
    requires Enabled(s, l) && (l.DoRead? || l.DoWrite? || l.DoMarkDirty? || l.DoUnpin? || l.DoRelease? || l.DoClose?)
    ensures Follows(s, Apply(s, l))
  {
  }

  lemma FlushFollows(s: Pool, f: nat, succeeds: bool, garbage: RawPage)
    requires Flushable(s, f)
    ensures Follows(s, FlushOk(s, f)) && Follows(s, FlushFail(s, f, garbage))
  {
  }

  /** A guard write changes only the page it names, and no guard's identity. */
  lemma GuardWriteFollows(s: Pool, g: nat, page: RawPage)
    requires GuardShape(s, g)
    ensures GuardWrite(s, g, page).logical == s.logical[s.guards[g].key := page]
    ensures Follows(s, GuardWrite(s, g, page).(logical := s.logical))
  {
  }

  /** The effect of one step on the logical content of page k. */
  lemma StepWrites(s: Pool, l: Label, k: PageKey)
    requires Enabled(s, l) && k in s.logical
    ensures k in Apply(s, l).logical
    ensures Apply(s, l).logical[k] == if l.DoGuardWrite? && s.guards[l.guard].key == k then l.page else s.logical[k]
  {
    if l.DoGuardWrite? {
      GuardWriteFollows(s, l.guard, l.page);
    } else {
      StepFollows(s, l);
    }
  }

  lemma {:induction false} LogicalIsLastWrite(s: Pool, labels: seq<Label>, k: PageKey)
    requires CanRun(s, labels) && s.logical == s.disk && k in s.disk
    ensures k in Run(s, labels).logical && Run(s, labels).logical[k] == LastWrite(s, labels, k)
    decreases |labels|
  {
    if labels != [] {
      LogicalIsLastWrite(s, labels[..|labels| - 1], k);
      StepWrites(Run(s, labels[..|labels| - 1]), labels[|labels| - 1], k);
    }
  }

  /** Cache coherence: what a reader sees of a page is the last value written to it through a guard. */
  lemma ReadersSeeLastWrite(policy: Policy, capacity: nat, disk: map<PageKey, RawPage>, labels: seq<Label>, k: PageKey)
    requires CanRun(Initial(policy, capacity, disk), labels) && k in disk
    ensures var s := Run(Initial(policy, capacity, disk), labels);
            var last := LastWrite(Initial(policy, capacity, disk), labels, k);
            k in s.disk && last == if Resident(s, k) then s.frames[s.table[k]].page else s.disk[k]
  {
    InitialInv(policy, capacity, disk);
    RunKeepsInv(Initial(policy, capacity, disk), labels);
    LogicalIsLastWrite(Initial(policy, capacity, disk), labels, k);
    CoherentMeans(Run(Initial(policy, capacity, disk), labels), k);
  }

  lemma CoherentMeans(s: Pool, k: PageKey)
    requires Coherent(s) && k in s.logical
    ensures k in s.disk && s.logical[k] == if Resident(s, k) then s.frames[s.table[k]].page else s.disk[k]
  {
    assert k in s.logical.Keys;
    assert Current(s, k);
  }

  lemma CloseStep(s: Pool)
    requires Inv(s) && Closable(s)
    ensures Close(s).disk == s.logical && Close(s).logical == s.logical && !Close(s).open
  {
    CloseWritesBack(s);
  }

  lemma CloseEndsRun(s: Pool, labels: seq<Label>)
    requires Inv(s) && CanRun(s, labels + [DoClose])
    ensures Run(s, labels + [DoClose]).disk == Run(s, labels + [DoClose]).logical
  {
    assert (labels + [DoClose])[..|labels + [DoClose]| - 1] == labels;
    RunKeepsInv(s, labels);
    CloseStep(Run(s, labels));
  }

  /** A successful close leaves on disk, for every page, the last value written through a guard. */
  lemma CloseLeavesLastWrites(policy: Policy, capacity: nat, disk: map<PageKey, RawPage>, labels: seq<Label>,
                              k: PageKey)
    requires CanRun(Initial(policy, capacity, disk), labels + [DoClose]) && k in disk
    ensures var s := Run(Initial(policy, capacity, disk), labels + [DoClose]);
            k in s.disk && s.disk[k] == LastWrite(Initial(policy, capacity, disk), labels + [DoClose], k)
  {
    LogicalIsLastWrite(Initial(policy, capacity, disk), labels + [DoClose], k);
    InitialInv(policy, capacity, disk);
    CloseEndsRun(Initial(policy, capacity, disk), labels);
  }

  // ---------------------------------------------------------------- guards

  lemma StepKeepsGuards(s: Pool, l: Label)
    requires Enabled(s, l)
    ensures Follows(s, Apply(s, l).(logical := s.logical))
  {
    if l.DoGuardWrite? {
      GuardWriteFollows(s, l.guard, l.page);
    } else {
      StepFollows(s, l);
    }
  }

  lemma {:induction false} RunKeepsGuards(s: Pool, labels: seq<Label>)
    requires CanRun(s, labels)
    ensures Follows(s, Run(s, labels).(logical := s.logical))
    decreases |labels|
  {
    if labels != [] {
      RunKeepsGuards(s, labels[..|labels| - 1]);
      StepKeepsGuards(Run(s, labels[..|labels| - 1]), labels[|labels| - 1]);
    }
  }

  /** A guard that is live before and after a run holds, at both ends, the same frame with the same page in it. */
  lemma GuardKeepsFrameAndKey(s: Pool, labels: seq<Label>, g: nat)
    requires CanRun(s, labels) && Inv(s) && g < s.nextId && g in Run(s, labels).guards
    ensures g in s.guards
    ensures s.guards[g].frame == Run(s, labels).guards[g].frame && s.guards[g].frame < |Run(s, labels).frames|
    ensures Run(s, labels).frames[s.guards[g].frame].key == Some(s.guards[g].key)
    ensures Run(s, labels).frames[s.guards[g].frame].state.Ready?
  {
    RunKeepsGuards(s, labels);
    RunKeepsInv(s, labels);
    assert GuardsOk(Run(s, labels));
  }

  /** The page a step hands out a guard for, if it hands one out. */
  ghost function Asked(s: Pool, l: Label): Option<PageKey> {
    match l
    case Fetch(key, _) => Some(key)
    case DoFinishFree(c) => if c in s.loads then Some(s.loads[c].key) else None
    case DoFinishClean(c) => if c in s.loads then Some(s.loads[c].key) else None
    case DoFinishDirty(c) => if c in s.loads then Some(s.loads[c].key) else None
    case DoWake(w) => if w in s.waiters then Some(s.waiters[w].key) else None
    case _ => None
  }

  /** Every guard a step hands out is for the page that was asked for. */
  ghost predicate HandsOut(before: map<nat, Guard>, after: map<nat, Guard>, key: PageKey) {
    forall g :: g in after && g !in before ==> after[g].key == key
  }

  lemma GrantHandsOut(s: Pool, key: PageKey, f: nat)
    requires f < |s.frames|
    ensures HandsOut(s.guards, Grant(s, key, f).guards, key)
  {
  }

  lemma PinHandsOut(s: Pool, key: PageKey, f: nat)
    requires f < |s.frames|
    ensures HandsOut(s.guards, Pin(s, key, f).guards, key)
  {
    var t := Touch(s, f);
    assert t.guards == s.guards;
    GrantHandsOut(t, key, f);
    assert Promote(Grant(t, key, f), f).guards == Grant(t, key, f).guards;
  }

  lemma ReserveHandsOut(s: Pool, key: PageKey, origin: Origin, f: nat)
    requires f < |s.frames|
    ensures ReserveFree(s, key, origin, f).guards == s.guards
    ensures s.frames[f].key.Some? ==> ReserveVictim(s, key, origin, f).guards == s.guards
  {
  }

  lemma MissKeepsGuards(s: Pool, key: PageKey, origin: Origin)
    requires Shape(s)
    ensures Miss(s, key, origin).guards == s.guards
  {
    if key !in s.table && key !in s.loading {
      var empty := FirstFree(s.frames);
      var victim := ChooseVictim(s.order, s.frames, origin);
      if empty.Some? {
        ReserveHandsOut(s, key, origin, empty.value);
      } else if victim.Some? {
        ReserveHandsOut(s, key, origin, victim.value);
      }
    }
  }

  lemma AttemptHandsOut(s: Pool, key: PageKey, origin: Origin, classified: bool)
    requires Shape(s)
    ensures HandsOut(s.guards, Attempt(s, key, origin, classified).guards, key)
  {
    var hit, miss := Count(s, true, !classified && origin.Demand?), Count(s, false, !classified && origin.Demand?);
    if key in s.table {
      PinHandsOut(hit, key, s.table[key]);
    }
    MissKeepsGuards(miss, key, origin);
  }

  lemma WakeHandsOut(s: Pool, w: nat)
    requires Shape(s) && w in s.waiters && s.waiters[w].completion in s.completions
    ensures HandsOut(s.guards, Wake(s, w).guards, s.waiters[w].key)
  {
    var t, key := s.(waiters := s.waiters - {w}), s.waiters[w].key;
    AttemptHandsOut(t, key, Demand, true);
    if key in s.table {
      PinHandsOut(t, key, s.table[key]);
    }
  }

  lemma CompleteHandsOut(s: Pool, c: nat, failed: bool)
    requires LoadShape(s, c)
    ensures Complete(s, c, failed).guards == s.guards && Abandon(s, c).guards == s.guards
  {
  }

  lemma ReplaceHandsOut(s: Pool, c: nat, page: RawPage)
    requires LoadShape(s, c)
    ensures HandsOut(s.guards, Replace(s, c, page).guards, s.loads[c].key)
  {
    var t := Complete(Swap(s, c, page), c, false);
    assert t.guards == s.guards && |t.frames| == |s.frames|;
    GrantHandsOut(t, s.loads[c].key, s.loads[c].frame);
  }

  lemma PublishedHandsOut(s: Pool, c: nat, page: RawPage)
    requires LoadShape(s, c)
    ensures PublishedFree(s, c, page).guards == s.guards && |PublishedFree(s, c, page).frames| == |s.frames|
    ensures DropFree(s, c).guards == s.guards
  {
  }

  lemma FinishFreeHandsOut(s: Pool, c: nat)
    requires LoadShape(s, c) && s.loads[c].io.ReadDone?
    ensures HandsOut(s.guards, FinishFree(s, c).guards, s.loads[c].key)
  {
    var load := s.loads[c];
    if !FreeMatches(s, c) || load.io.result.None? {
      PublishedHandsOut(s, c, []);
    } else {
      PublishedHandsOut(s, c, load.io.result.value);
      GrantHandsOut(PublishedFree(s, c, load.io.result.value), load.key, load.frame);
    }
  }

  lemma FinishCleanHandsOut(s: Pool, c: nat)
    requires LoadShape(s, c) && s.loads[c].io.ReadDone?
    ensures HandsOut(s.guards, FinishClean(s, c).guards, s.loads[c].key)
  {
    var load := s.loads[c];
    CompleteHandsOut(s, c, true);
    CompleteHandsOut(WithStats(s, s.stats.CleanCancelled()), c, true);
    if load.io.result.Some? {
      ReplaceHandsOut(WithStats(s, s.stats.CleanCommitted()), c, load.io.result.value);
    }
  }

  lemma CommitHandsOut(s: Pool, c: nat)
    requires LoadShape(s, c) && s.loads[c].io.WriteDone?
    ensures HandsOut(s.guards, CommitDirty(s, c).guards, s.loads[c].key)
  {
    CompleteHandsOut(WithStats(s, s.stats.DirtyCancelled()), c, true);
    ReplaceHandsOut(WithStats(s, s.stats.DirtyCommitted()), c, s.loads[c].io.loaded);
  }

  lemma FinishDirtyHandsOut(s: Pool, c: nat)
    requires LoadShape(s, c) && s.loads[c].io.WriteDone?
    ensures HandsOut(s.guards, FinishDirty(s, c).guards, s.loads[c].key)
  {
    CompleteHandsOut(s, c, true);
    CommitHandsOut(WithStats(s, s.stats.DirtyLanded()), c);
  }

  lemma StepHandsOut(s: Pool, l: Label)
    requires Enabled(s, l) && Asked(s, l).Some?
    ensures HandsOut(s.guards, Apply(s, l).guards, Asked(s, l).value)
  {
    match l
    case Fetch(key, origin) => AttemptHandsOut(Fetched(s, origin), key, origin, false);
    case DoFinishFree(c) => FinishFreeHandsOut(s, c);
    case DoFinishClean(c) => FinishCleanHandsOut(s, c);
    case DoFinishDirty(c) => FinishDirtyHandsOut(s, c);
    case DoWake(w) => WakeHandsOut(s, w);
  }

  lemma GuardStepsHandOutNothing(s: Pool, g: nat, page: RawPage)
    requires GuardShape(s, g)
    ensures GuardWrite(s, g, page).guards.Keys <= s.guards.Keys && MarkDirty(s, g).guards.Keys <= s.guards.Keys
    ensures s.frames[s.guards[g].frame].pins > 0 ==> Unpin(s, g).guards.Keys <= s.guards.Keys
  {
  }

  lemma FlushHandsOutNothing(s: Pool, f: nat, garbage: RawPage)
    requires Flushable(s, f)
    ensures FlushOk(s, f).guards == s.guards && FlushFail(s, f, garbage).guards == s.guards
  {
  }

  lemma OtherStepsHandOutNothing(s: Pool, l: Label)
    requires Enabled(s, l) && Asked(s, l).None?
    ensures Apply(s, l).guards.Keys <= s.guards.Keys
  {
    match l
    case DoSnapshot(c) =>
      CompleteHandsOut(s, c, true);
      CompleteHandsOut(WithStats(s, s.stats.DirtyCancelled()), c, true);
    case DoGuardWrite(g, page) => GuardStepsHandOutNothing(s, g, page);
    case DoMarkDirty(g) => GuardStepsHandOutNothing(s, g, []);
    case DoUnpin(g) => GuardStepsHandOutNothing(s, g, []);
    case DoFlush(f, _, garbage) => FlushHandsOutNothing(s, f, garbage);
    case _ =>
  }

  lemma GuardHoldsItsPage(s: Pool, g: nat)
    requires GuardsOk(s) && g in s.guards
    ensures GuardShape(s, g) && s.frames[s.guards[g].frame].state.Ready?
    ensures s.frames[s.guards[g].frame].key == Some(s.guards[g].key)
  {
  }

  /** A fetch never returns another page's frame, not even after waiting for somebody else's load: every new
      guard is for the page that was asked for, and its frame holds that page. */
  lemma FetchReturnsItsPage(s: Pool, l: Label, g: nat)
    requires Inv(s) && Enabled(s, l) && g in Apply(s, l).guards && g !in s.guards
    ensures Asked(s, l) == Some(Apply(s, l).guards[g].key)
    ensures GuardShape(Apply(s, l), g)
    ensures Apply(s, l).frames[Apply(s, l).guards[g].frame].key == Asked(s, l)
    ensures Apply(s, l).frames[Apply(s, l).guards[g].frame].state.Ready?
  {
    if Asked(s, l).None? {
      OtherStepsHandOutNothing(s, l);
      assert false;
    }
    StepHandsOut(s, l);
    StepKeepsInv(s, l);
    GuardHoldsItsPage(Apply(s, l), g);
  }

  // ---------------------------------------------------------------- unreachable terminations

  ghost function Members(order: seq<nat>): set<nat> {
    set i | 0 <= i < |order| :: order[i]
  }

  lemma {:induction false} DistinctCount(order: seq<nat>)
    requires Distinct(order)
    ensures |Members(order)| == |order|
  {
    if order != [] {
      var n := |order| - 1;
      DistinctCount(order[..n]);
      assert Members(order) == Members(order[..n]) + {order[n]} by {
        assert forall i :: 0 <= i < n ==> order[..n][i] == order[i];
      }
      assert order[n] !in Members(order[..n]);
    }
  }

  ghost function Below(n: nat): (r: set<nat>)
    ensures |r| == n && forall i: nat :: i in r <==> i < n
  {
    if n == 0 then {} else Below(n - 1) + {n - 1}
  }

  lemma SubsetCount(a: set<nat>, b: set<nat>)
    requires a <= b
    ensures |a| <= |b|
  {
    assert b == a + (b - a);
  }

  /** record_load finds room in the capacity reserved at construction, whatever frame is recorded. */
  lemma ReplacerHasRoom(s: Pool, f: nat)
    requires Inv(s) && f < |s.frames|
    ensures |Without(s.order, f)| < |s.frames|
  {
    var rest := Without(s.order, f);
    WithoutFacts(s.order, f);
    DistinctCount(rest);
    assert Members(rest) <= Below(|s.frames|) - {f} by {
      forall x | x in Members(rest) ensures x in Below(|s.frames|) - {f} { assert x in rest; }
    }
    SubsetCount(Members(rest), Below(|s.frames|) - {f});
  }

  /** mark_dirty, unpin and pin_count find the guard's frame READY, pinned and holding the guard's page. */
  lemma GuardFrameIsPinned(s: Pool, g: nat)
    requires Inv(s) && g in s.guards
    ensures GuardShape(s, g)
    ensures s.frames[s.guards[g].frame].state.Ready? && s.frames[s.guards[g].frame].key == Some(s.guards[g].key)
    ensures s.frames[s.guards[g].frame].pins > 0
  {
    assert g in Holders(s.guards, s.guards[g].frame);
  }

  /** The insertions of a commit find the requested page in no frame, so they never fail. */
  lemma CommitInsertsFreshKey(s: Pool, c: nat)
    requires Inv(s) && c in s.loads
    ensures LoadShape(s, c)
    ensures s.loads[c].kind.FreeFrame? ==> FreeMatches(s, c)
    ensures !s.loads[c].kind.FreeFrame? ==> s.loads[c].key !in s.table && Published(s, c) && VictimOwned(s, c)
  {
    assert LoadOk(s, c);
    if s.loads[c].kind.FreeFrame? { FreeLoadIsNeverStale(s, c); }
  }

  /** release_table and close can flush safely: their own tests exclude every write-back in flight. */
  lemma ReleaseFlushIsSafe(s: Pool, table: nat, f: nat)
    requires Inv(s) && f < |s.frames| && Belongs(s.frames[f], table)
    requires forall k <- s.loading :: k.table != table && s.loading[k].oldKey.table != table
    ensures !FlushHazard(s, f)
  {
    forall c | c in s.loads && s.loads[c].frame == f ensures s.loads[c].io.Reading? || s.loads[c].io.ReadDone? {
      assert LoadOk(s, c);
    }
  }

  // ---------------------------------------------------------------- when a flush is safe

  ghost predicate StaysCoherent(s: Pool) {
    forall labels :: CanRun(s, labels) ==> Coherent(Run(s, labels))
  }

  lemma Extend(s: Pool, labels: seq<Label>, l: Label)
    requires CanRun(s, labels) && Enabled(Run(s, labels), l)
    ensures CanRun(s, labels + [l]) && Run(s, labels + [l]) == Apply(Run(s, labels), l)
  {
    assert (labels + [l])[..|labels + [l]| - 1] == labels;
  }

  lemma OneStepBreaks(t: Pool, l: Label)
    requires Enabled(t, l) && !Coherent(Apply(t, l))
    ensures !StaysCoherent(t)
  {
    Extend(t, [], l);
  }

  /** A write-back that has not landed can still overwrite what the flush wrote. */
  lemma PendingWriteLoses(s: Pool, f: nat, c: nat, bad: RawPage)
    requires Flushable(s, f) && AllMarked(s, f) && c in s.loads && s.loads[c].io.Writing? && bad != s.frames[f].page
    requires s.frames[f].key == Some(s.loads[c].oldKey)
    ensures !Coherent(WriteIo(FlushOk(s, f), c, false, bad))
  {
    MarksElsewhere(WriteIo(FlushOk(s, f), c, false, bad), s, f);
    assert !CleanMatchesDisk(WriteIo(FlushOk(s, f), c, false, bad), f);
  }

  lemma PendingWriteBreaks(s: Pool, f: nat, c: nat)
    requires LoadsOk(s) && Flushable(s, f) && AllMarked(s, f) && c in s.loads && s.loads[c].frame == f
    requires s.loads[c].io.Writing?
    ensures !StaysCoherent(FlushOk(s, f))
  {
    assert LoadOk(s, c);
    PendingWriteLoses(s, f, c, s.frames[f].page + [0]);
    OneStepBreaks(FlushOk(s, f), DoWrite(c, false, s.frames[f].page + [0]));
  }

  /** A write-back that has landed can still commit and drop the only good copy. */
  ghost predicate CommitsNext(s: Pool, f: nat, c: nat) {
    && LoadShape(s, c) && s.loads[c].frame == f && s.loads[c].io.WriteDone? && s.loads[c].io.landed
    && Published(s, c) && VictimUntouched(s, c, true, s.loads[c].io.writeGeneration)
    && s.loads[c].key != s.loads[c].oldKey
  }

  lemma CommitLoses(s: Pool, f: nat, c: nat, bad: RawPage)
    requires CommitsNext(s, f, c) && s.loads[c].oldKey in s.logical && s.logical[s.loads[c].oldKey] != bad
    ensures Flushable(s, f) && !Coherent(FinishDirty(FlushFail(s, f, bad), c))
  {
    var u := FinishDirty(FlushFail(s, f, bad), c);
    var victim := s.loads[c].oldKey;
    assert u.disk[victim] == bad && u.logical == s.logical && victim !in u.table;
    assert !Current(u, victim);
  }

  lemma LandedWriteBreaks(s: Pool, f: nat, c: nat)
    requires Inv(s) && s.open && Flushable(s, f) && c in s.loads && s.loads[c].frame == f
    requires s.loads[c].io.WriteDone? && s.loads[c].io.landed && s.loads[c].io.writeGeneration == s.frames[f].generation
    ensures !StaysCoherent(FlushFail(s, f, s.frames[f].page + [0]))
  {
    assert CommitsNext(s, f, c) by { assert LoadOk(s, c) && CarriesCurrent(s, c) && FrameOk(s, f); }
    assert s.loads[c].oldKey in s.logical && s.logical[s.loads[c].oldKey] == s.frames[f].page by {
      assert LoadOk(s, c);
      assert s.loads[c].oldKey in s.disk.Keys;
      assert Current(s, s.loads[c].oldKey);
    }
    CommitLoses(s, f, c, s.frames[f].page + [0]);
    OneStepBreaks(FlushFail(s, f, s.frames[f].page + [0]), DoFinishDirty(c));
  }

  /** A flush keeps every continuation coherent exactly when no write-back of the frame can still land or commit, or
      some guard of the frame is in the middle of an update. */
  lemma FlushIsSafeExactly(s: Pool, f: nat)
    requires Inv(s) && s.open && Flushable(s, f)
    ensures (forall succeeds, garbage :: StaysCoherent(Flush(s, f, succeeds, garbage))) <==> !FlushHazard(s, f)
  {
    if FlushHazard(s, f) {
      var c :| c in s.loads && WritesBack(s, c, f);
      if s.loads[c].io.Writing? {
        PendingWriteBreaks(s, f, c);
        assert !StaysCoherent(Flush(s, f, true, []));
      } else {
        LandedWriteBreaks(s, f, c);
        assert !StaysCoherent(Flush(s, f, false, s.frames[f].page + [0]));
      }
    } else {
      forall succeeds, garbage ensures StaysCoherent(Flush(s, f, succeeds, garbage)) {
        FlushKeepsInv(s, f, succeeds, garbage);
        InvStaysCoherent(Flush(s, f, succeeds, garbage));
      }
    }
  }

  lemma InvStaysCoherent(s: Pool)
    requires Inv(s)
    ensures StaysCoherent(s)
  {
    forall labels | CanRun(s, labels) ensures Coherent(Run(s, labels)) {
      RunKeepsInv(s, labels);
    }
  }
}
