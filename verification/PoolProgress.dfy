/**
 What the calls on the buffer pool do, and that they get somewhere: a fetch that meets room and good I/O ends with
 one guard on the bytes last written, and a fetch blocked on somebody else's load is served when that load ends well.
 */
module PoolProgress {
  import opened Common
  import opened PoolState
  import opened PoolInvariant
  import opened PoolTheorems
  import opened PoolOutcomes

  lemma ShapeHolds(s: Pool)
    requires TableOk(s) && OrderOk(s)
    ensures Shape(s)
  {
    forall i | 0 <= i < |s.order| ensures s.order[i] < |s.frames| {
      assert s.order[i] in s.order;
    }
  }

  // ---------------------------------------------------------------- fetching and waking

  ghost predicate IsResident(s: Pool, key: PageKey)
    requires Shape(s)
  {
    key in s.table && s.frames[s.table[key]].state.Ready?
  }

  /** A call of fetch: refused without effect, or one counted turn of the loop. */
  ghost predicate FetchEnds(s: Pool, t: Pool, key: PageKey, origin: Origin)
    requires Shape(s)
  {
    if !s.open || key.page == 0 then t == s
    else
      && Turns(s, t, key, origin)
      && t.stats.fetches == s.stats.fetches + (if origin.Demand? then 1 else 0)
      && t.stats.hits == s.stats.hits + (if origin.Demand? && IsResident(s, key) then 1 else 0)
      && t.stats.misses == s.stats.misses + (if origin.Demand? && !IsResident(s, key) then 1 else 0)
  }

  ghost predicate SameCounts(s: Stats, t: Stats) {
    t.fetches == s.fetches && t.hits == s.hits && t.misses == s.misses
  }

  lemma GrantCounts(s: Pool, key: PageKey, f: nat)
    requires f < |s.frames|
    ensures Grant(s, key, f).stats == s.stats && |Grant(s, key, f).frames| == |s.frames|
  {
  }

  lemma PromoteCounts(s: Pool, f: nat)
    ensures Promote(s, f).stats == s.stats
  {
  }

  lemma PinCounts(s: Pool, key: PageKey, f: nat)
    requires f < |s.frames|
    ensures SameCounts(s.stats, Pin(s, key, f).stats)
  {
    TouchFields(s, f);
    GrantCounts(Touch(s, f), key, f);
    PromoteCounts(Grant(Touch(s, f), key, f), f);
  }

  lemma ReserveFreeCounts(s: Pool, key: PageKey, origin: Origin, f: nat)
    requires f < |s.frames|
    ensures SameCounts(s.stats, ReserveFree(s, key, origin, f).stats)
  {
  }

  lemma ReserveVictimCounts(s: Pool, key: PageKey, origin: Origin, f: nat)
    requires f < |s.frames| && s.frames[f].key.Some?
    ensures SameCounts(s.stats, ReserveVictim(s, key, origin, f).stats)
  {
  }

  lemma WaitCounts(s: Pool, key: PageKey, c: nat)
    ensures Wait(s, key, c).stats == s.stats
  {
  }

  lemma MissCounts(s: Pool, key: PageKey, origin: Origin)
    requires Shape(s)
    ensures SameCounts(s.stats, Miss(s, key, origin).stats)
  {
    if key in s.table {
      if s.frames[s.table[key]].completion.Some? {
        WaitCounts(s, key, s.frames[s.table[key]].completion.value);
      }
    } else if key in s.loading {
      WaitCounts(s, key, s.loading[key].completion);
    } else if FirstFree(s.frames).Some? {
      ReserveFreeCounts(s, key, origin, FirstFree(s.frames).value);
    } else if ChooseVictim(s.order, s.frames, origin).Some? {
      ReserveVictimCounts(s, key, origin, ChooseVictim(s.order, s.frames, origin).value);
    }
  }

  lemma AttemptCounts(s: Pool, key: PageKey, origin: Origin)
    requires Shape(s) && s.open
    ensures var t := Attempt(s, key, origin, false);
            && t.stats.fetches == s.stats.fetches
            && t.stats.hits == s.stats.hits + (if origin.Demand? && IsResident(s, key) then 1 else 0)
            && t.stats.misses == s.stats.misses + (if origin.Demand? && !IsResident(s, key) then 1 else 0)
  {
    if !(origin.Prefetch? && (key in s.table || key in s.loading)) {
      var u := Count(s, IsResident(s, key), origin.Demand?);
      if IsResident(s, key) {
        PinCounts(u, key, s.table[key]);
      } else {
        MissCounts(u, key, origin);
      }
    }
  }

  lemma BlocksWithoutStats(s: Pool, stats: Stats, t: Pool, key: PageKey, c: nat)
    requires Blocks(WithStats(s, stats), t, key, c)
    ensures Blocks(s, t, key, c)
  {
  }

  lemma TurnsWithoutStats(s: Pool, stats: Stats, t: Pool, key: PageKey, origin: Origin)
    requires Shape(s) && Turns(WithStats(s, stats), t, key, origin)
    ensures Turns(s, t, key, origin)
  {
    if s.open && key !in s.table && key !in s.loading {
      StartsWithoutStats(s, stats, t, key, origin);
    } else {
      HeldTurnsWithoutStats(s, stats, t, key, origin);
    }
  }

  lemma HeldTurnsWithoutStats(s: Pool, stats: Stats, t: Pool, key: PageKey, origin: Origin)
    requires Shape(s) && Turns(WithStats(s, stats), t, key, origin)
    requires !s.open || key in s.table || key in s.loading
    ensures Turns(s, t, key, origin)
  {
    if s.open && !(origin.Prefetch? && (key in s.table || key in s.loading)) {
      if IsResident(s, key) {
        HitWithoutStats(s, stats, t, key, s.table[key]);
      } else if key in s.table {
        BlocksWithoutStats(s, stats, t, key, s.frames[s.table[key]].completion.value);
      } else {
        BlocksWithoutStats(s, stats, t, key, s.loading[key].completion);
      }
    }
  }

  lemma FetchTurns(s: Pool, key: PageKey, origin: Origin)
    requires Shape(s) && FramesOk(s) && TableOk(s) && IdsOk(s) && s.open && key.page != 0
    ensures Turns(s, Begin(s, key, origin), key, origin)
  {
    var u := Fetched(s, origin);
    assert u == WithStats(s, u.stats);
    forall f: nat | f < |u.frames| ensures FrameOk(u, f) { assert FrameOk(s, f); }
    AttemptTurns(u, key, origin, false);
    TurnsWithoutStats(s, u.stats, Begin(s, key, origin), key, origin);
  }

  /** What a fetch does in every state: a hit, a wait, a new load on a FREE frame or on a victim, or nothing. */
  lemma FetchOutcome(s: Pool, key: PageKey, origin: Origin)
    requires Inv(s)
    ensures Enabled(s, Fetch(key, origin)) && FetchEnds(s, Apply(s, Fetch(key, origin)), key, origin)
  {
    ShapeHolds(s);
    if s.open && key.page != 0 {
      FetchTurns(s, key, origin);
      AttemptCounts(Fetched(s, origin), key, origin);
    }
  }

  /** The page that the completion announced is still in its frame. */
  ghost predicate StillThere(s: Pool, key: PageKey, ticket: nat) {
    && key in s.table && s.table[key] < |s.frames|
    && s.frames[s.table[key]].state.Ready? && s.frames[s.table[key]].ticket == ticket
  }

  ghost function Woken(s: Pool, w: nat): Pool {
    s.(waiters := s.waiters - {w})
  }

  lemma WakeEnds(s: Pool, w: nat)
    requires Shape(s) && FramesOk(s) && TableOk(s) && IdsOk(s)
    requires w in s.waiters && s.waiters[w].completion in s.completions
    ensures var key, done, u, t := s.waiters[w].key, s.completions[s.waiters[w].completion], Woken(s, w), Wake(s, w);
            if !done.failed && StillThere(s, key, done.ticket) then Hit(u, t, key, s.table[key])
            else if done.origin.Prefetch? then Turns(u, t, key, Demand)
            else t == u
  {
    var key, done, u := s.waiters[w].key, s.completions[s.waiters[w].completion], Woken(s, w);
    if !done.failed && StillThere(s, key, done.ticket) {
      PinHits(u, key, s.table[key]);
    } else if done.origin.Prefetch? {
      forall f: nat | f < |u.frames| ensures FrameOk(u, f) { assert FrameOk(s, f); }
      AttemptTurns(u, key, Demand, true);
    }
  }

  /**
   A blocked fetch that wakes up gets its page exactly when the load succeeded and the page is still in its frame.
   Otherwise it fails without effect, or starts over when it was waiting for a prefetch.
   */
  lemma WakeOutcome(s: Pool, w: nat)
    requires Inv(s) && Enabled(s, DoWake(w))
    ensures var key, done, u, t :=
              s.waiters[w].key, s.completions[s.waiters[w].completion], Woken(s, w), Apply(s, DoWake(w));
            if !done.failed && StillThere(s, key, done.ticket) then Hit(u, t, key, s.table[key])
            else if done.origin.Prefetch? then Turns(u, t, key, Demand)
            else t == u
  {
    WakeEnds(s, w);
  }

  // ---------------------------------------------------------------- guards and flushes

  /** A write through a guard changes the page in its frame and what readers are to see, and nothing else. */
  lemma GuardWriteOutcome(s: Pool, g: nat, page: RawPage)
    requires Enabled(s, DoGuardWrite(g, page))
    ensures var guard, t := s.guards[g], Apply(s, DoGuardWrite(g, page));
            && t == s.(frames := t.frames, guards := t.guards, logical := t.logical)
            && OthersAlone(s, t, guard.frame) && t.frames[guard.frame] == s.frames[guard.frame].(page := page)
            && t.guards == s.guards[g := guard.(unmarked := true)] && t.logical == s.logical[guard.key := page]
  {
  }

  /** mark_dirty sets the flag, and disturbs a replacement of the frame. */
  lemma MarkDirtyOutcome(s: Pool, g: nat)
    requires Enabled(s, DoMarkDirty(g))
    ensures var f, t := s.guards[g].frame, Apply(s, DoMarkDirty(g));
            && t == s.(frames := t.frames, guards := t.guards) && OthersAlone(s, t, f)
            && t.frames[f] == s.frames[f].(dirty := true, generation := t.frames[f].generation)
            && t.frames[f].generation == s.frames[f].generation + (if s.frames[f].reserved then 1 else 0)
            && t.guards == s.guards[g := s.guards[g].(unmarked := false)]
  {
  }

  /** The end of a guard takes one pin away. */
  lemma UnpinOutcome(s: Pool, g: nat)
    requires Enabled(s, DoUnpin(g))
    ensures var f, t := s.guards[g].frame, Apply(s, DoUnpin(g));
            && t == s.(frames := t.frames, guards := s.guards - {g}) && OthersAlone(s, t, f)
            && t.frames[f] == s.frames[f].(pins := s.frames[f].pins - 1)
  {
  }

  /** A flush writes the frame's bytes under its own page; only success makes the frame clean. */
  lemma FlushOutcome(s: Pool, f: nat, succeeds: bool, garbage: RawPage)
    requires Enabled(s, DoFlush(f, succeeds, garbage))
    ensures var key, t := s.frames[f].key.value, Apply(s, DoFlush(f, succeeds, garbage));
            && t == s.(frames := t.frames, disk := t.disk, stats := t.stats) && OthersAlone(s, t, f)
            && key in t.disk && t.disk == s.disk[key := t.disk[key]]
            && (succeeds ==> t.disk[key] == s.frames[f].page)
            && t.frames[f] == s.frames[f].(dirty := !succeeds)
            && t.stats == s.stats.(dirtyFlushes := s.stats.dirtyFlushes + (if succeeds then 1 else 0))
  {
  }

  // ---------------------------------------------------------------- release and close

  lemma {:induction false} EvictedMembers(order: seq<nat>, frames: seq<Frame>, table: nat)
    requires forall i :: 0 <= i < |order| ==> order[i] < |frames|
    ensures forall f :: f in Evicted(order, frames, table) <==> f in order && !Belongs(frames[f], table)
  {
    if order != [] {
      EvictedMembers(order[1..], frames, table);
      assert order == [order[0]] + order[1..];
    }
  }

  /** The list gives every entry of `kept` in the same order. */
  ghost predicate Subsequence(kept: seq<nat>, order: seq<nat>)
    decreases |order|
  {
    if kept == [] then true
    else if order == [] then false
    else if kept[0] == order[0] then Subsequence(kept[1..], order[1..])
    else Subsequence(kept, order[1..])
  }

  lemma {:induction false} EvictedInOrder(order: seq<nat>, frames: seq<Frame>, table: nat)
    requires forall i :: 0 <= i < |order| ==> order[i] < |frames|
    requires Distinct(order)
    ensures Subsequence(Evicted(order, frames, table), order)
  {
    if order != [] {
      EvictedInOrder(order[1..], frames, table);
      EvictedMembers(order[1..], frames, table);
    }
  }

  /** Releasing a table frees exactly its frames and forgets exactly its pages; the others keep their order. */
  lemma ReleaseOutcome(s: Pool, table: nat)
    requires Inv(s) && Enabled(s, DoRelease(table))
    ensures var t := Apply(s, DoRelease(table));
            && t == s.(frames := t.frames, table := t.table, order := t.order)
            && |t.frames| == |s.frames|
            && (forall f :: 0 <= f < |s.frames| ==>
                  t.frames[f] == if Belongs(s.frames[f], table) then Reset(s.frames[f]) else s.frames[f])
            && (forall k :: k in t.table <==> k in s.table && k.table != table)
            && (forall k :: k in t.table ==> t.table[k] == s.table[k])
            && (forall f :: f in t.order <==> f in s.order && !Belongs(s.frames[f], table))
            && Subsequence(t.order, s.order)
  {
    EvictedMembers(s.order, s.frames, table);
    EvictedInOrder(s.order, s.frames, table);
  }

  /** Closing leaves only FREE frames, and nothing can be fetched any more. */
  lemma CloseOutcome(s: Pool)
    requires Enabled(s, DoClose)
    ensures var t := Apply(s, DoClose);
            && t == s.(frames := t.frames, table := map[], order := [], open := false)
            && |t.frames| == |s.frames|
            && forall f :: 0 <= f < |s.frames| ==> t.frames[f] == Reset(s.frames[f])
  {
  }

  // ---------------------------------------------------------------- getting somewhere

  lemma RunThen(s: Pool, labels: seq<Label>, l: Label)
    requires CanRun(s, labels) && Enabled(Run(s, labels), l)
    ensures CanRun(s, labels + [l]) && Run(s, labels + [l]) == Apply(Run(s, labels), l)
  {
    assert (labels + [l])[..|labels + [l]| - 1] == labels;
  }

  /** One guard more than before, and it reads the bytes last written to the page. */
  ghost predicate GuardGained(s: Pool, t: Pool, key: PageKey, g: nat) {
    && key in s.logical && g !in s.guards && g in t.guards && t.guards == s.guards[g := t.guards[g]]
    && t.guards[g].key == key && Served(t, key, t.guards[g].frame, s.logical[key])
    && t.logical == s.logical
  }

  lemma RunIsGood(s: Pool, labels: seq<Label>)
    requires Inv(s) && CanRun(s, labels)
    ensures Inv(Run(s, labels)) && Shape(Run(s, labels))
  {
    RunKeepsInv(s, labels);
    ShapeHolds(Run(s, labels));
  }

  /** The labels of a fetch that finds a FREE frame: nobody comes between and the read succeeds. */
  function ColdRun(key: PageKey, c: nat): seq<Label> {
    [Fetch(key, Demand)] + [DoRead(c, true)] + [DoFinishFree(c)]
  }

  predicate SomeFree(frames: seq<Frame>) {
    exists f :: 0 <= f < |frames| && frames[f].state.Free?
  }

  ghost predicate NotHeld(s: Pool, key: PageKey) {
    s.open && key.page != 0 && key in s.disk && key !in s.table && key !in s.loading
  }

  lemma ColdFetchStarts(s: Pool, key: PageKey)
    requires Inv(s) && NotHeld(s, key) && SomeFree(s.frames)
    ensures CanRun(s, [Fetch(key, Demand)])
    ensures var c, t := s.nextId, Run(s, [Fetch(key, Demand)]);
            && t.disk == s.disk && t.logical == s.logical && t.guards == s.guards && t.nextId == c + 1
            && c in t.loads && t.loads[c].kind.FreeFrame? && t.loads[c].key == key && t.loads[c].io.Reading?
            && t.loads[c].origin.Demand?
  {
    FetchOutcome(s, key, Demand);
    assert CanRun(s, []) && Run(s, []) == s;
    RunThen(s, [], Fetch(key, Demand));
    assert [] + [Fetch(key, Demand)] == [Fetch(key, Demand)];
    var t := Run(s, [Fetch(key, Demand)]);
    assert Starts(s, t, key, Demand);
  }

  /** A demand load of the page, as far as its read. */
  ghost predicate Loads(t: Pool, c: nat, key: PageKey) {
    && c in t.loads && c in t.completions && t.loads[c].frame < |t.frames|
    && t.loads[c].key == key && t.loads[c].origin.Demand?
  }

  lemma FinishGains(s: Pool, t: Pool, u: Pool, c: nat, key: PageKey, page: RawPage)
    requires Loads(t, c, key) && Delivered(t, u, c, page) && u.logical == t.logical
    requires t.guards == s.guards && t.logical == s.logical && key in s.logical && s.logical[key] == page
    ensures GuardGained(s, u, key, t.nextId)
  {
  }

  /** With a FREE frame and a read that succeeds, an undisturbed fetch ends with a guard on its page. */
  lemma ColdFetchIsServed(s: Pool, key: PageKey)
    requires Inv(s) && NotHeld(s, key) && SomeFree(s.frames)
    ensures CanRun(s, ColdRun(key, s.nextId))
    ensures GuardGained(s, Run(s, ColdRun(key, s.nextId)), key, s.nextId + 1)
  {
    var c := s.nextId;
    ColdFetchStarts(s, key);
    var one := [Fetch(key, Demand)];
    var t1 := Run(s, one);
    RunIsGood(s, one);
    assert c in t1.loads;
    RunThen(s, one, DoRead(c, true));
    var two := one + [DoRead(c, true)];
    var t2 := Run(s, two);
    RunIsGood(s, two);
    ReadOutcome(t1, c, true);
    assert LoadOk(t2, c) && CarriesCurrent(t2, c);
    assert Enabled(t2, DoFinishFree(c));
    RunThen(s, two, DoFinishFree(c));
    FreeLoadOutcome(t2, c);
    FinishGains(s, t2, Apply(t2, DoFinishFree(c)), c, key, t2.loads[c].io.result.value);
  }

  lemma FirstVictimIsOne(s: Pool, origin: Origin, i: nat, j: nat)
    requires FirstVictim(s, origin, i) && FirstVictim(s, origin, j)
    ensures i == j
  {
  }

  /** The load of a fetch that found no FREE frame has begun on the frame, and nobody has touched the frame since. */
  ghost predicate VictimLoad(s: Pool, t: Pool, c: nat, key: PageKey, f: nat)
    requires f < |s.frames| && s.frames[f].key.Some?
  {
    && Loads(t, c, key) && t.loads[c].frame == f && t.loads[c].oldKey == s.frames[f].key.value
    && t.loads[c].kind == (if s.frames[f].dirty then DirtyVictim else CleanVictim)
    && t.loads[c].generation == s.frames[f].generation
    && t.open && t.logical == s.logical && t.guards == s.guards && t.nextId == c + 1
    && Undisturbed(t.frames[f], s.frames[f].dirty, s.frames[f].generation) && t.frames[f].page == s.frames[f].page
  }

  lemma VictimFetchStarts(s: Pool, key: PageKey, i: nat)
    requires Inv(s) && NotHeld(s, key) && !SomeFree(s.frames) && FirstVictim(s, Demand, i)
    ensures CanRun(s, [Fetch(key, Demand)])
    ensures var c, t := s.nextId, Run(s, [Fetch(key, Demand)]);
            VictimLoad(s, t, c, key, s.order[i]) && t.loads[c].io.Reading? && t.disk == s.disk
  {
    FetchOutcome(s, key, Demand);
    assert CanRun(s, []) && Run(s, []) == s;
    RunThen(s, [], Fetch(key, Demand));
    assert [] + [Fetch(key, Demand)] == [Fetch(key, Demand)];
    var t := Run(s, [Fetch(key, Demand)]);
    assert Starts(s, t, key, Demand);
    var j: nat :| FirstVictim(s, Demand, j) && StartsOnVictim(s, t, key, Demand, s.order[j]);
    FirstVictimIsOne(s, Demand, i, j);
  }

  function ReadRun(key: PageKey, c: nat): seq<Label> {
    [Fetch(key, Demand)] + [DoRead(c, true)]
  }

  lemma VictimFetchReads(s: Pool, key: PageKey, i: nat)
    requires Inv(s) && NotHeld(s, key) && !SomeFree(s.frames) && FirstVictim(s, Demand, i)
    ensures CanRun(s, ReadRun(key, s.nextId))
    ensures var c, t := s.nextId, Run(s, ReadRun(key, s.nextId));
            && VictimLoad(s, t, c, key, s.order[i]) && Inv(t) && LoadShape(t, c) && t.disk == s.disk
            && t.loads[c].io.ReadDone? && t.loads[c].io.result.Some?
            && key in s.logical && t.loads[c].io.result.value == s.logical[key]
  {
    var c := s.nextId;
    VictimFetchStarts(s, key, i);
    var one := [Fetch(key, Demand)];
    RunIsGood(s, one);
    RunThen(s, one, DoRead(c, true));
    ReadOutcome(Run(s, one), c, true);
    RunIsGood(s, ReadRun(key, c));
    assert CarriesCurrent(Run(s, ReadRun(key, c)), c);
  }

  /** The labels of a fetch that replaces a clean page. */
  function CleanRun(key: PageKey, c: nat): seq<Label> {
    ReadRun(key, c) + [DoFinishClean(c)]
  }

  /**
   In a full pool whose first victim is clean, an undisturbed fetch replaces that page and no other, and ends with a
   guard on its own page.
   */
  lemma CleanFetchIsServed(s: Pool, key: PageKey, i: nat)
    requires Inv(s) && NotHeld(s, key) && !SomeFree(s.frames)
    requires FirstVictim(s, Demand, i) && !s.frames[s.order[i]].dirty
    ensures CanRun(s, CleanRun(key, s.nextId))
    ensures var t := Run(s, CleanRun(key, s.nextId));
            && GuardGained(s, t, key, s.nextId + 1) && t.guards[s.nextId + 1].frame == s.order[i]
            && s.frames[s.order[i]].key.value !in t.table
  {
    var c := s.nextId;
    VictimFetchReads(s, key, i);
    var t := Run(s, ReadRun(key, c));
    assert Enabled(t, DoFinishClean(c));
    RunThen(s, ReadRun(key, c), DoFinishClean(c));
    CleanReplacementOutcome(t, c);
    FinishGains(s, t, Apply(t, DoFinishClean(c)), c, key, t.loads[c].io.result.value);
  }

  function WriteRun(key: PageKey, c: nat, garbage: RawPage): seq<Label> {
    ReadRun(key, c) + [DoSnapshot(c)] + [DoWrite(c, true, garbage)]
  }

  /** The labels of a fetch that writes back and replaces a dirty page. */
  function DirtyRun(key: PageKey, c: nat, garbage: RawPage): seq<Label> {
    WriteRun(key, c, garbage) + [DoFinishDirty(c)]
  }

  lemma DirtyFetchWrites(s: Pool, key: PageKey, i: nat, garbage: RawPage)
    requires Inv(s) && NotHeld(s, key) && !SomeFree(s.frames)
    requires FirstVictim(s, Demand, i) && s.frames[s.order[i]].dirty
    ensures CanRun(s, WriteRun(key, s.nextId, garbage))
    ensures var c, f, t := s.nextId, s.order[i], Run(s, WriteRun(key, s.nextId, garbage));
            && VictimLoad(s, t, c, key, f) && Inv(t) && LoadShape(t, c)
            && t.loads[c].io.WriteDone? && t.loads[c].io.landed
            && t.loads[c].io.writeGeneration == s.frames[f].generation
            && key in s.logical && t.loads[c].io.loaded == s.logical[key]
            && t.disk == s.disk[s.frames[f].key.value := s.frames[f].page]
  {
    var c := s.nextId;
    VictimFetchReads(s, key, i);
    var two := ReadRun(key, c);
    var t2 := Run(s, two);
    assert Enabled(t2, DoSnapshot(c));
    RunThen(s, two, DoSnapshot(c));
    SnapshotOutcome(t2, c);
    var three := two + [DoSnapshot(c)];
    var t3 := Run(s, three);
    RunThen(s, three, DoWrite(c, true, garbage));
    WriteBackOutcome(t3, c, true, garbage);
    RunIsGood(s, WriteRun(key, c, garbage));
  }

  /**
   In a full pool whose first victim is dirty, an undisturbed fetch leaves the victim's last write on disk, replaces
   that page and no other, and ends with a guard on its own page.
   */
  lemma DirtyFetchIsServed(s: Pool, key: PageKey, i: nat, garbage: RawPage)
    requires Inv(s) && NotHeld(s, key) && !SomeFree(s.frames)
    requires FirstVictim(s, Demand, i) && s.frames[s.order[i]].dirty
    ensures CanRun(s, DirtyRun(key, s.nextId, garbage))
    ensures var gone, t := s.frames[s.order[i]].key.value, Run(s, DirtyRun(key, s.nextId, garbage));
            && GuardGained(s, t, key, s.nextId + 1) && t.guards[s.nextId + 1].frame == s.order[i]
            && gone !in t.table && gone in s.logical && gone in t.disk && t.disk[gone] == s.logical[gone]
  {
    var c := s.nextId;
    DirtyFetchWrites(s, key, i, garbage);
    var t := Run(s, WriteRun(key, c, garbage));
    RunThen(s, WriteRun(key, c, garbage), DoFinishDirty(c));
    DirtyReplacementOutcome(t, c);
    FinishGains(s, t, Apply(t, DoFinishDirty(c)), c, key, t.loads[c].io.loaded);
    VictimIsCurrent(s, s.order[i]);
  }

  lemma VictimIsCurrent(s: Pool, f: nat)
    requires FramesOk(s) && TableOk(s) && Coherent(s) && f < |s.frames| && s.frames[f].state.Ready?
    ensures s.frames[f].key.Some? && s.frames[f].key.value in s.disk.Keys && s.frames[f].key.value in s.logical
    ensures s.logical[s.frames[f].key.value] == s.frames[f].page
  {
    assert FrameOk(s, f);
    assert Current(s, s.frames[f].key.value);
  }

  /** A fetch of a page in a READY frame is served at once, unless the frame has the largest pin count. */
  lemma ResidentFetchIsServed(s: Pool, key: PageKey)
    requires Inv(s) && s.open && key.page != 0 && Resident(s, key)
    ensures Enabled(s, Fetch(key, Demand))
    ensures if s.frames[s.table[key]].pins < MAX_PINS then
              GuardGained(s, Apply(s, Fetch(key, Demand)), key, s.nextId)
            else Apply(s, Fetch(key, Demand)).guards == s.guards
  {
    FetchOutcome(s, key, Demand);
    VictimIsCurrent(s, s.table[key]);
  }

  /** A fetch that finds no room fails: no guard, no load, no waiter and no change but the counters. */
  lemma FullFetchFails(s: Pool, key: PageKey)
    requires Inv(s) && NotHeld(s, key) && !SomeFree(s.frames) && forall i: nat :: !FirstVictim(s, Demand, i)
    ensures Enabled(s, Fetch(key, Demand)) && OnlyStats(s, Apply(s, Fetch(key, Demand)))
  {
    FetchOutcome(s, key, Demand);
  }

  predicate EndsLoad(l: Label, c: nat) {
    l == DoFinishFree(c) || l == DoFinishClean(c) || l == DoFinishDirty(c)
  }

  lemma EndKeepsWaiters(s: Pool, l: Label, c: nat)
    requires Inv(s) && EndsLoad(l, c) && Enabled(s, l)
    ensures Apply(s, l).waiters == s.waiters
  {
    match l
    case DoFinishFree(_) => FreeLoadOutcome(s, c);
    case DoFinishClean(_) => CleanReplacementOutcome(s, c);
    case DoFinishDirty(_) => DirtyReplacementOutcome(s, c);
  }

  /** A hit on a page that is there gives a guard that reads what was last written to it. */
  lemma HitServes(t: Pool, u: Pool, w: nat, key: PageKey, f: nat)
    requires f < |t.frames| && t.frames[f].state.Ready? && t.frames[f].pins < MAX_PINS && key in t.table
    requires t.table[key] == f && t.frames[f].key == Some(key) && key in t.logical && t.frames[f].page == t.logical[key]
    requires t.nextId !in t.guards && Hit(Woken(t, w), u, key, f)
    ensures GuardGained(t, u, key, t.nextId)
  {
  }

  lemma WakeServes(t: Pool, w: nat)
    requires Inv(t) && w in t.waiters && t.waiters[w].completion in t.completions
    requires var done := t.completions[t.waiters[w].completion];
             done.done && !done.failed && StillThere(t, t.waiters[w].key, done.ticket)
    requires t.frames[t.table[t.waiters[w].key]].pins < MAX_PINS
    ensures Enabled(t, DoWake(w)) && GuardGained(t, Apply(t, DoWake(w)), t.waiters[w].key, t.nextId)
  {
    ShapeHolds(t);
    WakeOutcome(t, w);
    VictimIsCurrent(t, t.table[t.waiters[w].key]);
    HitServes(t, Apply(t, DoWake(w)), w, t.waiters[w].key, t.table[t.waiters[w].key]);
  }

  /** Whoever waited for a load that ends well gets a guard on the page when it wakes up. */
  lemma WaiterIsServed(s: Pool, l: Label, c: nat, w: nat, page: RawPage)
    requires Inv(s) && EndsLoad(l, c) && Enabled(s, l) && Delivered(s, Apply(s, l), c, page)
    requires w in s.waiters && s.waiters[w] == Waiter(s.loads[c].key, c)
    ensures var t := Apply(s, l);
            Enabled(t, DoWake(w)) && GuardGained(t, Apply(t, DoWake(w)), s.loads[c].key, t.nextId)
  {
    StepKeepsInv(s, l);
    EndKeepsWaiters(s, l, c);
    WakeServes(Apply(s, l), w);
  }
}
