/** The steps of load_page that hold the lock keep the invariant. */
module PoolLoads {
  import opened Common
  import opened PoolState
  import opened PoolInvariant
  import opened PoolSteps

  // ---------------------------------------------------------------- the replacer

  lemma {:induction false} WithoutFacts(order: seq<nat>, id: nat)
    requires Distinct(order)
    ensures Distinct(Without(order, id))
    ensures forall x :: x in Without(order, id) <==> x in order && x != id
  {
    if order != [] {
      assert order == [order[0]] + order[1..];
      WithoutFacts(order[1..], id);
      if order[0] == id {
        forall x ensures x in Without(order, id) <==> x in order && x != id {
          assert x in order[1..] ==> x != id;
        }
      } else {
        var rest := Without(order[1..], id);
        assert order[0] !in rest;
      }
    }
  }

  lemma RecordLoadKeepsOrder(s: Pool, t: Pool, f: nat)
    requires OrderOk(s) && t.order == RecordLoad(s.order, f)
    requires |t.frames| == |s.frames| && f < |t.frames| && t.frames[f].state.Ready?
    requires forall h: nat :: h < |s.frames| && h != f ==> (s.frames[h].state.Ready? <==> t.frames[h].state.Ready?)
    ensures OrderOk(t)
  {
    WithoutFacts(s.order, f);
    forall h: nat ensures h in t.order <==> h < |t.frames| && t.frames[h].state.Ready? {
      assert h in t.order <==> h in Without(s.order, f) || h == f;
      assert h in s.order <==> h < |s.frames| && s.frames[h].state.Ready?;
    }
    var rest := Without(s.order, f);
    forall i, j | 0 <= i < j < |t.order| ensures t.order[i] != t.order[j] {
      assert t.order[i] == rest[i] && rest[i] in rest;
    }
  }

  // ---------------------------------------------------------------- a hit

  lemma TouchIsCalm(s: Pool, f: nat)
    requires f < |s.frames| && s.frames[f].state.Ready?
    ensures Soft(s, Touch(s, f)) && Calm(s, Touch(s, f))
  {
    forall h: nat | h < |s.frames| && AllMarked(Touch(s, f), h) ensures AllMarked(s, h) {
      MarksElsewhere(s, Touch(s, f), h);
    }
  }

  lemma TouchKeepsInv(s: Pool, f: nat)
    requires Inv(s) && f < |s.frames| && s.frames[f].state.Ready?
    ensures Inv(Touch(s, f))
  {
    TouchIsCalm(s, f);
    SoftGuards(s, Touch(s, f));
    SoftOrder(s, Touch(s, f));
    CalmKeepsInv(s, Touch(s, f));
  }

  /** Frame f may be pinned: no write-back of it would still commit. */
  ghost predicate Pinnable(s: Pool, f: nat) {
    f < |s.frames| && s.frames[f].state.Ready? &&
    forall c <- s.loads :: s.loads[c].frame == f && (s.loads[c].io.Writing? || s.loads[c].io.WriteDone?) ==>
      s.loads[c].io.writeGeneration < s.frames[f].generation
  }

  lemma TouchMakesPinnable(s: Pool, f: nat)
    requires Inv(s) && f < |s.frames| && s.frames[f].state.Ready?
    ensures Pinnable(Touch(s, f), f)
  {
    forall c | c in s.loads && s.loads[c].frame == f && (s.loads[c].io.Writing? || s.loads[c].io.WriteDone?)
      ensures s.frames[f].reserved && s.loads[c].io.writeGeneration <= s.frames[f].generation
    {
      assert LoadOk(s, c) && CarriesCurrent(s, c);
    }
  }

  lemma GrantIsSoft(s: Pool, key: PageKey, f: nat)
    requires f < |s.frames| && s.frames[f].state.Ready?
    ensures Soft(s, Grant(s, key, f))
  {
  }

  lemma GrantKeepsGuards(s: Pool, key: PageKey, f: nat)
    requires f < |s.frames| && s.frames[f].state.Ready? && s.frames[f].key == Some(key)
    requires GuardsOk(s) && IdsOk(s)
    ensures GuardsOk(Grant(s, key, f)) && IdsOk(Grant(s, key, f))
  {
    var t := Grant(s, key, f);
    forall h: nat | h < |t.frames| && t.frames[h].state.Ready? ensures t.frames[h].pins == |Holders(t.guards, h)| {
      HoldersAdd(s.guards, s.nextId, t.guards[s.nextId], h);
    }
  }

  lemma GrantCoherent(s: Pool, key: PageKey, f: nat)
    requires Coherent(s) && f < |s.frames| && s.nextId !in s.guards
    ensures Coherent(Grant(s, key, f))
  {
    var t := Grant(s, key, f);
    forall k | k in t.disk && k in t.logical ensures Current(t, k) { assert Current(s, k); }
    forall h: nat | h < |t.frames| ensures CleanMatchesDisk(t, h) {
      assert CleanMatchesDisk(s, h);
      if AllMarked(t, h) { MarksElsewhere(s, t, h); }
    }
  }

  lemma GrantLoads(s: Pool, key: PageKey, f: nat)
    requires LoadsCarryCurrent(s) && Pinnable(s, f) && s.nextId !in s.guards
    ensures LoadsCarryCurrent(Grant(s, key, f))
  {
    var t := Grant(s, key, f);
    forall c | c in t.loads ensures t.loads[c].frame < |t.frames| && CarriesCurrent(t, c) {
      assert CarriesCurrent(s, c);
      if AllMarked(t, s.loads[c].frame) { MarksElsewhere(s, t, s.loads[c].frame); }
    }
  }

  lemma GrantKeepsInv(s: Pool, key: PageKey, f: nat)
    requires Inv(s) && Pinnable(s, f) && s.frames[f].key == Some(key)
    ensures Inv(Grant(s, key, f))
  {
    GrantIsSoft(s, key, f);
    GrantKeepsGuards(s, key, f);
    SoftOrder(s, Grant(s, key, f));
    SoftStructure(s, Grant(s, key, f));
    GrantCoherent(s, key, f);
    GrantLoads(s, key, f);
  }

  lemma PromoteIsCalm(s: Pool, f: nat)
    ensures Soft(s, Promote(s, f)) && Calm(s, Promote(s, f))
  {
    forall h: nat | h < |s.frames| && AllMarked(Promote(s, f), h) ensures AllMarked(s, h) {
      MarksElsewhere(s, Promote(s, f), h);
    }
  }

  lemma PromoteKeepsOrder(s: Pool, f: nat)
    requires OrderOk(s) && f < |s.frames| && s.frames[f].state.Ready?
    ensures OrderOk(Promote(s, f))
  {
    if s.policy.Lru? { RecordLoadKeepsOrder(s, Promote(s, f), f); }
  }

  lemma PromoteKeepsInv(s: Pool, f: nat)
    requires Inv(s) && f < |s.frames| && s.frames[f].state.Ready?
    ensures Inv(Promote(s, f))
  {
    PromoteIsCalm(s, f);
    PromoteKeepsOrder(s, f);
    SoftGuards(s, Promote(s, f));
    CalmKeepsInv(s, Promote(s, f));
  }

  lemma PinKeepsInv(s: Pool, key: PageKey, f: nat)
    requires Inv(s) && f < |s.frames| && s.frames[f].state.Ready? && s.frames[f].key == Some(key)
    ensures Inv(Pin(s, key, f))
  {
    TouchKeepsInv(s, f);
    TouchMakesPinnable(s, f);
    GrantKeepsInv(Touch(s, f), key, f);
    PromoteKeepsInv(Grant(Touch(s, f), key, f), f);
  }

  // ---------------------------------------------------------------- waiting and counting

  lemma WaitKeepsInv(s: Pool, key: PageKey, c: nat)
    requires Inv(s) && c in s.completions
    ensures Inv(Wait(s, key, c))
  {
    var t := Wait(s, key, c);
    SoftGuards(s, t);
    SoftOrder(s, t);
    forall f: nat | f < |s.frames| && AllMarked(t, f) ensures AllMarked(s, f) { MarksElsewhere(s, t, f); }
    CalmKeepsInv(s, t);
  }

  /** Statistics and waiters are not part of the structure. */
  lemma BookkeepingKeepsInv(s: Pool, t: Pool)
    requires Inv(s) && t == s.(stats := t.stats, waiters := t.waiters)
    requires forall w :: w in t.waiters ==> w in s.waiters && t.waiters[w] == s.waiters[w]
    requires StatsOk(t)
    ensures Inv(t)
  {
    SoftGuards(s, t);
    SoftOrder(s, t);
    forall f: nat | f < |s.frames| && AllMarked(t, f) ensures AllMarked(s, f) { MarksElsewhere(s, t, f); }
    CalmKeepsInv(s, t);
  }

  // ---------------------------------------------------------------- reserving a FREE frame

  ghost predicate Absent(s: Pool, key: PageKey) {
    key !in s.table && key !in s.loading
  }

  lemma ReserveFreeFrames(s: Pool, key: PageKey, origin: Origin, f: nat)
    requires f < |s.frames| && s.frames[f].state.Free? && Absent(s, key)
    requires FramesOk(s) && TableOk(s) && IdsOk(s)
    ensures FramesOk(ReserveFree(s, key, origin, f)) && TableOk(ReserveFree(s, key, origin, f))
  {
    var t := ReserveFree(s, key, origin, f);
    forall h: nat | h < |t.frames| ensures FrameOk(t, h) { assert FrameOk(s, h); }
    assert FrameOk(s, f);
  }

  lemma ReserveFreeLoads(s: Pool, key: PageKey, origin: Origin, f: nat)
    requires f < |s.frames| && s.frames[f].state.Free? && Absent(s, key)
    requires FramesOk(s) && LoadsOk(s) && IdsOk(s)
    ensures LoadsOk(ReserveFree(s, key, origin, f))
  {
    var t := ReserveFree(s, key, origin, f);
    assert FrameOk(s, f);
    forall c | c in s.loads ensures s.loads[c].frame != f && LoadOk(t, c) { assert LoadOk(s, c); }
    assert LoadOk(t, s.nextId);
  }

  lemma ReserveFreeLoading(s: Pool, key: PageKey, origin: Origin, f: nat)
    requires f < |s.frames| && Absent(s, key) && LoadingOk(s) && IdsOk(s)
    ensures LoadingOk(ReserveFree(s, key, origin, f))
  {
  }

  lemma ReserveFreeRest(s: Pool, key: PageKey, origin: Origin, f: nat)
    requires f < |s.frames| && s.frames[f].state.Free?
    requires GuardsOk(s) && OrderOk(s) && IdsOk(s)
    ensures GuardsOk(ReserveFree(s, key, origin, f)) && OrderOk(ReserveFree(s, key, origin, f))
    ensures IdsOk(ReserveFree(s, key, origin, f))
  {
    var t := ReserveFree(s, key, origin, f);
    forall h: nat ensures h in t.order <==> h < |t.frames| && t.frames[h].state.Ready? {}
  }

  lemma ReserveFreeCoherent(s: Pool, key: PageKey, origin: Origin, f: nat)
    requires f < |s.frames| && s.frames[f].state.Free? && Absent(s, key)
    requires Coherent(s) && LoadsCarryCurrent(s) && FramesOk(s) && LoadsOk(s) && TableOk(s)
    ensures Coherent(ReserveFree(s, key, origin, f)) && LoadsCarryCurrent(ReserveFree(s, key, origin, f))
  {
    var t := ReserveFree(s, key, origin, f);
    assert FrameOk(s, f);
    forall k | k in t.disk && k in t.logical ensures Current(t, k) { assert Current(s, k); }
    forall h: nat | h < |t.frames| ensures CleanMatchesDisk(t, h) {
      assert CleanMatchesDisk(s, h);
      if AllMarked(t, h) { MarksElsewhere(s, t, h); }
    }
    forall c | c in t.loads ensures t.loads[c].frame < |t.frames| && CarriesCurrent(t, c) {
      if c != s.nextId { assert CarriesCurrent(s, c) && LoadOk(s, c); }
    }
  }

  lemma ReserveFreeKeepsInv(s: Pool, key: PageKey, origin: Origin, f: nat)
    requires Inv(s) && f < |s.frames| && s.frames[f].state.Free? && Absent(s, key)
    ensures Inv(ReserveFree(s, key, origin, f))
  {
    ReserveFreeFrames(s, key, origin, f);
    ReserveFreeLoads(s, key, origin, f);
    ReserveFreeLoading(s, key, origin, f);
    ReserveFreeRest(s, key, origin, f);
    ReserveFreeCoherent(s, key, origin, f);
  }

  // ---------------------------------------------------------------- reserving a victim

  lemma ReserveVictimFrames(s: Pool, key: PageKey, origin: Origin, f: nat)
    requires f < |s.frames| && Eligible(s.frames[f], origin) && Absent(s, key)
    requires FramesOk(s) && TableOk(s) && IdsOk(s)
    ensures FramesOk(ReserveVictim(s, key, origin, f)) && TableOk(ReserveVictim(s, key, origin, f))
  {
    var t := ReserveVictim(s, key, origin, f);
    forall h: nat | h < |t.frames| ensures FrameOk(t, h) {
      assert FrameOk(s, h);
      BackedAdd(s.loading, key, t.loading[key], h);
    }
  }

  lemma BackedAdd(loading: map<PageKey, Reservation>, key: PageKey, r: Reservation, f: nat)
    requires key !in loading
    ensures Backed(loading, f) || r.victim == f ==> Backed(loading[key := r], f)
  {
    if Backed(loading, f) {
      var k :| k in loading && loading[k].victim == f;
      assert loading[key := r][k].victim == f;
    } else if r.victim == f {
      assert loading[key := r][key].victim == f;
    }
  }

  lemma ReserveVictimLoads(s: Pool, key: PageKey, origin: Origin, f: nat)
    requires f < |s.frames| && Eligible(s.frames[f], origin) && Absent(s, key)
    requires FramesOk(s) && LoadsOk(s) && IdsOk(s)
    ensures LoadsOk(ReserveVictim(s, key, origin, f))
  {
    var t := ReserveVictim(s, key, origin, f);
    assert FrameOk(s, f);
    forall c | c in s.loads ensures s.loads[c].frame != f && LoadOk(t, c) { assert LoadOk(s, c); }
    assert LoadOk(t, s.nextId);
  }

  lemma ReserveVictimLoading(s: Pool, key: PageKey, origin: Origin, f: nat)
    requires f < |s.frames| && s.frames[f].key.Some? && Absent(s, key) && LoadingOk(s) && IdsOk(s)
    ensures LoadingOk(ReserveVictim(s, key, origin, f))
  {
  }

  lemma ReserveVictimRest(s: Pool, key: PageKey, origin: Origin, f: nat)
    requires f < |s.frames| && Eligible(s.frames[f], origin)
    requires GuardsOk(s) && OrderOk(s) && IdsOk(s)
    ensures GuardsOk(ReserveVictim(s, key, origin, f)) && OrderOk(ReserveVictim(s, key, origin, f))
    ensures IdsOk(ReserveVictim(s, key, origin, f))
  {
    var t := ReserveVictim(s, key, origin, f);
    forall h: nat ensures h in t.order <==> h < |t.frames| && t.frames[h].state.Ready? {}
  }

  lemma ReserveVictimCoherent(s: Pool, key: PageKey, origin: Origin, f: nat)
    requires f < |s.frames| && Eligible(s.frames[f], origin)
    requires Coherent(s) && LoadsCarryCurrent(s)
    ensures Coherent(ReserveVictim(s, key, origin, f)) && LoadsCarryCurrent(ReserveVictim(s, key, origin, f))
  {
    var t := ReserveVictim(s, key, origin, f);
    forall k | k in t.disk && k in t.logical ensures Current(t, k) { assert Current(s, k); }
    forall h: nat | h < |t.frames| ensures CleanMatchesDisk(t, h) {
      assert CleanMatchesDisk(s, h);
      if AllMarked(t, h) { MarksElsewhere(s, t, h); }
    }
    forall c | c in t.loads ensures t.loads[c].frame < |t.frames| && CarriesCurrent(t, c) {
      if c != s.nextId { assert CarriesCurrent(s, c); }
    }
  }

  lemma ReserveVictimKeepsInv(s: Pool, key: PageKey, origin: Origin, f: nat)
    requires Inv(s) && f < |s.frames| && Eligible(s.frames[f], origin) && Absent(s, key)
    ensures Inv(ReserveVictim(s, key, origin, f))
  {
    ReserveVictimFrames(s, key, origin, f);
    ReserveVictimLoads(s, key, origin, f);
    ReserveVictimLoading(s, key, origin, f);
    ReserveVictimRest(s, key, origin, f);
    ReserveVictimCoherent(s, key, origin, f);
  }

  // ---------------------------------------------------------------- one turn of load_page's loop

  lemma MissKeepsInv(s: Pool, key: PageKey, origin: Origin)
    requires Inv(s) && Shape(s) && !Resident(s, key)
    ensures Inv(Miss(s, key, origin))
  {
    if key in s.table {
      assert FrameOk(s, s.table[key]);
      assert LoadOk(s, s.frames[s.table[key]].completion.value);
      WaitKeepsInv(s, key, s.frames[s.table[key]].completion.value);
    } else if key in s.loading {
      assert LoadOk(s, s.loading[key].completion);
      WaitKeepsInv(s, key, s.loading[key].completion);
    } else if FirstFree(s.frames).Some? {
      ReserveFreeKeepsInv(s, key, origin, FirstFree(s.frames).value);
    } else if ChooseVictim(s.order, s.frames, origin).Some? {
      ReserveVictimKeepsInv(s, key, origin, ChooseVictim(s.order, s.frames, origin).value);
    }
  }

  /** Everything but the fetch counters. */
  ghost predicate InvUncounted(s: Pool) {
    && Structure(s) && Coherent(s) && LoadsCarryCurrent(s)
    && s.stats.fetches == s.stats.hits + s.stats.misses + 1
    && StatsOk(s.(stats := s.stats.(hits := s.stats.hits + 1)))
  }

  lemma CountKeepsInv(s: Pool, hit: bool, counted: bool)
    requires if counted then InvUncounted(s) else Inv(s)
    ensures Inv(Count(s, hit, counted))
  {
    RestateStructure(s, Count(s, hit, counted));
    RestateCoherent(s, Count(s, hit, counted));
  }

  lemma RestateStructure(s: Pool, t: Pool)
    requires Structure(s) && t == s.(stats := t.stats)
    ensures Structure(t)
  {
    SoftGuards(s, t);
    SoftOrder(s, t);
    SoftStructure(s, t);
  }

  lemma RestateCoherent(s: Pool, t: Pool)
    requires Coherent(s) && LoadsCarryCurrent(s) && LoadsOk(s) && t == s.(stats := t.stats)
    ensures Coherent(t) && LoadsCarryCurrent(t)
  {
    forall f: nat | f < |s.frames| && AllMarked(t, f) ensures AllMarked(s, f) { MarksElsewhere(s, t, f); }
    assert Soft(s, t) && Calm(s, t);
    CalmCoherent(s, t);
    CalmLoads(s, t);
  }

  lemma AttemptKeepsInv(s: Pool, key: PageKey, origin: Origin, classified: bool)
    requires Shape(s) && s.open
    requires if !classified && origin.Demand? then InvUncounted(s) else Inv(s)
    ensures Inv(Attempt(s, key, origin, classified))
  {
    var hit := key in s.table && s.frames[s.table[key]].state.Ready?;
    var counted := !classified && origin.Demand?;
    CountKeepsInv(s, hit, counted);
    CountKeepsShape(s, hit, counted);
    if hit {
      HitKeepsInv(s, key, counted);
    } else {
      MissKeepsInv(Count(s, false, counted), key, origin);
    }
  }

  lemma HitKeepsInv(s: Pool, key: PageKey, counted: bool)
    requires Shape(s) && key in s.table && s.frames[s.table[key]].state.Ready? && Inv(Count(s, true, counted))
    ensures Inv(Pin(Count(s, true, counted), key, s.table[key]))
  {
    PinKeepsInv(Count(s, true, counted), key, s.table[key]);
  }

  lemma BeginKeepsInv(s: Pool, key: PageKey, origin: Origin)
    requires Inv(s) && Shape(s)
    ensures Inv(Begin(s, key, origin))
  {
    if s.open && key.page != 0 {
      RestateStructure(s, Fetched(s, origin));
      RestateCoherent(s, Fetched(s, origin));
      AttemptKeepsInv(Fetched(s, origin), key, origin, false);
    }
  }

  lemma WakeKeepsInv(s: Pool, w: nat)
    requires Inv(s) && Shape(s) && w in s.waiters && s.waiters[w].completion in s.completions
    ensures Inv(Wake(s, w))
  {
    var t := s.(waiters := s.waiters - {w});
    BookkeepingKeepsInv(s, t);
    if Wake(s, w) != t {
      var key := s.waiters[w].key;
      if t.open { AttemptKeepsInv(t, key, Demand, true); }
      if key in s.table && s.frames[s.table[key]].state.Ready? {
        PinKeepsInv(t, key, s.table[key]);
      }
    }
  }
}
