/** A concrete run to a state in which flushing a dirty frame loses an update. */
module PoolHazard {
  import opened Common
  import opened PoolState
  import opened PoolInvariant
  import opened PoolTheorems

  const A: PageKey := PageKey(0, 1)
  const B: PageKey := PageKey(0, 2)

  ghost function Start(): Pool {
    Initial(Fifo, 1, map[A := [1], B := [2]])
  }

  /** The pool's only frame, as the run leaves it between loads. */
  ghost predicate Holding(s: Pool, page: RawPage, dirty: bool, pins: nat) {
    && |s.frames| == 1 && s.frames[0].state.Ready? && s.frames[0].key == Some(A) && s.frames[0].page == page
    && s.frames[0].dirty == dirty && s.frames[0].pins == pins && !s.frames[0].reserved
    && s.table == map[A := 0] && s.loading == map[] && s.order == [0] && s.open
    && B in s.disk && Shape(s)
  }

  lemma LoadA() returns (labels: seq<Label>, g: nat)
    ensures CanRun(Start(), labels)
    ensures Holding(Run(Start(), labels), [1], false, 1) && Run(Start(), labels).guards == map[g := Guard(0, A, false)]
  {
    Extend(Start(), [], Fetch(A, Demand));
    var s1 := Begin(Start(), A, Demand);
    assert FirstFree(Start().frames) == Some(0);
    assert s1.loads == map[0 := Load(FreeFrame, A, 0, Demand, A, 1, 0, Reading)];
    Extend(Start(), [Fetch(A, Demand)], DoRead(0, true));
    var s2 := ReadIo(s1, 0, true);
    assert s2.loads == map[0 := Load(FreeFrame, A, 0, Demand, A, 1, 0, ReadDone(Some([1])))];
    assert [Fetch(A, Demand)] + [DoRead(0, true)] == [Fetch(A, Demand), DoRead(0, true)];
    FreeMatchesHere(s2);
    Extend(Start(), [Fetch(A, Demand), DoRead(0, true)], DoFinishFree(0));
    labels, g := [Fetch(A, Demand), DoRead(0, true)] + [DoFinishFree(0)], 1;
  }

  lemma FreeMatchesHere(s: Pool)
    requires |s.frames| == 1 && s.frames[0].state.Loading? && s.frames[0].key == Some(A) &&
      s.frames[0].completion == Some(0)
    requires 0 in s.completions && s.completions[0].ticket == s.frames[0].ticket
    requires 0 in s.loads && s.loads[0].frame == 0 && s.loads[0].key == A
    ensures LoadShape(s, 0) && FreeMatches(s, 0)
  {
  }

  lemma WriteA() returns (labels: seq<Label>, g: nat)
    ensures CanRun(Start(), labels) && GuardShape(Run(Start(), labels), g)
    ensures Holding(Run(Start(), labels), [3], true, 1)
    ensures Run(Start(), labels).guards == map[g := Guard(0, A, false)]
  {
    var loaded;
    loaded, g := LoadA();
    Extend(Start(), loaded, DoGuardWrite(g, [3]));
    Extend(Start(), loaded + [DoGuardWrite(g, [3])], DoMarkDirty(g));
    labels := loaded + [DoGuardWrite(g, [3])] + [DoMarkDirty(g)];
  }

  lemma UpdateA() returns (labels: seq<Label>)
    ensures CanRun(Start(), labels)
    ensures Holding(Run(Start(), labels), [3], true, 0) && Run(Start(), labels).guards == map[]
  {
    var written, g := WriteA();
    Extend(Start(), written, DoUnpin(g));
    labels := written + [DoUnpin(g)];
  }

  /** The victim chosen for B, its read of B done. */
  ghost predicate Replacing(s: Pool, c: nat) {
    && LoadShape(s, c) && s.loads[c].kind.DirtyVictim? && s.loads[c].frame == 0 && s.loads[c].io.ReadDone?
    && s.loads[c].io.result.Some? && Published(s, c) && VictimUntouched(s, c, true, s.loads[c].generation)
    && s.guards == map[]
  }

  lemma ReadB(s: Pool)
    requires Holding(s, [3], true, 0) && s.guards == map[]
    ensures s.nextId in Begin(s, B, Demand).loads && Begin(s, B, Demand).loads[s.nextId].io.Reading?
    ensures Replacing(ReadIo(Begin(s, B, Demand), s.nextId, true), s.nextId)
  {
    assert FirstFree(s.frames).None? && ChooseVictim(s.order, s.frames, Demand) == Some(0);
  }

  lemma SnapshotA(s: Pool, c: nat)
    requires Replacing(s, c)
    ensures Flushable(SnapshotDirty(s, c), 0) && AllMarked(SnapshotDirty(s, c), 0) &&
      FlushHazard(SnapshotDirty(s, c), 0)
  {
    assert SnapshotDirty(s, c).loads[c].io.Writing?;
  }

  /** Fetching B chooses the dirty frame, reads B and snapshots A: A's write-back is now in flight. */
  lemma FlushHazardIsReachable() returns (labels: seq<Label>)
    ensures CanRun(Start(), labels)
    ensures Flushable(Run(Start(), labels), 0) && AllMarked(Run(Start(), labels), 0) &&
      FlushHazard(Run(Start(), labels), 0)
  {
    var updated := UpdateA();
    var s := Run(Start(), updated);
    var c := s.nextId;
    ReadB(s);
    Extend(Start(), updated, Fetch(B, Demand));
    Extend(Start(), updated + [Fetch(B, Demand)], DoRead(c, true));
    Extend(Start(), updated + [Fetch(B, Demand)] + [DoRead(c, true)], DoSnapshot(c));
    SnapshotA(ReadIo(Begin(s, B, Demand), c, true), c);
    labels := updated + [Fetch(B, Demand)] + [DoRead(c, true)] + [DoSnapshot(c)];
  }
}
