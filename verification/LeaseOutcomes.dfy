/** What each call on the file manager brings about, and that closing never gets stuck
    (src/storage/file_manager.cpp). */
module LeaseOutcomes {
  import opened Leases

  // ---------------------------------------------------------------- single calls

  /** Opening leaves the table's file open unless someone is closing it, and touches nothing else. */
  lemma OpenOutcome(s: State, t: TableId)
    requires Inv(s)
    ensures var now := Apply(s, Open(t));
            && now.leases == s.leases && now.closers == s.closers
            && (BeingClosed(s, t) ==> now == s)
            && (!BeingClosed(s, t) ==> now.m.files == s.m.files[t := true])
  {
    RefusedIffBeingClosed(s, t);
    if t in s.m.files && !s.m.files[t] {
      assert t in s.m.closing;
    }
  }

  /** A lease is granted exactly on an open file that nobody is closing; the files stay as they are. */
  lemma AcquireOutcome(s: State, t: TableId)
    requires Inv(s)
    ensures var now := Apply(s, Acquire(t));
            && now.m.files == s.m.files && now.closers == s.closers
            && now.leases == if t in s.m.files && !BeingClosed(s, t) then s.leases + multiset{t} else s.leases
  {
    RefusedIffBeingClosed(s, t);
  }

  /** Giving a lease back takes one lease away and nothing else. */
  lemma ReleaseOutcome(s: State, t: TableId)
    requires Inv(s) && t in s.leases
    ensures var now := Apply(s, Release(t));
            && now.m.files == s.m.files && now.closers == s.closers && !now.terminated
            && now.leases == s.leases - multiset{t}
  {
    ReleaseKeeps(s, t);
  }

  /** A thread starts to close a table exactly when its file is open and nobody else is closing it. */
  lemma BeginCloseOutcome(s: State, p: nat, t: TableId)
    requires Inv(s) && p !in s.closers
    ensures var now := Apply(s, BeginClose(p, t));
            && now.m.files == s.m.files && now.leases == s.leases
            && now.closers ==
               if t in s.m.files && !BeingClosed(s, t) then s.closers[p := Waiting(t)] else s.closers
  {
    RefusedIffBeingClosed(s, t);
  }

  /** The thread goes on exactly when no lease on the table is left. */
  lemma CloseWaitsForLeases(s: State, p: nat)
    requires Inv(s) && p in s.closers && s.closers[p].Waiting?
    ensures Enabled(s, Proceed(p)) <==> s.closers[p].table !in s.leases
  {
    assert s.leases[s.closers[p].table] > 0 <==> s.closers[p].table in s.m.inFlight;
  }

  /** close_all goes on exactly when no lease is left and no thread is closing a single table. */
  lemma CloseAllWaits(s: State, p: nat)
    requires Inv(s) && p in s.closers && s.closers[p].AllWaiting?
    ensures Enabled(s, ProceedAll(p)) <==> s.leases == multiset{} && s.closers.Keys == {p}
  {
    if Enabled(s, ProceedAll(p)) {
      NoLeases(s);
      OnlyAll(s, p);
    }
    if s.leases == multiset{} && s.closers.Keys == {p} {
      assert forall t :: t in s.m.inFlight ==> s.leases[t] > 0;
      assert forall t :: t in s.m.closing ==> !Owns(s.closers[p], t);
    }
  }

  // ---------------------------------------------------------------- closing one table

  /** Thread p can start to close t: the file is open, and nobody else is closing it. */
  ghost predicate CanClose(s: State, p: nat, t: TableId) {
    Inv(s) && p !in s.closers && t in s.m.files && !BeingClosed(s, t)
  }

  lemma CanCloseMeans(s: State, p: nat, t: TableId)
    requires CanClose(s, p, t)
    ensures StartsClose(s.m, t) && t !in s.m.closing && s.m.files[t]
    ensures t !in s.leases ==> t !in s.m.inFlight
  {
    RefusedIffBeingClosed(s, t);
    assert s.leases[t] > 0 <==> t in s.leases;
  }

  /** The lock regions of close_table_file, one after the other, and the file's own close between them. */
  function ClosingSteps(p: nat, t: TableId, ok: bool): (es: seq<Event>)
    ensures |es| == 4
  {
    [BeginClose(p, t), Proceed(p), CloseFile(p, ok), EndClose(p)]
  }

  ghost predicate Steps(s: State, es: seq<Event>, end: State)
    decreases |es|
  {
    if es == [] then s == end else Enabled(s, es[0]) && Steps(Apply(s, es[0]), es[1..], end)
  }

  lemma FourSteps(s: State, es: seq<Event>, s1: State, s2: State, s3: State, end: State)
    requires |es| == 4
    requires Enabled(s, es[0]) && Apply(s, es[0]) == s1 && Enabled(s1, es[1]) && Apply(s1, es[1]) == s2
    requires Enabled(s2, es[2]) && Apply(s2, es[2]) == s3 && Enabled(s3, es[3]) && Apply(s3, es[3]) == end
    ensures Steps(s, es, end)
  {
    assert es[1..][1..] == es[2..] && es[2..][1..] == es[3..] && es[3..][1..] == [];
    assert Steps(end, [], end);
    assert Steps(s3, es[3..], end);
    assert Steps(s2, es[2..], end);
    assert Steps(s1, es[1..], end);
  }

  /** The state with thread p at some stage of closing t. */
  ghost function During(s: State, p: nat, c: Closer, files: map<TableId, bool>): State
    requires !IsAll(c)
  {
    s.(m := s.m.(files := files, closing := s.m.closing + {c.table}), closers := s.closers[p := c])
  }

  lemma FirstRegion(s: State, p: nat, t: TableId)
    requires p !in s.closers && StartsClose(s.m, t)
    ensures Apply(s, BeginClose(p, t)) == During(s, p, Waiting(t), s.m.files)
  {
  }

  lemma SecondRegion(s: State, p: nat, t: TableId)
    requires t !in s.m.inFlight && t in s.m.files
    ensures Enabled(During(s, p, Waiting(t), s.m.files), Proceed(p))
    ensures Apply(During(s, p, Waiting(t), s.m.files), Proceed(p)) == During(s, p, Closing(t), s.m.files)
  {
    assert s.closers[p := Waiting(t)][p := Closing(t)] == s.closers[p := Closing(t)];
  }

  lemma FileClose(s: State, p: nat, t: TableId, ok: bool)
    requires t in s.m.files
    ensures Apply(During(s, p, Closing(t), s.m.files), CloseFile(p, ok)) ==
            During(s, p, Closed(t, ok), if ok then s.m.files[t := false] else s.m.files)
  {
    assert s.closers[p := Closing(t)][p := Closed(t, ok)] == s.closers[p := Closed(t, ok)];
  }

  lemma LastRegion(s: State, p: nat, t: TableId, ok: bool)
    requires p !in s.closers && t !in s.m.closing && t in s.m.files
    ensures Apply(During(s, p, Closed(t, ok), if ok then s.m.files[t := false] else s.m.files), EndClose(p)) ==
            s.(m := s.m.(files := if ok then s.m.files - {t} else s.m.files))
  {
    assert s.m.files[t := false] - {t} == s.m.files - {t};
    assert s.closers[p := Closed(t, ok)] - {p} == s.closers && s.m.closing + {t} - {t} == s.m.closing;
  }

  /** An unleased table that nobody is closing can be closed: the thread passes all its lock regions, the file is
      gone exactly when its own close succeeded, and nothing else has changed. */
  lemma TableIsClosed(s: State, p: nat, t: TableId, ok: bool)
    requires CanClose(s, p, t) && t !in s.leases
    ensures Steps(s, ClosingSteps(p, t, ok), s.(m := s.m.(files := if ok then s.m.files - {t} else s.m.files)))
  {
    CanCloseMeans(s, p, t);
    FirstRegion(s, p, t);
    SecondRegion(s, p, t);
    FileClose(s, p, t, ok);
    LastRegion(s, p, t, ok);
    var files := if ok then s.m.files[t := false] else s.m.files;
    FourSteps(s, ClosingSteps(p, t, ok), During(s, p, Waiting(t), s.m.files), During(s, p, Closing(t), s.m.files),
        During(s, p, Closed(t, ok), files), s.(m := s.m.(files := if ok then s.m.files - {t} else s.m.files)));
  }

  // ---------------------------------------------------------------- closing everything

  /** The turns of close_all's loop over the files in some order. */
  ghost function Turns(s: State, p: nat, order: seq<TableId>, ok: TableId -> bool): (r: State)
    requires p in s.closers && s.closers[p].AllClosing?
    requires (forall i :: 0 <= i < |order| ==> order[i] in s.closers[p].todo) &&
             forall i, j :: 0 <= i < j < |order| ==> order[i] != order[j]
    decreases |order|
  {
    if order == [] then s
    else Turns(Apply(s, CloseNext(p, order[0], ok(order[0]))), p, order[1..], ok)
  }

  function Elements(order: seq<TableId>): set<TableId> {
    set t | t in order
  }

  /** The files of the order that close. */
  function Good(order: seq<TableId>, ok: TableId -> bool): set<TableId> {
    set t | t in order && ok(t)
  }

  lemma ElementsStep(order: seq<TableId>, ok: TableId -> bool)
    requires order != []
    ensures Elements(order) == {order[0]} + Elements(order[1..])
    ensures Good(order, ok) == (if ok(order[0]) then {order[0]} else {}) + Good(order[1..], ok)
  {
    assert order == [order[0]] + order[1..];
  }

  ghost predicate TurnsMade(s: State, r: State, p: nat, some: set<TableId>, good: set<TableId>)
    requires p in s.closers && s.closers[p].AllClosing?
  {
    && p in r.closers && r.m.files.Keys == s.m.files.Keys
    && r.closers[p] == AllClosing(s.closers[p].todo - some, s.closers[p].done + good)
  }

  lemma OneTurn(s: State, p: nat, t: TableId, ok: bool)
    requires Inv(s) && Enabled(s, CloseNext(p, t, ok))
    ensures var next := Apply(s, CloseNext(p, t, ok));
            Inv(next) && TurnsMade(s, next, p, {t}, if ok then {t} else {})
  {
    CloseNextKeeps(s, p, t, ok);
    assert s.closers[p].done + {} == s.closers[p].done;
  }

  lemma TurnsCompose(s: State, next: State, r: State, p: nat, t: TableId, some: set<TableId>, first: set<TableId>,
                     good: set<TableId>)
    requires p in s.closers && s.closers[p].AllClosing? && TurnsMade(s, next, p, {t}, first)
    requires TurnsMade(next, r, p, some, good)
    ensures TurnsMade(s, r, p, {t} + some, first + good)
  {
    var c := s.closers[p];
    assert c.todo - {t} - some == c.todo - ({t} + some) && c.done + first + good == c.done + (first + good);
  }

  lemma {:induction false} TurnsOutcome(s: State, p: nat, order: seq<TableId>, ok: TableId -> bool)
    requires Inv(s) && p in s.closers && s.closers[p].AllClosing?
    requires (forall i :: 0 <= i < |order| ==> order[i] in s.closers[p].todo) &&
             forall i, j :: 0 <= i < j < |order| ==> order[i] != order[j]
    ensures Inv(Turns(s, p, order, ok))
    ensures TurnsMade(s, Turns(s, p, order, ok), p, Elements(order), Good(order, ok))
    decreases |order|
  {
    if order != [] {
      var t := order[0];
      OneTurn(s, p, t, ok(t));
      var next := Apply(s, CloseNext(p, t, ok(t)));
      TurnsOutcome(next, p, order[1..], ok);
      ElementsStep(order, ok);
      TurnsCompose(s, next, Turns(next, p, order[1..], ok), p, t, Elements(order[1..]), if ok(t) then {t} else {},
          Good(order[1..], ok));
    } else {
      assert s.closers[p].todo - {} == s.closers[p].todo && s.closers[p].done + {} == s.closers[p].done;
      assert Elements(order) == {} && Good(order, ok) == {};
    }
  }

  /** close_all has ended: nobody is closing, and the files that are left are open. */
  ghost predicate AllEnded(now: State, left: set<TableId>) {
    && Inv(now) && now.closers == map[] && now.m.files.Keys == left
    && (forall t :: t in now.m.files ==> now.m.files[t]) && !now.m.closingAll && now.m.closing == {}
  }

  lemma EndAllOutcome(s: State, p: nat)
    requires Inv(s) && Enabled(s, EndAll(p))
    ensures AllEnded(Apply(s, EndAll(p)), s.m.files.Keys - s.closers[p].done)
  {
    EndAllKeeps(s, p);
    assert forall q :: q in s.closers ==> q == p;
    assert Apply(s, EndAll(p)).closers == map[];
  }

  lemma ProceedAllOutcome(s: State, p: nat)
    requires Inv(s) && Enabled(s, ProceedAll(p))
    ensures var now := Apply(s, ProceedAll(p));
            && Inv(now) && p in now.closers && now.closers[p] == AllClosing(s.m.files.Keys, {})
            && now.m.files == s.m.files
  {
    ProceedAllKeeps(s, p);
  }

  /** Once it is alone and nothing is leased, close_all closes every open file, in any order, and keeps exactly the
      ones whose own close failed; then leases and opens are served again. */
  lemma AllIsClosed(s: State, p: nat, order: seq<TableId>, ok: TableId -> bool) returns (start: State, end: State)
    requires Inv(s) && Enabled(s, ProceedAll(p))
    requires (forall i, j :: 0 <= i < j < |order| ==> order[i] != order[j]) && Elements(order) == s.m.files.Keys
    ensures start == Apply(s, ProceedAll(p)) && p in start.closers && start.closers[p].AllClosing?
    ensures (forall i :: 0 <= i < |order| ==> order[i] in start.closers[p].todo) && end == Turns(start, p, order, ok)
    ensures Enabled(end, EndAll(p)) && AllEnded(Apply(end, EndAll(p)), s.m.files.Keys - Good(order, ok))
  {
    start := Apply(s, ProceedAll(p));
    ProceedAllOutcome(s, p);
    forall i | 0 <= i < |order| ensures order[i] in start.closers[p].todo { assert order[i] in Elements(order); }
    TurnsOutcome(start, p, order, ok);
    end := Turns(start, p, order, ok);
    assert end.closers[p] == AllClosing({}, Good(order, ok)) by {
      assert s.m.files.Keys - Elements(order) == {} && {} + Good(order, ok) == Good(order, ok);
    }
    EndAllOutcome(end, p);
  }

  // ---------------------------------------------------------------- no deadlock

  /** A step of the closing thread p. */
  predicate StepOf(e: Event, p: nat) {
    match e
    case Proceed(q) => q == p
    case CloseFile(q, _) => q == p
    case EndClose(q) => q == p
    case ProceedAll(q) => q == p
    case CloseNext(q, _, _) => q == p
    case EndAll(q) => q == p
    case _ => false
  }

  lemma OneGoesOn(s: State, p: nat) returns (e: Event)
    requires Inv(s) && s.leases == multiset{} && p in s.closers && !IsAll(s.closers[p])
    ensures Enabled(s, e) && StepOf(e, p)
  {
    match s.closers[p]
    case Waiting(_) =>
      CloseWaitsForLeases(s, p);
      e := Proceed(p);
    case Closing(_) => e := CloseFile(p, true);
    case Closed(_, _) => e := EndClose(p);
  }

  lemma AllGoesOn(s: State, p: nat) returns (e: Event)
    requires Inv(s) && s.leases == multiset{} && p in s.closers && forall q :: q in s.closers ==> IsAll(s.closers[q])
    ensures Enabled(s, e) && StepOf(e, p)
  {
    assert forall q :: q in s.closers ==> q == p;
    assert s.closers.Keys == {p};
    match s.closers[p]
    case AllWaiting =>
      CloseAllWaits(s, p);
      e := ProceedAll(p);
    case AllClosing(todo, _) =>
      if todo == {} {
        e := EndAll(p);
      } else {
        var t :| t in todo;
        e := CloseNext(p, t, true);
      }
  }

  /** In every interleaving in which some thread is closing, once all leases are given back some closing thread can
      take its next step. */
  lemma ClosingNeverDeadlocks(events: seq<Event>) returns (p: nat, e: Event)
    requires Run(events).closers != map[] && Run(events).leases == multiset{}
    ensures Enabled(Run(events), e) && StepOf(e, p) && p in Run(events).closers
  {
    var s := Run(events);
    RunKeepsInv(events);
    if q :| q in s.closers && !IsAll(s.closers[q]) {
      p := q;
      e := OneGoesOn(s, q);
    } else {
      p :| p in s.closers;
      e := AllGoesOn(s, p);
    }
  }
}
