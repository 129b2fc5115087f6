/** Leases on open table files against closing them, as steps of a concurrent system (src/storage/file_manager.cpp). */
module Leases {
  type TableId = nat

  /** The fields of FileManager; a file maps to true while it is not closed. */
  datatype Fields = Fields(files: map<TableId, bool>, inFlight: map<TableId, nat>, closing: set<TableId>,
      closingAll: bool)

  /** Where a thread stands inside close_table_file or close_all. */
  datatype Closer =
    | Waiting(table: TableId)
    | Closing(table: TableId)
    | Closed(table: TableId, ok: bool)
    | AllWaiting
    | AllClosing(todo: set<TableId>, done: set<TableId>)

  /** The fields, the lease objects alive, and the threads that are closing. */
  datatype State = State(m: Fields, leases: multiset<TableId>, closers: map<nat, Closer>, terminated: bool)

  datatype Event =
    | Acquire(table: TableId)
    | Release(table: TableId)
    | Open(table: TableId)
    | BeginClose(thread: nat, table: TableId)
    | Proceed(thread: nat)
    | CloseFile(thread: nat, ok: bool)
    | EndClose(thread: nat)
    | BeginAll(thread: nat)
    | ProceedAll(thread: nat)
    | GiveUpAll(thread: nat)
    | CloseNext(thread: nat, table: TableId, ok: bool)
    | EndAll(thread: nat)

  const INITIAL: State := State(Fields(map[], map[], {}, false), multiset{}, map[], false)

  // ---------------------------------------------------------------- the lock regions

  predicate Refused(m: Fields, t: TableId) {
    m.closingAll || t in m.closing
  }

  /** acquire_file grants a lease only on an open file that nobody is closing. */
  predicate Grants(m: Fields, t: TableId) {
    !Refused(m, t) && t in m.files
  }

  function AcquireFields(m: Fields, t: TableId): Fields {
    if Grants(m, t) then m.(inFlight := m.inFlight[t := (if t in m.inFlight then m.inFlight[t] else 0) + 1]) else m
  }

  /** release_lease calls terminate when the count is missing. */
  predicate ReleaseFails(m: Fields, t: TableId) {
    t !in m.inFlight || m.inFlight[t] == 0
  }

  function ReleaseFields(m: Fields, t: TableId): Fields {
    if ReleaseFails(m, t) then m
    else if m.inFlight[t] == 1 then m.(inFlight := m.inFlight - {t})
    else m.(inFlight := m.inFlight[t := m.inFlight[t] - 1])
  }

  /** create_table_file and open_table_file, when the file can be opened. */
  function OpenFields(m: Fields, t: TableId): Fields {
    if Refused(m, t) || t in m.files then m else m.(files := m.files[t := true])
  }

  predicate StartsClose(m: Fields, t: TableId) {
    !Refused(m, t) && t in m.files
  }

  /** file->close(), made without the lock. */
  function CloseFields(m: Fields, t: TableId, ok: bool): Fields {
    if ok && t in m.files then m.(files := m.files[t := false]) else m
  }

  // ---------------------------------------------------------------- steps

  /** When a step can happen: waiting conditions, and the thread being there. */
  predicate Enabled(s: State, e: Event) {
    match e
    case Acquire(_) => true
    case Release(t) => t in s.leases
    case Open(_) => true
    case BeginClose(p, _) => p !in s.closers
    case Proceed(p) => p in s.closers && s.closers[p].Waiting? && s.closers[p].table !in s.m.inFlight
    case CloseFile(p, _) => p in s.closers && s.closers[p].Closing?
    case EndClose(p) => p in s.closers && s.closers[p].Closed?
    case BeginAll(p) => p !in s.closers
    case ProceedAll(p) => p in s.closers && s.closers[p].AllWaiting? && s.m.inFlight == map[] && s.m.closing == {}
    case GiveUpAll(p) =>
      p in s.closers && s.closers[p].AllWaiting? && s.m.inFlight == map[] && s.m.closing == {} && s.m.files == map[]
    case CloseNext(p, t, _) => p in s.closers && s.closers[p].AllClosing? && t in s.closers[p].todo
    case EndAll(p) => p in s.closers && s.closers[p].AllClosing? && s.closers[p].todo == {}
  }

  function Apply(s: State, e: Event): State
    requires Enabled(s, e)
  {
    match e
    case Acquire(t) =>
      s.(m := AcquireFields(s.m, t), leases := if Grants(s.m, t) then s.leases + multiset{t} else s.leases)
    case Release(t) =>
      s.(m := ReleaseFields(s.m, t), leases := s.leases - multiset{t},
          terminated := s.terminated || ReleaseFails(s.m, t))
    case Open(t) => s.(m := OpenFields(s.m, t))
    case BeginClose(p, t) =>
      s.(m := s.m.(closing := if StartsClose(s.m, t) then s.m.closing + {t} else s.m.closing),
         closers := if StartsClose(s.m, t) then s.closers[p := Waiting(t)] else s.closers)
    case Proceed(p) =>
      // the table must still be among the open files, or the process terminates
      s.(closers := s.closers[p := Closing(s.closers[p].table)],
         terminated := s.terminated || s.closers[p].table !in s.m.files)
    case CloseFile(p, ok) =>
      var t := s.closers[p].table;
      s.(m := CloseFields(s.m, t, ok), closers := s.closers[p := Closed(t, ok)])
    case EndClose(p) =>
      var t := s.closers[p].table;
      s.(m := s.m.(files := if s.closers[p].ok then s.m.files - {t} else s.m.files, closing := s.m.closing - {t}),
         closers := s.closers - {p})
    case BeginAll(p) =>
      s.(m := s.m.(closingAll := true), closers := if s.m.closingAll then s.closers else s.closers[p := AllWaiting])
    case ProceedAll(p) =>
      s.(m := s.m.(closing := s.m.files.Keys), closers := s.closers[p := AllClosing(s.m.files.Keys, {})])
    case GiveUpAll(p) => s.(m := s.m.(closingAll := false), closers := s.closers - {p})
    case CloseNext(p, t, ok) =>
      var c := s.closers[p];
      s.(m := CloseFields(s.m, t, ok),
         closers := s.closers[p := AllClosing(c.todo - {t}, if ok then c.done + {t} else c.done)])
    case EndAll(p) =>
      s.(m := s.m.(files := s.m.files - s.closers[p].done, closing := {}, closingAll := false),
         closers := s.closers - {p})
  }

  /** Any interleaving: events that cannot happen are skipped. */
  function Run(events: seq<Event>): State {
    if events == [] then INITIAL
    else
      var before, e := Run(events[..|events| - 1]), events[|events| - 1];
      if Enabled(before, e) then Apply(before, e) else before
  }

  // ---------------------------------------------------------------- invariant

  /** The count of a table is the number of its leases. */
  ghost predicate CountsMatch(s: State) {
    && (forall t :: t in s.m.inFlight ==> s.m.inFlight[t] > 0)
    && (forall t :: s.leases[t] == if t in s.m.inFlight then s.m.inFlight[t] else 0)
  }

  predicate IsAll(c: Closer) {
    c.AllWaiting? || c.AllClosing?
  }

  /** A leased file is present and not closed. */
  ghost predicate LeasedOpen(s: State) {
    forall t :: t in s.leases ==> t in s.m.files && s.m.files[t]
  }

  /** A thread closing one table owns its place in the closing set, and the file is there. */
  ghost predicate OneOk(s: State, p: nat)
    requires p in s.closers
  {
    var c := s.closers[p];
    !IsAll(c) ==>
      && c.table in s.m.closing && c.table in s.m.files
      && (!c.Waiting? ==> c.table !in s.leases)
      && (c.Waiting? || c.Closing? ==> s.m.files[c.table])
      && (c.Closed? && !c.ok ==> s.m.files[c.table])
  }

  ghost predicate OnesOk(s: State) {
    && (forall p :: p in s.closers ==> OneOk(s, p))
    && (forall p, q :: p in s.closers && q in s.closers && p != q && !IsAll(s.closers[p]) && !IsAll(s.closers[q]) ==>
          s.closers[p].table != s.closers[q].table)
  }

  /** The closing set holds nothing but what some thread is closing; a closed file is being closed. */
  ghost predicate ClosingOwned(s: State) {
    && (forall t :: t in s.m.closing ==> exists p :: p in s.closers && Owns(s.closers[p], t))
    && (forall t :: t in s.m.files && !s.m.files[t] ==> t in s.m.closing)
  }

  predicate Owns(c: Closer, t: TableId) {
    if c.AllWaiting? then false else if c.AllClosing? then true else c.table == t
  }

  /** close_all runs in one thread, and once it closes files it is alone and nothing is leased. */
  ghost predicate AllOk(s: State) {
    && (s.m.closingAll <==> exists p :: p in s.closers && IsAll(s.closers[p]))
    && (forall p, q :: p in s.closers && q in s.closers && IsAll(s.closers[p]) && IsAll(s.closers[q]) ==> p == q)
    && (forall p, q :: p in s.closers && s.closers[p].AllClosing? && q in s.closers ==> q == p)
    && (forall p :: p in s.closers && s.closers[p].AllClosing? ==>
          && s.leases == multiset{} && s.m.closing == s.m.files.Keys
          && s.closers[p].todo <= s.m.files.Keys && s.closers[p].done <= s.m.files.Keys
          && s.closers[p].todo !! s.closers[p].done
          && (forall t :: t in s.m.files ==> s.m.files[t] == (t !in s.closers[p].done)))
  }

  ghost predicate Inv(s: State) {
    !s.terminated && CountsMatch(s) && LeasedOpen(s) && OnesOk(s) && ClosingOwned(s) && AllOk(s)
  }

  // ---------------------------------------------------------------- the invariant is kept

  lemma AcquireKeeps(s: State, t: TableId)
    requires Inv(s)
    ensures Inv(Apply(s, Acquire(t)))
  {
    var s' := Apply(s, Acquire(t));
    if Grants(s.m, t) {
      assert s.m.files[t];
      forall p | p in s.closers ensures OneOk(s', p) && !s.closers[p].AllClosing? {
        assert OneOk(s, p);
        assert IsAll(s.closers[p]) ==> s.m.closingAll;
      }
      assert LeasedOpen(s') && CountsMatch(s') && OnesOk(s') && ClosingOwned(s') && AllOk(s');
    }
  }

  lemma ReleaseKeeps(s: State, t: TableId)
    requires Inv(s) && t in s.leases
    ensures Inv(Apply(s, Release(t))) && !ReleaseFails(s.m, t)
  {
    var s' := Apply(s, Release(t));
    assert s.leases[t] > 0;
    forall p | p in s.closers ensures OneOk(s', p) { assert OneOk(s, p); }
    assert forall q :: q in s'.leases ==> q in s.leases;
    assert CountsMatch(s') && LeasedOpen(s') && OnesOk(s') && ClosingOwned(s') && AllOk(s');
  }

  lemma OpenKeeps(s: State, t: TableId)
    requires Inv(s)
    ensures Inv(Apply(s, Open(t)))
  {
    var s' := Apply(s, Open(t));
    if !Refused(s.m, t) && t !in s.m.files {
      forall p | p in s.closers ensures OneOk(s', p) && !s.closers[p].AllClosing? {
        assert OneOk(s, p);
        assert IsAll(s.closers[p]) ==> s.m.closingAll;
      }
      assert CountsMatch(s') && LeasedOpen(s') && OnesOk(s') && ClosingOwned(s') && AllOk(s');
    }
  }

  lemma BeginCloseOnes(s: State, p: nat, t: TableId)
    requires Inv(s) && p !in s.closers && StartsClose(s.m, t)
    ensures OnesOk(Apply(s, BeginClose(p, t)))
  {
    var s' := Apply(s, BeginClose(p, t));
    assert s.m.files[t];
    forall q | q in s'.closers ensures OneOk(s', q) {
      if q != p {
        assert OneOk(s, q);
      }
    }
  }

  lemma BeginCloseAll(s: State, p: nat, t: TableId)
    requires Inv(s) && p !in s.closers && StartsClose(s.m, t)
    ensures AllOk(Apply(s, BeginClose(p, t)))
  {
    var s' := Apply(s, BeginClose(p, t));
    assert forall q :: q in s.closers ==> !IsAll(s.closers[q]);
    assert forall q :: q in s'.closers ==> !IsAll(s'.closers[q]);
  }

  lemma BeginCloseKeeps(s: State, p: nat, t: TableId)
    requires Inv(s) && p !in s.closers
    ensures Inv(Apply(s, BeginClose(p, t)))
  {
    if StartsClose(s.m, t) {
      BeginCloseOnes(s, p, t);
      BeginCloseAll(s, p, t);
      BeginCloseOwned(s, p, t);
    }
  }

  lemma BeginCloseOwned(s: State, p: nat, t: TableId)
    requires Inv(s) && p !in s.closers && StartsClose(s.m, t)
    ensures ClosingOwned(Apply(s, BeginClose(p, t)))
  {
    var s' := Apply(s, BeginClose(p, t));
    forall u | u in s'.m.closing ensures exists q :: q in s'.closers && Owns(s'.closers[q], u) {
      if u == t {
        assert Owns(s'.closers[p], u);
      } else {
        var q :| q in s.closers && Owns(s.closers[q], u);
        assert Owns(s'.closers[q], u);
      }
    }
  }

  /** Moving a thread on, from one stage of closing its table to the next. */
  lemma OwnedMoves(s: State, s': State, p: nat)
    requires p in s.closers && p in s'.closers && s'.closers == s.closers[p := s'.closers[p]]
    requires ClosingOwned(s) && s'.m.closing == s.m.closing
    requires forall t :: Owns(s.closers[p], t) ==> Owns(s'.closers[p], t)
    ensures forall t :: t in s'.m.closing ==> exists q :: q in s'.closers && Owns(s'.closers[q], t)
  {
    forall t | t in s'.m.closing ensures exists q :: q in s'.closers && Owns(s'.closers[q], t) {
      var q :| q in s.closers && Owns(s.closers[q], t);
      assert q in s'.closers && Owns(s'.closers[q], t);
    }
  }

  /** The other threads do not notice; p still closes the same table. */
  lemma OnesMove(s: State, s': State, p: nat)
    requires OnesOk(s) && p in s.closers && p in s'.closers && s'.closers == s.closers[p := s'.closers[p]]
    requires !IsAll(s.closers[p]) && !IsAll(s'.closers[p]) && s'.closers[p].table == s.closers[p].table && OneOk(s', p)
    requires s'.m.closing == s.m.closing && s'.leases == s.leases && s'.m.files.Keys == s.m.files.Keys
    requires forall t :: t in s.m.files && t != s.closers[p].table ==> s'.m.files[t] == s.m.files[t]
    ensures OnesOk(s')
  {
    forall q | q in s'.closers ensures OneOk(s', q) {
      if q != p {
        assert OneOk(s, q);
      }
    }
  }

  lemma ProceedKeeps(s: State, p: nat)
    requires Inv(s) && Enabled(s, Proceed(p))
    ensures Inv(Apply(s, Proceed(p))) && s.closers[p].table in s.m.files
  {
    var s' := Apply(s, Proceed(p));
    assert OneOk(s, p);
    assert s.leases[s.closers[p].table] == 0;
    OnesMove(s, s', p);
    OwnedMoves(s, s', p);
    AllMoves(s, s', p);
  }

  /** A thread closing one table leaves the state of close_all alone. */
  lemma AllMoves(s: State, s': State, p: nat)
    requires Inv(s) && p in s.closers && !IsAll(s.closers[p])
    requires p in s'.closers && s'.closers == s.closers[p := s'.closers[p]] && !IsAll(s'.closers[p])
    requires s'.m.closingAll == s.m.closingAll
    ensures AllOk(s')
  {
    assert forall q :: q in s.closers ==> !s.closers[q].AllClosing?;
    if s.m.closingAll {
      var q :| q in s.closers && IsAll(s.closers[q]);
      assert q in s'.closers && IsAll(s'.closers[q]);
    } else {
      assert forall q :: q in s'.closers ==> !IsAll(s'.closers[q]);
    }
  }

  lemma CloseFileKeeps(s: State, p: nat, ok: bool)
    requires Inv(s) && Enabled(s, CloseFile(p, ok))
    ensures Inv(Apply(s, CloseFile(p, ok)))
  {
    var s' := Apply(s, CloseFile(p, ok));
    assert OneOk(s, p);
    OnesMove(s, s', p);
    OwnedMoves(s, s', p);
    AllMoves(s, s', p);
  }

  lemma EndCloseKeeps(s: State, p: nat)
    requires Inv(s) && Enabled(s, EndClose(p))
    ensures Inv(Apply(s, EndClose(p)))
  {
    var s' := Apply(s, EndClose(p));
    var t := s.closers[p].table;
    assert OneOk(s, p);
    assert forall q :: q in s.closers ==> !s.closers[q].AllClosing?;
    forall q | q in s'.closers ensures OneOk(s', q) { assert OneOk(s, q); }
    EndCloseOwned(s, p);
    EndCloseAll(s, p);
    assert CountsMatch(s') && LeasedOpen(s') && OnesOk(s');
  }

  lemma EndCloseOwned(s: State, p: nat)
    requires Inv(s) && Enabled(s, EndClose(p))
    ensures ClosingOwned(Apply(s, EndClose(p)))
  {
    var s' := Apply(s, EndClose(p));
    var t := s.closers[p].table;
    assert OneOk(s, p);
    forall u | u in s'.m.closing ensures exists q :: q in s'.closers && Owns(s'.closers[q], u) {
      var q :| q in s.closers && Owns(s.closers[q], u);
      assert q != p;
      assert q in s'.closers && Owns(s'.closers[q], u);
    }
  }

  lemma EndCloseAll(s: State, p: nat)
    requires Inv(s) && Enabled(s, EndClose(p))
    ensures AllOk(Apply(s, EndClose(p)))
  {
    var s' := Apply(s, EndClose(p));
    assert forall q :: q in s.closers ==> !s.closers[q].AllClosing?;
    if s.m.closingAll {
      var q :| q in s.closers && IsAll(s.closers[q]);
      assert q in s'.closers && IsAll(s'.closers[q]);
    } else {
      assert forall q :: q in s'.closers ==> !IsAll(s'.closers[q]);
    }
  }

  lemma BeginAllOnes(s: State, p: nat)
    requires OnesOk(s) && p !in s.closers && !s.m.closingAll
    ensures OnesOk(Apply(s, BeginAll(p)))
  {
    var s' := Apply(s, BeginAll(p));
    forall q | q in s'.closers ensures OneOk(s', q) {
      if q != p {
        assert OneOk(s, q);
      }
    }
  }

  lemma BeginAllOwned(s: State, p: nat)
    requires ClosingOwned(s) && p !in s.closers && !s.m.closingAll
    ensures ClosingOwned(Apply(s, BeginAll(p)))
  {
    var s' := Apply(s, BeginAll(p));
    forall u | u in s'.m.closing ensures exists q :: q in s'.closers && Owns(s'.closers[q], u) {
      var q :| q in s.closers && Owns(s.closers[q], u);
      assert q in s'.closers && Owns(s'.closers[q], u);
    }
  }

  lemma BeginAllAlone(s: State, p: nat)
    requires AllOk(s) && p !in s.closers && !s.m.closingAll
    ensures AllOk(Apply(s, BeginAll(p)))
  {
    var s' := Apply(s, BeginAll(p));
    assert forall q :: q in s.closers ==> !IsAll(s.closers[q]);
    assert p in s'.closers && IsAll(s'.closers[p]);
  }

  lemma BeginAllKeeps(s: State, p: nat)
    requires Inv(s) && p !in s.closers
    ensures Inv(Apply(s, BeginAll(p)))
  {
    if s.m.closingAll {
      assert Apply(s, BeginAll(p)) == s;
    } else {
      BeginAllOnes(s, p);
      BeginAllOwned(s, p);
      BeginAllAlone(s, p);
    }
  }

  /** With an empty closing set only close_all itself is under way. */
  lemma OnlyAll(s: State, p: nat)
    requires Inv(s) && p in s.closers && IsAll(s.closers[p]) && s.m.closing == {}
    ensures forall q :: q in s.closers ==> q == p
  {
    forall q | q in s.closers ensures q == p { assert OneOk(s, q); }
  }

  lemma NoLeases(s: State)
    requires CountsMatch(s) && s.m.inFlight == map[]
    ensures s.leases == multiset{}
  {
    assert forall t :: s.leases[t] == 0;
  }

  lemma ProceedAllKeeps(s: State, p: nat)
    requires Inv(s) && Enabled(s, ProceedAll(p))
    ensures Inv(Apply(s, ProceedAll(p)))
  {
    var s' := Apply(s, ProceedAll(p));
    OnlyAll(s, p);
    NoLeases(s);
    assert p in s'.closers && IsAll(s'.closers[p]) && forall t :: Owns(s'.closers[p], t);
    assert forall t :: t in s.m.files ==> s.m.files[t];
    assert CountsMatch(s') && LeasedOpen(s') && OnesOk(s') && ClosingOwned(s') && AllOk(s');
  }

  lemma GiveUpAllKeeps(s: State, p: nat)
    requires Inv(s) && Enabled(s, GiveUpAll(p))
    ensures Inv(Apply(s, GiveUpAll(p)))
  {
    OnlyAll(s, p);
    assert Apply(s, GiveUpAll(p)).closers == map[];
  }

  lemma CloseNextKeeps(s: State, p: nat, t: TableId, ok: bool)
    requires Inv(s) && Enabled(s, CloseNext(p, t, ok))
    ensures Inv(Apply(s, CloseNext(p, t, ok)))
  {
    var s' := Apply(s, CloseNext(p, t, ok));
    assert forall q :: q in s'.closers ==> q == p;
    assert p in s'.closers && IsAll(s'.closers[p]) && forall u :: Owns(s'.closers[p], u);
    assert CountsMatch(s') && LeasedOpen(s') && OnesOk(s') && ClosingOwned(s') && AllOk(s');
  }

  lemma EndAllKeeps(s: State, p: nat)
    requires Inv(s) && Enabled(s, EndAll(p))
    ensures Inv(Apply(s, EndAll(p)))
  {
    var s' := Apply(s, EndAll(p));
    assert forall q :: q in s.closers ==> q == p;
    assert s'.closers == map[];
    assert CountsMatch(s') && LeasedOpen(s') && OnesOk(s') && ClosingOwned(s') && AllOk(s');
  }

  lemma StepKeepsInv(s: State, e: Event)
    requires Inv(s) && Enabled(s, e)
    ensures Inv(Apply(s, e))
  {
    match e
    case Acquire(t) => AcquireKeeps(s, t);
    case Release(t) => ReleaseKeeps(s, t);
    case Open(t) => OpenKeeps(s, t);
    case BeginClose(p, t) => BeginCloseKeeps(s, p, t);
    case Proceed(p) => ProceedKeeps(s, p);
    case CloseFile(p, ok) => CloseFileKeeps(s, p, ok);
    case EndClose(p) => EndCloseKeeps(s, p);
    case BeginAll(p) => BeginAllKeeps(s, p);
    case ProceedAll(p) => ProceedAllKeeps(s, p);
    case GiveUpAll(p) => GiveUpAllKeeps(s, p);
    case CloseNext(p, t, ok) => CloseNextKeeps(s, p, t, ok);
    case EndAll(p) => EndAllKeeps(s, p);
  }

  lemma {:induction false} RunKeepsInv(events: seq<Event>)
    ensures Inv(Run(events))
  {
    if events != [] {
      RunKeepsInv(events[..|events| - 1]);
      var before, e := Run(events[..|events| - 1]), events[|events| - 1];
      if Enabled(before, e) {
        StepKeepsInv(before, e);
      }
    }
  }

  // ---------------------------------------------------------------- lease safety

  /** In every interleaving: a leased table keeps its file present and not closed, and neither terminate is reached. */
  lemma LeaseSafety(events: seq<Event>, t: TableId)
    ensures t in Run(events).leases ==> t in Run(events).m.files && Run(events).m.files[t]
    ensures !Run(events).terminated
  {
    RunKeepsInv(events);
  }

  /** Some thread is inside close_table_file on t, or inside close_all. */
  ghost predicate BeingClosed(s: State, t: TableId) {
    exists p :: p in s.closers && Closes(s.closers[p], t)
  }

  predicate Closes(c: Closer, t: TableId) {
    IsAll(c) || c.table == t
  }

  /** What acquire_file tests is exactly what the threads are doing. */
  lemma RefusedIffBeingClosed(s: State, t: TableId)
    requires Inv(s)
    ensures Refused(s.m, t) <==> BeingClosed(s, t)
  {
    if BeingClosed(s, t) {
      var p :| p in s.closers && Closes(s.closers[p], t);
      assert OneOk(s, p);
    }
    if s.m.closingAll {
      var p :| p in s.closers && IsAll(s.closers[p]);
      assert Closes(s.closers[p], t);
    } else if t in s.m.closing {
      var p :| p in s.closers && Owns(s.closers[p], t);
      assert Closes(s.closers[p], t);
    }
  }

  /** In every interleaving no lease is granted while some thread is closing the table or everything, and on an
      open table that is the only reason to refuse one. */
  lemma NoLeaseWhileClosing(events: seq<Event>, t: TableId)
    ensures BeingClosed(Run(events), t) ==> Apply(Run(events), Acquire(t)) == Run(events)
    ensures t in Run(events).m.files ==> (Grants(Run(events).m, t) <==> !BeingClosed(Run(events), t))
  {
    RunKeepsInv(events);
    RefusedIffBeingClosed(Run(events), t);
  }

  /** A file is closed or removed only when nobody holds a lease on it. */
  lemma ClosesUnleased(s: State, e: Event, t: TableId)
    requires Inv(s) && Enabled(s, e) && t in s.m.files && s.m.files[t]
    requires t !in Apply(s, e).m.files || !Apply(s, e).m.files[t]
    ensures t !in s.leases
  {
    StepKeepsInv(s, e);
  }

  // ---------------------------------------------------------------- the object

  /** FileManager: each method is one lock region, or one close without the lock, and takes its step. The leases
      handed out and the places of the closing threads are ghost; a thread names itself by `p`. */
  class FileManager {
    var files: map<TableId, bool>
    var inFlight: map<TableId, nat>
    var closing: set<TableId>
    var closingAll: bool
    ghost var leases: multiset<TableId>
    ghost var closers: map<nat, Closer>

    ghost function Now(): State
      reads this
    {
      State(Fields(files, inFlight, closing, closingAll), leases, closers, false)
    }

    constructor ()
      ensures Now() == INITIAL && Inv(Now())
    {
      files, inFlight, closing, closingAll, leases, closers := map[], map[], {}, false, multiset{}, map[];
      new;
      RunKeepsInv([]);
    }

    /** acquire_file. */
    method AcquireFile(t: TableId) returns (granted: bool)
      requires Inv(Now())
      modifies this
      ensures Now() == Apply(old(Now()), Acquire(t)) && Inv(Now())
      ensures granted <==> t in old(files) && !old(BeingClosed(Now(), t))
      ensures leases == if granted then old(leases) + multiset{t} else old(leases)
    {
      AcquireKeeps(Now(), t);
      RefusedIffBeingClosed(Now(), t);
      if closingAll || t in closing || t !in files {
        return false;
      }
      inFlight := inFlight[t := (if t in inFlight then inFlight[t] else 0) + 1];
      leases := leases + multiset{t};
      return true;
    }

    /** release_lease on a live lease: the count is there, so terminate is not reached. */
    method ReleaseLease(t: TableId) returns (terminate: bool)
      requires Inv(Now()) && t in leases
      modifies this
      ensures !terminate
      ensures Now() == Apply(old(Now()), Release(t)) && Inv(Now())
    {
      ReleaseKeeps(Now(), t);
      if t !in inFlight || inFlight[t] == 0 {
        return true;
      }
      inFlight := if inFlight[t] == 1 then inFlight - {t} else inFlight[t := inFlight[t] - 1];
      leases := leases - multiset{t};
      return false;
    }

    /** create_table_file and open_table_file; `opens` tells whether the file itself can be opened. */
    method OpenTableFile(t: TableId, opens: bool)
      requires Inv(Now())
      modifies this
      ensures Now() == if opens then Apply(old(Now()), Open(t)) else old(Now())
      ensures Inv(Now())
    {
      OpenKeeps(Now(), t);
      if closingAll || t in closing || t in files || !opens {
        return;
      }
      files := files[t := true];
    }

    /** The first lock region of close_table_file, up to its wait. */
    method BeginCloseTable(t: TableId, ghost p: nat) returns (waiting: bool)
      requires Inv(Now()) && p !in closers
      modifies this
      ensures Now() == Apply(old(Now()), BeginClose(p, t)) && Inv(Now())
      ensures waiting <==> p in closers
    {
      BeginCloseKeeps(Now(), p, t);
      if closingAll || t in closing || t !in files {
        return false;
      }
      closing := closing + {t};
      closers := closers[p := Waiting(t)];
      return true;
    }

    /** The region of close_table_file after its wait: the file is still there, so terminate is not reached. */
    method ProceedClose(t: TableId, ghost p: nat) returns (terminate: bool)
      requires Inv(Now()) && p in closers && closers[p] == Waiting(t) && t !in inFlight
      modifies this
      ensures !terminate
      ensures Now() == Apply(old(Now()), Proceed(p)) && Inv(Now())
    {
      ProceedKeeps(Now(), p);
      terminate := t !in files;
      closers := closers[p := Closing(t)];
    }

    /** The close of the file itself. */
    method CloseTableFile(t: TableId, ok: bool, ghost p: nat)
      requires Inv(Now()) && p in closers && closers[p] == Closing(t)
      modifies this
      ensures Now() == Apply(old(Now()), CloseFile(p, ok)) && Inv(Now())
    {
      CloseFileKeeps(Now(), p, ok);
      if ok && t in files {
        files := files[t := false];
      }
      closers := closers[p := Closed(t, ok)];
    }

    /** The last lock region of close_table_file. */
    method EndCloseTable(t: TableId, ok: bool, ghost p: nat)
      requires Inv(Now()) && p in closers && closers[p] == Closed(t, ok)
      modifies this
      ensures Now() == Apply(old(Now()), EndClose(p)) && Inv(Now())
    {
      EndCloseKeeps(Now(), p);
      if ok {
        files := files - {t};
      }
      closing := closing - {t};
      closers := closers - {p};
    }

    /** The first lock region of close_all, up to its wait. */
    method BeginCloseAll(ghost p: nat) returns (waiting: bool)
      requires Inv(Now()) && p !in closers
      modifies this
      ensures Now() == Apply(old(Now()), BeginAll(p)) && Inv(Now())
      ensures waiting <==> p in closers
    {
      BeginAllKeeps(Now(), p);
      if closingAll {
        return false;
      }
      closingAll := true;
      closers := closers[p := AllWaiting];
      return true;
    }

    /** The region of close_all after its wait, which marks every open file. */
    method MarkAllClosing(ghost p: nat) returns (all: set<TableId>)
      requires Inv(Now()) && Enabled(Now(), ProceedAll(p))
      modifies this
      ensures Now() == Apply(old(Now()), ProceedAll(p)) && Inv(Now())
      ensures all == closers[p].todo
    {
      ProceedAllKeeps(Now(), p);
      all := files.Keys;
      closing := all;
      closers := closers[p := AllClosing(all, {})];
    }

    /** The exit of close_all for the injected failure, when no file is open. */
    method GiveUpCloseAll(ghost p: nat)
      requires Inv(Now()) && Enabled(Now(), GiveUpAll(p))
      modifies this
      ensures Now() == Apply(old(Now()), GiveUpAll(p)) && Inv(Now())
    {
      GiveUpAllKeeps(Now(), p);
      closingAll := false;
      closers := closers - {p};
    }

    /** One turn of the loop of close_all. */
    method CloseOneOfAll(t: TableId, ok: bool, ghost p: nat)
      requires Inv(Now()) && Enabled(Now(), CloseNext(p, t, ok))
      modifies this
      ensures Now() == Apply(old(Now()), CloseNext(p, t, ok)) && Inv(Now())
    {
      CloseNextKeeps(Now(), p, t, ok);
      if ok && t in files {
        files := files[t := false];
      }
      closers := closers[p := AllClosing(closers[p].todo - {t}, if ok then closers[p].done + {t} else closers[p].done)];
    }

    /** The last lock region of close_all; `done` are the files that were closed. */
    method EndCloseAll(done: set<TableId>, ghost p: nat)
      requires Inv(Now()) && Enabled(Now(), EndAll(p)) && closers[p].done == done
      modifies this
      ensures Now() == Apply(old(Now()), EndAll(p)) && Inv(Now())
    {
      EndAllKeeps(Now(), p);
      files, closing, closingAll := files - done, {}, false;
      closers := closers - {p};
    }
  }
}
