/** The one-database-per-process slot (src/core/database.cpp), over any number of Database objects. */
module DatabaseSlot {
  import opened Common

  type Id = nat

  /** The fields of Database::Impl that matter for the slot. */
  datatype Impl = Impl(open: bool, forcedClose: bool, retryCleanup: bool)

  const FRESH: Impl := Impl(false, false, false)

  /** The objects alive, a moved-from one without an Impl, and the process-wide flag. */
  datatype State = State(objects: map<Id, Option<Impl>>, slot: bool)

  /** What close_storage reports: done (or nothing to close), or a failure that has to be retried. */
  datatype Closing = Done | Failed

  datatype Event =
    | Construct(id: Id)
    | Open(id: Id, storage: Opening)
    | Close(id: Id, closing: Closing)
    | StorageAbort(id: Id, closing: Closing)
    | MoveConstruct(id: Id, other: Id)
    | MoveAssign(id: Id, other: Id, closing: Closing)
    | Destroy(id: Id)

  /** Opening the storage: everything restored, refused without effect, or failed with something to close. */
  datatype Opening = Restored | Refused | Broken(cleanup: Closing)

  predicate Owns(i: Impl) {
    i.open || i.retryCleanup
  }

  predicate Alive(s: State, id: Id) {
    id in s.objects && s.objects[id].Some?
  }

  /** Calls on live objects; a storage abort happens inside a call on an open or already aborted object. */
  predicate Enabled(s: State, e: Event) {
    match e
    case Construct(id) => id !in s.objects
    case Open(id, _) => id in s.objects
    case Close(id, _) => id in s.objects
    case StorageAbort(id, _) => Alive(s, id) && (s.objects[id].value.open || s.objects[id].value.forcedClose)
    case MoveConstruct(id, other) => id !in s.objects && other in s.objects
    case MoveAssign(id, other, _) => id in s.objects && other in s.objects
    case Destroy(id) => id in s.objects
  }

  function Put(s: State, id: Id, i: Impl, slot: bool): State {
    State(s.objects[id := Some(i)], slot)
  }

  /** A close that has to be retried keeps the slot. */
  const PENDING: Impl := Impl(false, true, true)

  /** One object's Impl and the process-wide flag. */
  datatype Held = Held(impl: Option<Impl>, slot: bool)

  /** Database::open. */
  function OpenCall(h: Held, storage: Opening): Held {
    if h.impl.None? || h.impl.value.open || h.impl.value.forcedClose || h.slot then h
    else
      match storage
      case Restored => Held(Some(Impl(true, false, false)), true)
      case Refused => Held(Some(FRESH), false)
      case Broken(Done) => Held(Some(FRESH), false)
      case Broken(Failed) => Held(Some(PENDING), true)
  }

  /** Database::close. */
  function CloseCall(h: Held, closing: Closing): Held {
    if h.impl.None? then h
    else
      var i := h.impl.value;
      if i.open || i.retryCleanup then
        if closing.Done? then Held(Some(FRESH), false) else Held(Some(PENDING), h.slot)
      else Held(Some(i.(forcedClose := false)), h.slot)
  }

  /** abort_after_storage_exception. */
  function AbortCall(h: Held, closing: Closing): Held
    requires h.impl.Some?
  {
    var i := h.impl.value;
    if !i.open && i.forcedClose then h
    else if closing.Done? then Held(Some(Impl(false, true, false)), if i.open then false else h.slot)
    else Held(Some(PENDING), h.slot)
  }

  function View(s: State, id: Id): Held
    requires id in s.objects
  {
    Held(s.objects[id], s.slot)
  }

  function Place(s: State, id: Id, h: Held): State {
    State(s.objects[id := h.impl], h.slot)
  }

  /** Move assignment: the target closes first, and keeps its own state when that has to be retried. */
  function MoveAssignStep(s: State, id: Id, other: Id, closing: Closing): State
    requires id in s.objects && other in s.objects
  {
    if id == other then s
    else if s.objects[id].Some? && Owns(s.objects[id].value) then
      if closing.Failed? then Put(s, id, PENDING, s.slot)
      else State(s.objects[id := s.objects[other]][other := None], false)
    else State(s.objects[id := s.objects[other]][other := None], s.slot)
  }

  function Apply(s: State, e: Event): State
    requires Enabled(s, e)
  {
    match e
    case Construct(id) => Put(s, id, FRESH, s.slot)
    case Open(id, storage) => Place(s, id, OpenCall(View(s, id), storage))
    case Close(id, closing) => Place(s, id, CloseCall(View(s, id), closing))
    case StorageAbort(id, closing) => Place(s, id, AbortCall(View(s, id), closing))
    case MoveConstruct(id, other) => State(s.objects[id := s.objects[other]][other := None], s.slot)
    case MoveAssign(id, other, closing) => MoveAssignStep(s, id, other, closing)
    case Destroy(id) =>
      State(s.objects - {id}, if s.objects[id].Some? && Owns(s.objects[id].value) then false else s.slot)
  }

  /** Calls made after a state; those that cannot happen are skipped. */
  function RunFrom(s: State, events: seq<Event>): State {
    if events == [] then s
    else
      var before, e := RunFrom(s, events[..|events| - 1]), events[|events| - 1];
      if Enabled(before, e) then Apply(before, e) else before
  }

  /** Any sequence of calls in a process that starts without databases. */
  function Run(events: seq<Event>): State {
    RunFrom(State(map[], false), events)
  }

  // ---------------------------------------------------------------- who holds the slot

  predicate Holds(s: State, id: Id) {
    Alive(s, id) && Owns(s.objects[id].value)
  }

  /** The flag is set exactly when some object holds the slot, and at most one does. */
  ghost predicate Inv(s: State) {
    && (forall a, b :: Holds(s, a) && Holds(s, b) ==> a == b)
    && (s.slot <==> exists a :: Holds(s, a))
    && (forall a :: Alive(s, a) ==> ImplOk(s.objects[a].value))
  }

  predicate ImplOk(i: Impl) {
    (i.open ==> !i.forcedClose && !i.retryCleanup) && (i.retryCleanup ==> i.forcedClose)
  }

  /** Changing one object, when the flag follows it. */
  lemma PutKeeps(s: State, id: Id, i: Impl, slot: bool)
    requires Inv(s) && ImplOk(i)
    requires Owns(i) ==> slot && (Holds(s, id) || !s.slot)
    requires !Owns(i) ==> slot == (s.slot && !Holds(s, id))
    ensures Inv(Put(s, id, i, slot))
  {
    var s' := Put(s, id, i, slot);
    assert forall a :: a != id ==> Holds(s', a) == Holds(s, a);
    assert Holds(s', id) == Owns(i);
    if Owns(i) {
      assert Holds(s', id);
    } else if slot {
      var a :| Holds(s, a);
      assert Holds(s', a);
    }
  }

  lemma OpenKeeps(s: State, id: Id, storage: Opening)
    requires Inv(s) && id in s.objects
    ensures Inv(Place(s, id, OpenCall(View(s, id), storage)))
  {
    assert s.objects[id := s.objects[id]] == s.objects;
    if s.objects[id].Some? && !s.objects[id].value.open && !s.objects[id].value.forcedClose && !s.slot {
      assert !Holds(s, id);
      match storage
      case Restored => PutKeeps(s, id, Impl(true, false, false), true);
      case Refused => PutKeeps(s, id, FRESH, false);
      case Broken(Done) => PutKeeps(s, id, FRESH, false);
      case Broken(Failed) => PutKeeps(s, id, PENDING, true);
    }
  }

  lemma CloseKeeps(s: State, id: Id, closing: Closing)
    requires Inv(s) && id in s.objects
    ensures Inv(Place(s, id, CloseCall(View(s, id), closing)))
  {
    assert s.objects[id := s.objects[id]] == s.objects;
    if s.objects[id].Some? {
      assert Alive(s, id);
      var i := s.objects[id].value;
      if i.open || i.retryCleanup {
        assert Holds(s, id);
        PutKeeps(s, id, if closing.Done? then FRESH else PENDING, if closing.Done? then false else s.slot);
      } else {
        PutKeeps(s, id, i.(forcedClose := false), s.slot);
      }
    }
  }

  lemma AbortKeeps(s: State, id: Id, closing: Closing)
    requires Inv(s) && Enabled(s, StorageAbort(id, closing))
    ensures Inv(Place(s, id, AbortCall(View(s, id), closing)))
  {
    assert s.objects[id := s.objects[id]] == s.objects;
    var i := s.objects[id].value;
    if i.open {
      assert Holds(s, id);
      PutKeeps(s, id, if closing.Done? then Impl(false, true, false) else PENDING,
          if closing.Done? then false else s.slot);
    }
  }

  /** Handing an Impl over moves the slot with it. */
  lemma MoveKeeps(s: State, id: Id, other: Id, slot: bool)
    requires Inv(s) && other in s.objects && id != other
    requires if Holds(s, id) then !slot else slot == s.slot
    ensures Inv(State(s.objects[id := s.objects[other]][other := None], slot))
  {
    var s' := State(s.objects[id := s.objects[other]][other := None], slot);
    assert forall a :: a != id && a != other ==> Holds(s', a) == Holds(s, a);
    assert !Holds(s', other) && Holds(s', id) == Holds(s, other);
    if slot {
      var a :| Holds(s, a);
      assert Holds(s', if a == other then id else a);
    }
  }

  lemma DestroyKeeps(s: State, id: Id)
    requires Inv(s) && id in s.objects
    ensures Inv(Apply(s, Destroy(id)))
  {
    var s' := Apply(s, Destroy(id));
    assert forall a :: Holds(s', a) == (a != id && Holds(s, a));
    assert Holds(s, id) == (s.objects[id].Some? && Owns(s.objects[id].value));
    forall a | Holds(s', a) ensures s'.slot {
      assert Holds(s, a);
    }
    if s'.slot {
      var a :| Holds(s, a);
      assert Holds(s', a);
    }
  }

  lemma StepKeepsInv(s: State, e: Event)
    requires Inv(s) && Enabled(s, e)
    ensures Inv(Apply(s, e))
  {
    match e
    case Construct(id) => PutKeeps(s, id, FRESH, s.slot);
    case Open(id, storage) => OpenKeeps(s, id, storage);
    case Close(id, closing) => CloseKeeps(s, id, closing);
    case StorageAbort(id, closing) => AbortKeeps(s, id, closing);
    case MoveConstruct(id, other) => MoveKeeps(s, id, other, s.slot);
    case MoveAssign(id, other, closing) =>
      if id != other {
        if Holds(s, id) && closing.Failed? {
          PutKeeps(s, id, PENDING, s.slot);
        } else {
          MoveKeeps(s, id, other, if Holds(s, id) then false else s.slot);
        }
      }
    case Destroy(id) => DestroyKeeps(s, id);
  }

  /** After any sequence of calls the slot is held exactly when one object is open or has a cleanup to
      retry, and never by two. */
  lemma {:induction false} SlotHasOneOwner(events: seq<Event>)
    ensures Inv(Run(events))
  {
    if events != [] {
      SlotHasOneOwner(events[..|events| - 1]);
      var before, e := Run(events[..|events| - 1]), events[|events| - 1];
      if Enabled(before, e) {
        StepKeepsInv(before, e);
      }
    }
  }

  // ---------------------------------------------------------------- what the calls do

  predicate IsOpen(s: State, id: Id) {
    Alive(s, id) && s.objects[id].value.open
  }

  /** An object with no Impl left to close, which may be opened again. */
  predicate IsClosed(s: State, id: Id) {
    Alive(s, id) && !s.objects[id].value.open && !s.objects[id].value.forcedClose && !s.objects[id].value.retryCleanup
  }

  /** An object that can do nothing before a close: its storage may still be open when the slot is kept. */
  predicate MustClose(s: State, id: Id, retry: bool) {
    && Alive(s, id) && !s.objects[id].value.open && s.objects[id].value.forcedClose
    && s.objects[id].value.retryCleanup == retry
  }

  ghost predicate OnlyObject(s: State, t: State, id: Id) {
    id in t.objects && t.objects == s.objects[id := t.objects[id]]
  }

  ghost predicate SlotIsFree(s: State) {
    forall a :: !Holds(s, a)
  }

  lemma FlagSaysFree(s: State)
    requires Inv(s)
    ensures s.slot <==> !SlotIsFree(s)
  {
  }

  /**
   Opening succeeds exactly when the object is closed, no object holds the slot and the storage comes up; then the
   object is open and holds the slot. A failed start leaves it closed, and keeps the slot only when the storage
   could not be closed again. Any other open changes nothing.
   */
  lemma OpenOutcome(s: State, id: Id, storage: Opening)
    requires Inv(s) && Enabled(s, Open(id, storage))
    ensures var t := Apply(s, Open(id, storage));
            if IsClosed(s, id) && SlotIsFree(s) then
              && OnlyObject(s, t, id)
              && (storage.Restored? ==> IsOpen(t, id) && Holds(t, id) && t.slot)
              && (storage.Refused? || storage == Broken(Done) ==> IsClosed(t, id) && SlotIsFree(t) && !t.slot)
              && (storage == Broken(Failed) ==> MustClose(t, id, true) && Holds(t, id) && t.slot)
            else t == s
  {
    var t := Apply(s, Open(id, storage));
    StepKeepsInv(s, Open(id, storage));
    assert Alive(s, id) ==> ImplOk(s.objects[id].value);
    FlagSaysFree(s);
    FlagSaysFree(t);
    assert s.objects[id := s.objects[id]] == s.objects;
  }

  /**
   A close that reaches the storage leaves the object closed and the slot free, or, when the storage cannot be closed,
   waiting for another close with the slot kept. Without a storage to close it only lifts the demand for a close.
   */
  lemma CloseOutcome(s: State, id: Id, closing: Closing)
    requires Inv(s) && Enabled(s, Close(id, closing))
    ensures var t := Apply(s, Close(id, closing));
            && OnlyObject(s, t, id)
            && (Holds(s, id) && closing.Done? ==> IsClosed(t, id) && SlotIsFree(t) && !t.slot)
            && (Holds(s, id) && closing.Failed? ==> MustClose(t, id, true) && Holds(t, id) && t.slot)
            && (Alive(s, id) && !Holds(s, id) ==> IsClosed(t, id) && t.slot == s.slot)
            && (!Alive(s, id) ==> t == s)
  {
    var t := Apply(s, Close(id, closing));
    StepKeepsInv(s, Close(id, closing));
    assert Alive(s, id) ==> ImplOk(s.objects[id].value);
    FlagSaysFree(t);
    assert Holds(s, id) ==> s.slot;
    assert s.objects[id := s.objects[id]] == s.objects;
  }

  /** A storage exception closes an open object for good: it must be closed, and keeps the slot only for a retry. */
  lemma AbortOutcome(s: State, id: Id, closing: Closing)
    requires Inv(s) && Enabled(s, StorageAbort(id, closing))
    ensures var t := Apply(s, StorageAbort(id, closing));
            if IsOpen(s, id) then
              && OnlyObject(s, t, id) && MustClose(t, id, closing.Failed?)
              && (closing.Done? ==> SlotIsFree(t) && !t.slot) && (closing.Failed? ==> Holds(t, id) && t.slot)
            else t == s
  {
    var t := Apply(s, StorageAbort(id, closing));
    StepKeepsInv(s, StorageAbort(id, closing));
    FlagSaysFree(t);
    assert Holds(s, id) ==> s.slot;
    assert s.objects[id := s.objects[id]] == s.objects;
  }

  /** The moved-to object takes the whole state of the other one, which is left without any. */
  ghost predicate HandedOver(s: State, t: State, id: Id, other: Id) {
    && id in t.objects && other in s.objects && t.objects[id] == s.objects[other]
    && t.objects == s.objects[id := t.objects[id]][other := None]
  }

  lemma MoveOutcome(s: State, id: Id, other: Id)
    requires Inv(s) && Enabled(s, MoveConstruct(id, other))
    ensures var t := Apply(s, MoveConstruct(id, other));
            && HandedOver(s, t, id, other) && !Alive(t, other) && t.slot == s.slot
            && (IsOpen(s, other) <==> IsOpen(t, id)) && (Holds(s, other) <==> Holds(t, id))
  {
  }

  /** Move assignment closes the target first; when that fails nothing is handed over. */
  lemma MoveAssignOutcome(s: State, id: Id, other: Id, closing: Closing)
    requires Inv(s) && Enabled(s, MoveAssign(id, other, closing))
    ensures var t := Apply(s, MoveAssign(id, other, closing));
            if id == other then t == s
            else if Holds(s, id) && closing.Failed? then
              OnlyObject(s, t, id) && MustClose(t, id, true) && Holds(t, id) && t.slot
            else
              && HandedOver(s, t, id, other) && !Alive(t, other) && (IsOpen(s, other) <==> IsOpen(t, id))
              && (t.slot <==> s.slot && !Holds(s, id))
  {
    assert Holds(s, id) ==> s.slot;
  }

  lemma DestroyOutcome(s: State, id: Id)
    requires Inv(s) && Enabled(s, Destroy(id))
    ensures var t := Apply(s, Destroy(id));
            t.objects == s.objects - {id} && (t.slot <==> s.slot && !Holds(s, id))
  {
  }

  /** The call ends the object's hold on the database. */
  predicate EndsHold(e: Event, id: Id) {
    match e
    case Close(a, _) => a == id
    case StorageAbort(a, _) => a == id
    case MoveConstruct(a, other) => other == id
    case MoveAssign(a, other, _) => a == id || other == id
    case Destroy(a) => a == id
    case _ => false
  }

  lemma OthersKeepOpen(s: State, e: Event, id: Id)
    requires Inv(s) && IsOpen(s, id) && Enabled(s, e) && !EndsHold(e, id)
    ensures IsOpen(Apply(s, e), id)
  {
    assert Holds(s, id);
    match e
    case Open(a, storage) => OpenOutcome(s, a, storage);
    case Close(a, closing) => CloseOutcome(s, a, closing);
    case StorageAbort(a, closing) => AbortOutcome(s, a, closing);
    case MoveAssign(a, other, closing) => MoveAssignOutcome(s, a, other, closing);
    case _ =>
  }

  /**
   Once an object is open it stays open and every open of any object is refused without effect, whatever the other
   objects do, until the object itself is closed, aborted, moved or destroyed.
   */
  lemma {:induction false} OpenShutsOthersOut(s: State, id: Id, events: seq<Event>)
    requires Inv(s) && IsOpen(s, id)
    requires forall i :: 0 <= i < |events| ==> !EndsHold(events[i], id)
    ensures Inv(RunFrom(s, events)) && IsOpen(RunFrom(s, events), id) && RunFrom(s, events).slot
    ensures forall other, storage | other in RunFrom(s, events).objects ::
              Apply(RunFrom(s, events), Open(other, storage)) == RunFrom(s, events)
  {
    if events != [] {
      OpenShutsOthersOut(s, id, events[..|events| - 1]);
      var before, e := RunFrom(s, events[..|events| - 1]), events[|events| - 1];
      if Enabled(before, e) {
        OthersKeepOpen(before, e, id);
        StepKeepsInv(before, e);
      }
    }
    var t := RunFrom(s, events);
    assert Holds(t, id);
    forall other, storage | other in t.objects ensures Apply(t, Open(other, storage)) == t {
      OpenOutcome(t, other, storage);
    }
  }

  /** After a successful close every closed object, this one included, can be opened. */
  lemma CloseLetsOthersIn(s: State, id: Id, other: Id)
    requires Inv(s) && IsOpen(s, id) && (other == id || IsClosed(s, other))
    ensures var t := Apply(s, Close(id, Done));
            Enabled(t, Open(other, Restored)) && IsOpen(Apply(t, Open(other, Restored)), other)
  {
    CloseOutcome(s, id, Done);
    StepKeepsInv(s, Close(id, Done));
    assert Holds(s, id);
    OpenOutcome(Apply(s, Close(id, Done)), other, Restored);
  }

  /** After a storage exception whose cleanup succeeded another object can be opened at once, this one after a close. */
  lemma AbortLetsOthersIn(s: State, id: Id, other: Id)
    requires Inv(s) && IsOpen(s, id) && IsClosed(s, other)
    ensures var t := Apply(s, StorageAbort(id, Done));
            && Apply(t, Open(id, Restored)) == t
            && IsOpen(Apply(t, Open(other, Restored)), other)
            && IsOpen(Apply(Apply(t, Close(id, Done)), Open(id, Restored)), id)
  {
    var t := Apply(s, StorageAbort(id, Done));
    AbortOutcome(s, id, Done);
    StepKeepsInv(s, StorageAbort(id, Done));
    OpenOutcome(t, id, Restored);
    OpenOutcome(t, other, Restored);
    CloseOutcome(t, id, Done);
    StepKeepsInv(t, Close(id, Done));
    FlagSaysFree(t);
    FlagSaysFree(Apply(t, Close(id, Done)));
    OpenOutcome(Apply(t, Close(id, Done)), id, Restored);
  }

  // ---------------------------------------------------------------- the objects

  /** The process-wide flag behind try_acquire_database_slot and release_database_slot. */
  class ProcessSlot {
    var held: bool

    constructor ()
      ensures !held
    {
      held := false;
    }

    method TryAcquire() returns (ok: bool)
      modifies this
      ensures ok == !old(held) && held
    {
      ok := !held;
      held := true;
    }

    method Release()
      modifies this
      ensures !held
    {
      held := false;
    }
  }

  /** Database, as far as the slot is concerned; a moved-from object has no Impl. */
  class Database {
    var alive: bool
    var open: bool
    var forcedClose: bool
    var retryCleanup: bool

    ghost function Current(): Option<Impl>
      reads this
    {
      if alive then Some(Impl(open, forcedClose, retryCleanup)) else None
    }

    ghost predicate Valid()
      reads this
    {
      alive ==> ImplOk(Impl(open, forcedClose, retryCleanup))
    }

    constructor ()
      ensures Valid() && Current() == Some(FRESH)
    {
      alive, open, forcedClose, retryCleanup := true, false, false, false;
    }

    /** Impl::clear. */
    method Clear()
      modifies this`open, this`retryCleanup
      ensures !open && !retryCleanup
    {
      open, retryCleanup := false, false;
    }

    method OpenDatabase(slot: ProcessSlot, storage: Opening) returns (ok: bool)
      requires Valid()
      modifies this, slot
      ensures Valid()
      ensures Held(Current(), slot.held) == OpenCall(Held(old(Current()), old(slot.held)), storage)
      ensures ok <==> old(alive && !open && !forcedClose && !slot.held) && storage.Restored?
      ensures ok ==> alive && open && !forcedClose && !retryCleanup && slot.held
      ensures old(!alive || open || forcedClose || slot.held) ==>
                open == old(open) && forcedClose == old(forcedClose) && retryCleanup == old(retryCleanup) &&
                slot.held == old(slot.held)
      ensures !ok && old(alive && !open && !forcedClose && !slot.held) ==>
                !open && forcedClose == retryCleanup == slot.held == (storage == Broken(Failed))
    {
      if !alive || open || forcedClose {
        return false;
      }
      var acquired := slot.TryAcquire();
      if !acquired {
        return false;
      }
      if storage.Restored? {
        open, forcedClose, retryCleanup := true, false, false;
        return true;
      }
      var retry := storage.Broken? && storage.cleanup.Failed?;
      Clear();
      forcedClose, retryCleanup := retry, retry;
      if !retry {
        slot.Release();
      }
      ok := false;
    }

    method CloseDatabase(slot: ProcessSlot, closing: Closing) returns (ok: bool)
      requires Valid()
      modifies this, slot
      ensures Valid()
      ensures Held(Current(), slot.held) == CloseCall(Held(old(Current()), old(slot.held)), closing)
      ensures ok <==> old(alive) && (old(open || retryCleanup) ==> closing.Done?) && old(open || forcedClose)
      ensures ok ==> !open && !forcedClose && !retryCleanup
      ensures ok ==> slot.held == (old(slot.held) && !old(open || retryCleanup))
      ensures !ok && old(alive && (open || retryCleanup)) ==>
                !open && forcedClose && retryCleanup && slot.held == old(slot.held)
    {
      if !alive {
        return false;
      }
      if !open {
        if !forcedClose {
          return false;
        }
        if retryCleanup {
          if closing.Failed? {
            return false;
          }
          retryCleanup, forcedClose := false, false;
          slot.Release();
          return true;
        }
        forcedClose := false;
        return true;
      }
      Clear();
      if closing.Failed? {
        forcedClose, retryCleanup := true, true;
        return false;
      }
      forcedClose := false;
      slot.Release();
      ok := true;
    }

    method AbortAfterStorageException(slot: ProcessSlot, closing: Closing)
      requires alive
      requires Valid()
      modifies this, slot
      ensures Valid()
      ensures Held(Current(), slot.held) == AbortCall(Held(old(Current()), old(slot.held)), closing)
      ensures old(open) ==> !open && forcedClose && retryCleanup == closing.Failed?
      ensures old(open) ==> slot.held == (old(slot.held) && closing.Failed?)
    {
      if !open && forcedClose {
        return;
      }
      var owned := open;
      Clear();
      forcedClose, retryCleanup := true, closing.Failed?;
      if owned && closing.Done? {
        slot.Release();
      }
    }

    /** The destructor: best-effort cleanup, and the slot is released by its owner. */
    method Destroy(slot: ProcessSlot)
      requires Valid()
      modifies this, slot
      ensures Valid()
      ensures slot.held == (old(slot.held) && !(old(alive) && old(open || retryCleanup)))
      ensures alive == old(alive) && (alive ==> !open && !forcedClose && !retryCleanup)
    {
      if !alive {
        return;
      }
      var owns := open || retryCleanup;
      Clear();
      forcedClose := false;
      if owns {
        slot.Release();
      }
    }

    /** Move assignment from another object. */
    method MoveFrom(other: Database, slot: ProcessSlot, closing: Closing)
      requires Valid() && other.Valid()
      modifies this, other, slot
      ensures Valid() && other.Valid()
      ensures other == this ==> Current() == old(Current()) && slot.held == old(slot.held)
      ensures other != this && old(alive && (open || retryCleanup)) && closing.Failed? ==>
        Current() == Some(PENDING) && other.Current() == old(other.Current()) && slot.held == old(slot.held)
      ensures other != this && !(old(alive && (open || retryCleanup)) && closing.Failed?) ==>
        && Current() == old(other.Current()) && other.Current().None?
        && slot.held == if old(alive && (open || retryCleanup)) then false else old(slot.held)
    {
      if other == this {
        return;
      }
      if alive && (open || retryCleanup) {
        Clear();
        if closing.Failed? {
          forcedClose, retryCleanup := true, true;
          return;
        }
        forcedClose := false;
        slot.Release();
      }
      alive, open, forcedClose, retryCleanup := other.alive, other.open, other.forcedClose, other.retryCleanup;
      other.alive := false;
    }
  }
}
