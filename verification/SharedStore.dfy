/** The shared buffer store in place: buffers are objects that are overwritten, detached and released. */
module SharedStore {
  import opened Buffers
  import opened Descriptors
  import opened Options
  import opened StoreInv
  import opened StoreRuns
  import opened StoreSpec

  /** `view` stands for the fields that hold memory, sizes and metadata; `retains` and `dead` are history. */
  class Buffer {
    ghost const id: SlotID
    const name: Name
    var view: View
    var refs: int
    var borrowRefs: int
    var ownerRef: bool
    var release: Option<Callback>
    ghost var retains: nat
    ghost var dead: bool

    constructor (ghost id: SlotID, name: Name, view: View, release: Option<Callback>)
      ensures this.id == id && Snap() == Slot(name, view, 1, 0, true, release, 0, false)
    {
      this.id, this.name, this.view, this.release := id, name, view, release;
      refs, borrowRefs, ownerRef, retains, dead := 1, 0, true, 0, false;
    }

    ghost function Snap(): Slot
      reads this
    {
      Slot(name, view, refs, borrowRefs, ownerRef, release, retains, dead)
    }

    /** Takes the release callback when no reference is left. */
    method TakeRelease() returns (taken: Option<Callback>)
      modifies `release, `dead
      ensures Snap() == Settle(old(Snap()))
      ensures taken == if refs <= 0 then old(release) else None
    {
      if refs > 0 {
        return None;
      }
      taken := release;
      release := None;
      dead := true;
    }

    method DecrementBorrowRef() returns (left: int, taken: Option<Callback>)
      modifies this
      ensures Snap() == Settle(LowerBorrow(old(Snap()))) && left == refs
      ensures taken == if left <= 0 then old(release) else None
    {
      if borrowRefs > 0 {
        borrowRefs := borrowRefs - 1;
        if refs > 0 {
          refs := refs - 1;
        }
      }
      left := refs;
      taken := TakeRelease();
    }

    method DecrementOwnerRef() returns (left: int, taken: Option<Callback>)
      modifies this
      ensures Snap() == Settle(LowerOwner(old(Snap()))) && left == refs
      ensures taken == if left <= 0 then old(release) else None
    {
      if ownerRef {
        ownerRef := false;
        refs := refs - 1;
      }
      left := refs;
      taken := TakeRelease();
    }

    /** What republishing does to a buffer that others reference. */
    method LoseOwner()
      modifies this
      ensures Snap() == Disown(old(Snap()))
    {
      ownerRef := false;
      if refs > 0 {
        refs := refs - 1;
      }
    }

    /** Drops a direct reference, but never one that the owner or a borrow stands for. */
    method DecrementDirect() returns (left: int, taken: Option<Callback>)
      modifies this
      ensures Snap() == Settle(LowerDirect(old(Snap()))) && left == refs
      ensures taken == if left <= 0 then old(release) else None
    {
      var floor := borrowRefs;
      if ownerRef {
        floor := floor + 1;
      }
      if refs > floor {
        refs := refs - 1;
        retains := if retains > 0 then retains - 1 else 0;
      }
      left := refs;
      taken := None;
      if left <= 0 {
        taken := TakeRelease();
      }
    }
  }

  datatype StoreError = NegativeSize | AlreadyExists | WasReleased | NotFound | Invalid | NoNamedBorrow | ReleaseFailed

  /** Whether publishing runs a callback of the buffer it overwrites, and that callback fails. */
  ghost predicate PublishFails(s: Store, name: Name) {
    name in s.current && s.current[name] in s.slots && s.slots[s.current[name]].refs <= 1
    && FailureOf(s.slots[s.current[name]].release)
  }

  /** Whether ending a borrow of a slot runs its callback, and that callback fails. */
  ghost predicate EndFails(s: Store, x: SlotID) {
    x in s.slots && LowerBorrow(s.slots[x]).refs <= 0 && FailureOf(s.slots[x].release)
  }

  /** The error for a name that is not live. */
  function Missing(t: Tombs, name: Name): StoreError {
    if name in t.released then WasReleased else NotFound
  }

  /** Releasing is unlinking, followed by the callback if the last reference is gone. */
  lemma EndsAreFires(s: Store, name: Name, x: SlotID)
    requires x in s.slots
    ensures name in s.current && s.current[name] == x ==>
              StoreSpec.Free(s, name) == Fire(Unlink(s, name), name, IfLast(LowerOwner(s.slots[x]), s.slots[x].release))
    ensures EndBorrow(s, name, x)
              == Fire(EndedBorrow(s, name, x), name, IfLast(LowerBorrow(s.slots[x]), s.slots[x].release))
    ensures StoreSpec.ReleaseDirect(s, x)
         == Fire(EndedDirect(s, x), s.slots[x].name, IfLast(LowerDirect(s.slots[x]), s.slots[x].release))
  {
    hide Unlink, EndedBorrow, EndedDirect;
  }

  ghost function IfLast(slot: Slot, release: Option<Callback>): Option<Callback> {
    if slot.refs <= 0 then release else None
  }

  lemma EndedDirectIs(s: Store, x: SlotID)
    requires x in s.slots
    ensures var low := LowerDirect(s.slots[x]);
            EndedDirect(s, x) == s.(
              slots := s.slots[x := Settle(low)], detached := if low.refs <= 0 then s.detached - {x} else s.detached)
  {
  }

  lemma NextIsNew(s: Store)
    requires Inv(s)
    ensures s.nextSlot !in s.slots
  {
  }

  /** A lease: what it exposes, and whether it has been released. */
  class Lease {
    ghost const id: nat
    const name: Name
    const buffer: Buffer
    const exposed: Exposed
    var released: bool
    var releaseErr: Option<StoreError>

    constructor (ghost id: nat, name: Name, buffer: Buffer)
      ensures this.id == id && this.name == name && this.buffer == buffer && !released && releaseErr == None
      ensures exposed == Expose(buffer.view)
    {
      this.id, this.name, this.buffer, exposed := id, name, buffer, Expose(buffer.view);
      released, releaseErr := false, None;
    }
  }

  lemma {:induction false} WithoutAt(order: seq<Name>, name: Name, i: nat)
    requires i < |order| && order[i] == name && name !in order[..i]
    ensures Without(order, name) == order[..i] + order[i + 1..]
  {
    if i > 0 {
      assert order[0] == order[..i][0];
      assert order[1..][..i - 1] == order[..i][1..];
      WithoutAt(order[1..], name, i - 1);
      assert order[..i] + order[i + 1..] == [order[0]] + (order[1..][..i - 1] + order[1..][i..]);
    }
  }

  lemma {:induction false} WithoutNone(order: seq<Name>, name: Name)
    requires name !in order
    ensures Without(order, name) == order
  {
    if order != [] { WithoutNone(order[1..], name); }
  }

  /** The bounded record of released names. */
  class Tombstones {
    var released: set<Name>
    var meta: map<Name, Tombstone>
    var order: seq<Name>

    constructor ()
      ensures View() == Tombs({}, map[], [])
    {
      released, meta, order := {}, map[], [];
    }

    ghost function View(): Tombs
      reads this
    {
      Tombs(released, meta, order)
    }

    method MarkReleased(name: Name, view: Buffers.View)
      modifies this
      ensures View() == Mark(old(View()), name, view)
    {
      if name.text == "" {
        return;
      }
      meta := meta[name := Tombstone(view, false)];
      if name in released {
        return;
      }
      released := released + {name};
      order := order + [name];
      ghost var full := View();
      while |order| > MAX_TOMBSTONES
        invariant Trim(View()) == Trim(full)
        decreases |order|
      {
        var oldest := order[0];
        order := order[1..];
        released := released - {oldest};
        meta := meta - {oldest};
      }
    }

    method ForgetReleased(name: Name)
      modifies this
      ensures View() == Forget(old(View()), name)
    {
      if name !in released {
        meta := meta - {name};
        return;
      }
      released := released - {name};
      meta := meta - {name};
      for i := 0 to |order|
        invariant order == old(order) && name !in order[..i]
      {
        if order[i] == name {
          WithoutAt(order, name, i);
          order := order[..i] + order[i + 1..];
          return;
        }
      }
      WithoutNone(order, name);
    }

    method NoteFailure(name: Name)
      modifies `meta
      ensures View() == Blame(old(View()), name)
    {
      if name in meta {
        meta := meta[name := meta[name].(failed := true)];
      }
    }
  }

  /**
   The store. `model` is its abstract value, and `objects` every buffer it ever created; Inv(model) is kept by
   every operation, so it holds over every run that starts with a new store.
   */
  class SharedStore {
    var buffers: map<Name, Buffer>
    var namedBorrows: map<Name, seq<Buffer>>
    var detached: set<Buffer>
    const tombs: Tombstones
    var counters: Counters
    var closures: map<nat, MovedArray>
    ghost var model: Store
    ghost var objects: map<SlotID, Buffer>
    ghost var issued: map<nat, Lease>

    constructor ()
      ensures Valid() && model == EMPTY && Inv(model) && fresh(tombs)
    {
      buffers, namedBorrows, detached, counters := map[], map[], {}, Counters(0, 0, 0, 0, 0, 0, 0);
      tombs := new Tombstones();
      closures := map[];
      model, objects, issued := EMPTY, map[], map[];
      new;
      EmptyInv();
    }

    /** The object of a slot. */
    ghost predicate Known(buf: Buffer)
      reads `objects
    {
      buf.id in objects && objects[buf.id] == buf
    }

    /** Every buffer object holds what its slot says. */
    ghost predicate ObjectsOk(slots: map<SlotID, Slot>)
      reads `objects, objects.Values
    {
      && objects.Keys == slots.Keys
      && forall x :: x in objects ==> objects[x].id == x && objects[x].Snap() == slots[x]
    }

    ghost predicate NamesOk(current: map<Name, SlotID>)
      reads `objects, `buffers
    {
      && buffers.Keys == current.Keys
      && forall n :: n in buffers ==>
        current[n] in objects && buffers[n] == objects[current[n]] && buffers[n].id == current[n]
    }

    ghost predicate DetachedOk(ids: set<SlotID>)
      reads `objects, `detached
    {
      && (forall x :: x in ids ==> x in objects && objects[x].id == x && objects[x] in detached)
      && (forall b :: b in detached ==> b.id in ids && b.id in objects && objects[b.id] == b)
    }

    ghost predicate QueuesOk(queues: map<Name, seq<Loan>>)
      reads `objects, `namedBorrows
    {
      && namedBorrows.Keys == queues.Keys
      && forall n :: n in namedBorrows ==> Matches(queues[n], namedBorrows[n])
    }

    /** A queue of buffers stands for a queue of loans. */
    ghost predicate Matches(loans: seq<Loan>, queue: seq<Buffer>)
      reads `objects
    {
      |queue| == |loans| && forall i :: 0 <= i < |queue| ==> queue[i].id == loans[i].slot && Known(queue[i])
    }

    /** A lease that has not been released exposes what its loan says. */
    ghost predicate LeasesOk(leases: map<nat, Loan>, next: nat)
      reads `objects, `issued, issued.Values`released
    {
      && leases.Keys <= issued.Keys
      && forall l :: l in issued ==>
           && l < next && issued[l].id == l && (issued[l].released <==> l !in leases)
           && (l in leases ==>
                 && issued[l].name == leases[l].name && issued[l].exposed == Expose(leases[l].view)
                 && issued[l].buffer.id == leases[l].slot && Known(issued[l].buffer))
    }

    /** Each closure has been invoked as often as its callback has run. */
    ghost predicate ClosuresOk(fates: map<nat, Fate>)
      reads `closures, closures.Values
    {
      && closures.Keys <= fates.Keys
      && forall id :: id in closures ==> closures[id].token == id && closures[id].HasRun(TimesRun(fates[id]))
    }

    ghost predicate Valid()
      reads `model, `objects, `buffers, `namedBorrows, `detached, `counters, `issued, `closures, tombs
      reads objects.Values, issued.Values`released, closures.Values
    {
      && ObjectsOk(model.slots) && NamesOk(model.current) && DetachedOk(model.detached) && QueuesOk(model.queues)
      && LeasesOk(model.leases, model.nextLease) && ClosuresOk(model.fates)
      && tombs.View() == model.tombs && counters == model.counters
    }

    lemma NamedIsKnown(name: Name)
      requires Valid() && name in buffers
      ensures name in model.current && buffers[name].id == model.current[name] && model.current[name] in model.slots
      ensures Known(buffers[name]) && buffers[name].Snap() == model.slots[model.current[name]]
    {
    }

    // ---------- steps shared by the operations

    /** Invokes a release callback, and records its failure. */
    method CallRelease(name: Name, release: Option<Callback>) returns (failed: bool)
      requires Valid()
      modifies `model, `counters, tombs, closures.Values
      ensures Valid() && model == Fire(old(model), name, release) && failed == FailureOf(release)
    {
      hide Valid, Fail;
      if release == None {
        return false;
      }
      RunCallback(release.value.id);
      failed := release.value.fails;
      if failed {
        RecordFailure(name);
      }
    }

    /** Runs a callback: its closure, if it is one that is modelled; others are opaque. */
    method RunCallback(id: nat)
      requires Valid()
      modifies `model, closures.Values
      ensures Valid() && model == old(model).(fates := old(model).fates[id := Ran(Times(old(model), id) + 1)])
    {
      hide ObjectsOk, NamesOk, DetachedOk, QueuesOk, LeasesOk, ClosuresOk, Times;
      RunClosure(id, model);
      model := model.(fates := model.fates[id := Ran(Times(model, id) + 1)]);
    }

    method RunClosure(id: nat, ghost s: Store)
      requires ClosuresOk(s.fates)
      modifies closures.Values
      ensures ClosuresOk(s.fates[id := Ran(Times(s, id) + 1)])
    {
      if id in closures {
        closures[id].Invoke();
      }
    }

    method RecordFailure(name: Name)
      requires Valid()
      modifies `model, `counters, tombs
      ensures Valid() && model == Fail(old(model), name)
    {
      hide ObjectsOk, NamesOk, DetachedOk, QueuesOk, LeasesOk, ClosuresOk, Blame;
      model := Fail(model, name);
      counters := counters.(releaseErrors := counters.releaseErrors + 1);
      tombs.NoteFailure(name);
    }

    /** A callback that is new says nothing about the closures. */
    lemma NewFate(fates: map<nat, Fate>, id: nat, fate: Fate)
      requires ClosuresOk(fates) && id !in fates
      ensures ClosuresOk(fates[id := fate])
    {
    }

    method AddClosure(moved: MovedArray, ghost fates: map<nat, Fate>)
      requires ClosuresOk(fates) && moved.token in fates && moved.HasRun(TimesRun(fates[moved.token]))
      modifies `closures
      ensures ClosuresOk(fates) && moved.token in closures && closures[moved.token] == moved
      ensures closures == old(closures)[moved.token := moved]
    {
      closures := closures[moved.token := moved];
    }

    // The indexes, one by one.

    method AddObject(buf: Buffer, ghost slots: map<SlotID, Slot>)
      requires ObjectsOk(slots) && buf.id !in slots
      modifies `objects
      ensures objects == old(objects)[buf.id := buf] && ObjectsOk(slots[buf.id := buf.Snap()])
    {
      ghost var x := buf.id;
      objects := objects[x := buf];
    }

    method SetName(name: Name, buf: Buffer, ghost current: map<Name, SlotID>)
      requires NamesOk(current) && Known(buf)
      modifies `buffers
      ensures buffers == old(buffers)[name := buf] && NamesOk(current[name := buf.id])
    {
      buffers := buffers[name := buf];
    }

    method DropName(name: Name, ghost current: map<Name, SlotID>)
      requires NamesOk(current)
      modifies `buffers
      ensures NamesOk(current - {name}) && buffers == old(buffers) - {name}
    {
      buffers := buffers - {name};
    }

    method AddDetached(buf: Buffer, ghost ids: set<SlotID>)
      requires DetachedOk(ids) && Known(buf)
      modifies `detached
      ensures DetachedOk(ids + {buf.id})
    {
      detached := detached + {buf};
    }

    method DropDetached(buf: Buffer, ghost ids: set<SlotID>)
      requires DetachedOk(ids) && Known(buf)
      modifies `detached
      ensures DetachedOk(ids - {buf.id})
    {
      detached := detached - {buf};
    }

    /** Takes a name out of the indexes; its buffer is detached if others still reference it. */
    method Unname(name: Name, buf: Buffer, referenced: bool, ghost current: map<Name, SlotID>, ghost ids: set<SlotID>)
      requires NamesOk(current) && DetachedOk(ids) && Known(buf)
      modifies `buffers, `detached
      ensures NamesOk(current - {name}) && DetachedOk(if referenced then ids + {buf.id} else ids - {buf.id})
    {
      hide NamesOk, DetachedOk;
      DropName(name, current);
      if referenced {
        AddDetached(buf, ids);
      } else {
        DropDetached(buf, ids);
      }
    }

    /** Only `buf` has changed. */
    twostate lemma OneChanged(new buf: Buffer, slots: map<SlotID, Slot>)
      requires old(ObjectsOk(slots)) && Known(buf) && objects == old(objects)
      requires forall b :: b in objects.Values && b != buf ==> b.Snap() == old(b.Snap())
      ensures ObjectsOk(slots[buf.id := buf.Snap()])
    {
    }

    method NewBuffer(ghost x: SlotID, name: Name, view: View, release: Option<Callback>) returns (buf: Buffer)
      requires ObjectsOk(model.slots) && NamesOk(model.current) && DetachedOk(model.detached) && QueuesOk(model.queues)
      requires x !in model.slots && LeasesOk(model.leases, model.nextLease)
      modifies `objects
      ensures ObjectsOk(model.slots[x := Slot(name, view, 1, 0, true, release, 0, false)])
      ensures NamesOk(model.current) && DetachedOk(model.detached)
      ensures QueuesOk(model.queues) && LeasesOk(model.leases, model.nextLease)
      ensures fresh(buf) && Known(buf) && buf.id == x
    {
      buf := new Buffer(x, name, view, release);
      AddObject(buf, model.slots);
      hide ObjectsOk;
      OthersStay(buf, model);
    }

    /** Adds a buffer for a name. */
    method AddBuffer(name: Name, view: View, release: Option<Callback>) returns (buf: Buffer)
      requires Valid() && model.nextSlot !in model.slots && Fresh(model, release)
      modifies `model, `objects, `buffers
      ensures Valid() && model == AddSlot(old(model), name, view, release)
      ensures fresh(buf) && Known(buf) && buf.id == old(model).nextSlot && buffers == old(buffers)[name := buf]
    {
      hide ObjectsOk, NamesOk, DetachedOk, QueuesOk, LeasesOk, ClosuresOk, Known;
      buf := NewBuffer(model.nextSlot, name, view, release);
      SetName(name, buf, model.current);
      if release.Some? {
        NewFate(model.fates, release.value.id, Pending(model.nextSlot));
      }
      model := AddSlot(model, name, view, release);
    }

    /** The other indexes do not depend on an object that is new. */
    twostate lemma OthersStay(new buf: Buffer, m: Store)
      requires buf.id !in old(objects) && objects == old(objects)[buf.id := buf]
      requires namedBorrows == old(namedBorrows) && buffers == old(buffers) && detached == old(detached)
      requires old(NamesOk(m.current)) && old(DetachedOk(m.detached))
      requires old(QueuesOk(m.queues)) && old(LeasesOk(m.leases, m.nextLease))
      requires issued == old(issued) && forall l :: l in issued ==> issued[l].released == old(issued[l].released)
      ensures NamesOk(m.current) && DetachedOk(m.detached) && QueuesOk(m.queues) && LeasesOk(m.leases, m.nextLease)
    {
    }

    // The buffers, one by one.

    method LoseOwner(buf: Buffer, ghost slots: map<SlotID, Slot>)
      requires ObjectsOk(slots) && Known(buf) && buf.Snap() == slots[buf.id]
      modifies buf
      ensures ObjectsOk(slots[buf.id := Disown(slots[buf.id])])
    {
      buf.LoseOwner();
      OneChanged(buf, slots);
    }

    method RefillBuffer(buf: Buffer, view: View, release: Option<Callback>, ghost slots: map<SlotID, Slot>)
      returns (taken: Option<Callback>)
      requires ObjectsOk(slots) && Known(buf) && buf.Snap() == slots[buf.id]
      modifies buf
      ensures ObjectsOk(slots[buf.id := slots[buf.id].(
                view := view, refs := 1, borrowRefs := 0, owner := true, release := release)])
      ensures taken == slots[buf.id].release
    {
      taken := buf.release;
      buf.view := view;
      buf.refs := 1;
      buf.borrowRefs := 0;
      buf.ownerRef := true;
      buf.release := release;
      OneChanged(buf, slots);
    }

    method LowerBuffer(buf: Buffer, ghost slots: map<SlotID, Slot>) returns (left: int, taken: Option<Callback>)
      requires ObjectsOk(slots) && Known(buf) && buf.Snap() == slots[buf.id]
      modifies buf
      ensures ObjectsOk(slots[buf.id := Settle(LowerBorrow(slots[buf.id]))]) && left == LowerBorrow(slots[buf.id]).refs
      ensures taken == if left <= 0 then slots[buf.id].release else None
    {
      left, taken := buf.DecrementBorrowRef();
      OneChanged(buf, slots);
    }

    method LowerBufferDirect(buf: Buffer, ghost slots: map<SlotID, Slot>) returns (left: int, taken: Option<Callback>)
      requires ObjectsOk(slots) && Known(buf) && buf.Snap() == slots[buf.id]
      modifies buf
      ensures ObjectsOk(slots[buf.id := Settle(LowerDirect(slots[buf.id]))]) && left == LowerDirect(slots[buf.id]).refs
      ensures taken == if left <= 0 then slots[buf.id].release else None
    {
      left, taken := buf.DecrementDirect();
      OneChanged(buf, slots);
    }

    method DropOwner(buf: Buffer, ghost slots: map<SlotID, Slot>) returns (left: int, taken: Option<Callback>)
      requires ObjectsOk(slots) && Known(buf) && buf.Snap() == slots[buf.id]
      modifies buf
      ensures ObjectsOk(slots[buf.id := Settle(LowerOwner(slots[buf.id]))]) && left == LowerOwner(slots[buf.id]).refs
      ensures taken == (if left <= 0 then slots[buf.id].release else None) && buf.view == LowerOwner(slots[buf.id]).view
    {
      left, taken := buf.DecrementOwnerRef();
      OneChanged(buf, slots);
    }

    method RaiseBuffer(buf: Buffer, ghost slots: map<SlotID, Slot>)
      requires ObjectsOk(slots) && Known(buf) && buf.Snap() == slots[buf.id]
      modifies buf
      ensures ObjectsOk(slots[buf.id := slots[buf.id].(
                refs := slots[buf.id].refs + 1, borrowRefs := slots[buf.id].borrowRefs + 1)])
    {
      buf.refs := buf.refs + 1;
      buf.borrowRefs := buf.borrowRefs + 1;
      OneChanged(buf, slots);
    }

    method RaiseBufferDirect(buf: Buffer, ghost slots: map<SlotID, Slot>)
      requires ObjectsOk(slots) && Known(buf) && buf.Snap() == slots[buf.id]
      modifies buf
      ensures ObjectsOk(slots[buf.id := slots[buf.id].(
                refs := slots[buf.id].refs + 1, retains := slots[buf.id].retains + 1)])
    {
      buf.refs := buf.refs + 1;
      buf.retains := buf.retains + 1;
      OneChanged(buf, slots);
    }

    // Both together.

    /** The owner of a name moves on from a buffer that others still reference. */
    method DetachOwner(name: Name)
      requires Valid() && name in buffers
      requires name in model.current && model.current[name] in model.slots && model.slots[model.current[name]].refs > 1
      modifies `model, `buffers, `detached, buffers[name]
      ensures Valid() && model == Detach(old(model), name)
    {
      hide ObjectsOk, NamesOk, DetachedOk, QueuesOk, LeasesOk, ClosuresOk, Known;
      NamedIsKnown(name);
      var existing := buffers[name];
      LoseOwner(existing, model.slots);
      Unname(name, existing, true, model.current, model.detached);
      model := Detach(model, name);
    }

    /** Reuses the buffer of a name, and hands back the callback of what it held. */
    method OverwriteBuffer(name: Name, view: View, release: Option<Callback>) returns (taken: Option<Callback>)
      requires Valid() && name in buffers && name in model.current && model.current[name] in model.slots
      requires Fresh(model, release)
      modifies `model, buffers[name]
      ensures Valid() && model == Overwritten(old(model), name, view, release)
      ensures taken == old(model).slots[old(model).current[name]].release
    {
      hide ObjectsOk, NamesOk, DetachedOk, QueuesOk, LeasesOk, ClosuresOk, Known;
      NamedIsKnown(name);
      taken := RefillBuffer(buffers[name], view, release, model.slots);
      if release.Some? {
        NewFate(model.fates, release.value.id, Pending(model.current[name]));
      }
      model := Overwritten(model, name, view, release);
    }

    lemma KnownSnap(buf: Buffer)
      requires Valid() && Known(buf)
      ensures buf.id in model.slots && buf.Snap() == model.slots[buf.id]
    {
    }

    /** Takes a buffer out of the indexes if its last reference is gone. */
    method ForgetLast(name: Name, buf: Buffer, last: bool, ghost current: map<Name, SlotID>, ghost ids: set<SlotID>)
      requires NamesOk(current) && DetachedOk(ids) && Known(buf)
      modifies `buffers, `detached
      ensures NamesOk(if last then WithoutLast(current, name, buf.id) else current)
      ensures DetachedOk(if last then ids - {buf.id} else ids)
    {
      hide NamesOk, DetachedOk;
      if last {
        SameName(name, buf, current);
        if name in buffers && buffers[name] == buf {
          DropName(name, current);
        }
        DropDetached(buf, ids);
      }
    }

    lemma SameName(name: Name, buf: Buffer, current: map<Name, SlotID>)
      requires NamesOk(current) && Known(buf)
      ensures name in buffers && buffers[name] == buf <==> name in current && current[name] == buf.id
    {
    }

    /** Ends one borrow of a buffer, and hands back the callback if it was the last reference. */
    method EndBorrowOf(name: Name, buf: Buffer) returns (taken: Option<Callback>)
      requires Valid() && Known(buf) && buf.id in model.slots
      modifies `model, `buffers, `detached, `counters, buf
      ensures Valid() && model == EndedBorrow(old(model), name, buf.id)
      ensures taken
                == if LowerBorrow(old(model).slots[buf.id]).refs <= 0 then old(model).slots[buf.id].release else None
    {
      hide Valid, WithoutBorrow, LowerBorrow, Settle;
      taken := DropBorrow(name, buf);
      CountRelease();
    }

    method DropBorrow(name: Name, buf: Buffer) returns (taken: Option<Callback>)
      requires Valid() && Known(buf) && buf.id in model.slots
      modifies `model, `buffers, `detached, buf
      ensures Valid() && model == WithoutBorrow(old(model), name, buf.id) && model.counters == old(model).counters
      ensures taken
                == if LowerBorrow(old(model).slots[buf.id]).refs <= 0 then old(model).slots[buf.id].release else None
    {
      hide ObjectsOk, NamesOk, DetachedOk, QueuesOk, LeasesOk, ClosuresOk, Known, LowerBorrow, Settle, WithoutLast;
      KnownSnap(buf);
      var left;
      left, taken := LowerBuffer(buf, model.slots);
      ForgetLast(name, buf, left <= 0, model.current, model.detached);
      model := WithoutBorrow(model, name, buf.id);
    }

    method CountRelease()
      requires Valid()
      modifies `model, `counters
      ensures Valid()
      ensures model == old(model).(counters := old(model).counters.(releases := old(model).counters.releases + 1))
    {
      hide ObjectsOk, NamesOk, DetachedOk, QueuesOk, LeasesOk, ClosuresOk;
      counters := counters.(releases := counters.releases + 1);
      model := model.(counters := counters);
    }

    method EndDirectOf(buf: Buffer) returns (left: int, taken: Option<Callback>)
      requires Valid() && Known(buf) && buf.id in model.slots
      modifies `model, `detached, buf
      ensures Valid() && model == EndedDirect(old(model), buf.id)
      ensures left == LowerDirect(old(model).slots[buf.id]).refs
      ensures taken
                == if LowerDirect(old(model).slots[buf.id]).refs <= 0 then old(model).slots[buf.id].release else None
    {
      hide ObjectsOk, NamesOk, DetachedOk, QueuesOk, LeasesOk, ClosuresOk, Known, LowerDirect, Settle, EndedDirect;
      KnownSnap(buf);
      EndedDirectIs(model, buf.id);
      left, taken := LowerBufferDirect(buf, model.slots);
      if left <= 0 {
        DropDetached(buf, model.detached);
      }
      model := EndedDirect(model, buf.id);
    }

    /** Takes a name out of the store and leaves a tombstone. */
    method UnlinkName(name: Name) returns (taken: Option<Callback>)
      requires Valid() && name in buffers && name in model.current && model.current[name] in model.slots
      modifies `model, `buffers, `detached, `counters, tombs, buffers[name]
      ensures Valid() && model == Unlink(old(model), name)
      ensures var slot := old(model).slots[old(model).current[name]];
              taken == if LowerOwner(slot).refs <= 0 then slot.release else None
    {
      hide Valid, Known, Mark, LowerOwner, Settle;
      var view;
      view, taken := DropNamed(name);
      MarkName(name, view);
    }

    method DropNamed(name: Name) returns (view: View, taken: Option<Callback>)
      requires Valid() && name in buffers && name in model.current && model.current[name] in model.slots
      modifies `model, `buffers, `detached, buffers[name]
      ensures Valid()
      ensures model == Unlink(old(model), name).(tombs := old(model).tombs, counters := old(model).counters)
      ensures var slot := old(model).slots[old(model).current[name]];
              view == LowerOwner(slot).view && taken == if LowerOwner(slot).refs <= 0 then slot.release else None
    {
      hide ObjectsOk, NamesOk, DetachedOk, QueuesOk, LeasesOk, ClosuresOk, Known, Mark, LowerOwner, Settle;
      NamedIsKnown(name);
      var buf := buffers[name];
      var left;
      left, taken := DropOwner(buf, model.slots);
      view := buf.view;
      Unname(name, buf, left > 0, model.current, model.detached);
      model := Unlink(model, name).(tombs := model.tombs, counters := model.counters);
    }

    method MarkName(name: Name, view: View)
      requires Valid()
      modifies `model, `counters, tombs
      ensures Valid()
      ensures model == old(model).(tombs := Mark(old(model).tombs, name, view),
                                   counters := old(model).counters.(releases := old(model).counters.releases + 1))
    {
      hide ObjectsOk, NamesOk, DetachedOk, QueuesOk, LeasesOk, ClosuresOk, Mark;
      tombs.MarkReleased(name, view);
      model := model.(tombs := Mark(model.tombs, name, view));
      CountRelease();
    }

    /** Counts one more borrow of the buffer of a name. */
    method LendBuffer(name: Name) returns (buf: Buffer)
      requires Valid() && name in buffers && name in model.current && model.current[name] in model.slots
      modifies `model, `counters, buffers[name]
      ensures Valid() && model == Lend(old(model), old(model).current[name])
      ensures buf == buffers[name] && buf.id == old(model).current[name] && Known(buf)
      ensures buf.view == old(model).slots[old(model).current[name]].view
    {
      hide ObjectsOk, NamesOk, DetachedOk, QueuesOk, LeasesOk, ClosuresOk, Known;
      NamedIsKnown(name);
      buf := buffers[name];
      RaiseBuffer(buf, model.slots);
      counters := counters.(gets := counters.gets + 1, zeroCopyBorrows := counters.zeroCopyBorrows + 1);
      model := Lend(model, model.current[name]);
      KnownSnap(buf);
    }

    // ---------- publishing

    /** What publishing does under the lock, and then outside of it: the callback of what was overwritten. */
    method Publish(name: Name, view: View, release: Option<Callback>) returns (failed: bool)
      requires Valid() && Inv(model) && Fresh(model, release)
      modifies `model, `objects, `buffers, `detached, `counters, tombs, objects.Values, closures.Values
      ensures Valid() && Inv(model) && (name in old(model).current ==> old(model).current[name] in old(model).slots)
      ensures model == StoreSpec.Publish(old(model), name, view, release) && issued == old(issued)
      ensures failed == PublishFails(old(model), name)
    {
      PublishInv(model, name, view, release);
      NextIsNew(model);
      hide *;
      failed := Replace(name, view, release);
    }

    method Replace(name: Name, view: View, release: Option<Callback>) returns (failed: bool)
      requires Valid() && model.nextSlot !in model.slots && Fresh(model, release)
      requires name in model.current ==> model.current[name] in model.slots
      modifies `model, `objects, `buffers, `detached, `counters, tombs, objects.Values, closures.Values
      ensures Valid() && issued == old(issued)
      ensures model == StoreSpec.Publish(old(model), name, view, release) && failed == PublishFails(old(model), name)
    {
      hide Valid, Known, Forget, Fire, Overwritten, AddSlot;
      var existing := name in buffers;
      NameKnown(name);
      ForgetName(name);
      failed := false;
      if existing {
        if buffers[name].refs > 1 {
          DetachOwner(name);
          var buf := AddBuffer(name, view, release);
        } else {
          var taken := OverwriteBuffer(name, view, release);
          failed := CallRelease(name, taken);
        }
      } else {
        var buf := AddBuffer(name, view, release);
      }
    }

    method ForgetName(name: Name)
      requires Valid()
      modifies `model, tombs
      ensures Valid() && model == old(model).(tombs := Forget(old(model).tombs, name))
    {
      hide ObjectsOk, NamesOk, DetachedOk, QueuesOk, LeasesOk, ClosuresOk, Forget;
      tombs.ForgetReleased(name);
      model := model.(tombs := Forget(model.tombs, name));
    }

    lemma NameKnown(name: Name)
      requires Valid()
      ensures name in buffers <==> name in model.current
      ensures name in buffers ==>
                model.current[name] in model.slots && buffers[name].refs == model.slots[model.current[name]].refs
      ensures name in buffers ==>
                && buffers[name].view == model.slots[model.current[name]].view
                && buffers[name] in objects.Values && Known(buffers[name])
    {
    }

    // ---------- operations

    method Allocate(name: Name, size: int) returns (err: Option<StoreError>)
      requires Valid() && Inv(model)
      modifies `model, `objects, `buffers, `detached, `counters, tombs, objects.Values, closures.Values
      ensures Valid() && Inv(model) && model == Apply(old(model), Op.Allocate(name, size))
      ensures err == if size < 0 then Some(NegativeSize) else if name in old(buffers) then Some(AlreadyExists) else None
    {
      hide ObjectsOk, NamesOk, DetachedOk, QueuesOk, LeasesOk, ClosuresOk, Inv, StoreSpec.Publish, Zeros;
      NameKnown(name);
      if size < 0 {
        return Some(NegativeSize);
      }
      if name in buffers {
        return Some(AlreadyExists);
      }
      var failed := Publish(name, Zeros(size), None);
      CountersInv(model, CountAllocation(model));
      counters := counters.(allocations := counters.allocations + 1);
      model := CountAllocation(model);
      return None;
    }

    method Get(name: Name) returns (buf: Option<Buffer>, err: Option<StoreError>)
      requires Valid() && Inv(model)
      modifies `model, `counters
      ensures Valid() && Inv(model) && model == Apply(old(model), Op.Get(name))
      ensures if name in buffers then err == None && buf == Some(buffers[name])
              else buf == None && err == Some(Missing(old(model).tombs, name))
    {
      hide ObjectsOk, NamesOk, DetachedOk, QueuesOk, LeasesOk, ClosuresOk, Inv;
      NameKnown(name);
      if name !in buffers {
        return None, Some(if name in tombs.released then WasReleased else NotFound);
      }
      buf, err := Some(buffers[name]), None;
      CountersInv(model, CountGet(model));
      counters := counters.(gets := counters.gets + 1);
      model := CountGet(model);
    }

    /** Publishes bytes and a validity bitmap. */
    method Set(name: Name, bytes: seq<bv8>, bitmap: seq<bv8>, meta: Metadata) returns (err: Option<StoreError>)
      requires Valid() && Inv(model)
      modifies `model, `objects, `buffers, `detached, `counters, tombs, objects.Values, closures.Values
      ensures Valid() && Inv(model) && model == Apply(old(model), Op.Set(name, bytes, bitmap, meta))
      ensures err == if !MetadataOk(meta) then Some(Invalid)
                     else if PublishFails(old(model), name) then Some(ReleaseFailed) else None
    {
      hide ObjectsOk, NamesOk, DetachedOk, QueuesOk, LeasesOk, ClosuresOk;
      hide Inv, StoreSpec.Publish, MetadataOk, PublishFails;
      var valid := ValidateMetadata(meta);
      if !valid {
        return Some(Invalid);
      }
      var failed := PublishSet(name, Described(Bytes(bytes), |bytes|, Bytes(bitmap), |bitmap|, meta), None, false);
      return if failed then Some(ReleaseFailed) else None;
    }

    /** Publishes, and counts. */
    method PublishSet(name: Name, view: View, release: Option<Callback>, imported: bool) returns (failed: bool)
      requires Valid() && Inv(model) && Fresh(model, release)
      modifies `model, `objects, `buffers, `detached, `counters, tombs, objects.Values, closures.Values
      ensures Valid() && Inv(model) && (name in old(model).current ==> old(model).current[name] in old(model).slots)
      ensures model == CountSet(StoreSpec.Publish(old(model), name, view, release), imported) && issued == old(issued)
      ensures failed == PublishFails(old(model), name)
    {
      hide Valid, Inv, StoreSpec.Publish, PublishFails, Fresh;
      failed := Publish(name, view, release);
      CountPublished(imported);
    }

    method CountPublished(imported: bool)
      requires Valid() && Inv(model)
      modifies `model, `counters
      ensures Valid() && Inv(model) && model == CountSet(old(model), imported)
    {
      hide ObjectsOk, NamesOk, DetachedOk, QueuesOk, LeasesOk, ClosuresOk, Inv;
      CountersInv(model, CountSet(model, imported));
      counters := counters.(sets := counters.sets + 1,
                            zeroCopyImports := counters.zeroCopyImports + if imported then 1 else 0);
      model := CountSet(model, imported);
    }

    /** Publishes foreign memory. Its release callback is taken over, or invoked when the import is rejected. */
    method SetExternal(name: Name, data: Region, len: int, validity: Region, validityLen: int, meta: Metadata,
                       release: Option<Callback>, closure: MovedArray?)
      returns (err: Option<StoreError>)
      requires Valid() && Inv(model) && Fresh(model, release)
      requires closure != null ==> release == Some(Callback(closure.token, false)) && closure.HasRun(0)
      modifies `model, `objects, `buffers, `detached, `counters, `closures
      modifies tombs, objects.Values, closures.Values, closure
      ensures Valid() && Inv(model)
      ensures model == Apply(old(model), Op.SetExternal(name, data, len, validity, validityLen, meta, release))
      ensures err == if !ImportOk(data, len, validity, validityLen, meta) then Some(Invalid)
                     else if PublishFails(old(model), name) then Some(ReleaseFailed) else None
      ensures closures == if closure == null then old(closures) else old(closures)[closure.token := closure]
      ensures closure != null ==> closure.HasRun(if ImportOk(data, len, validity, validityLen, meta) then 0 else 1)
    {
      hide ObjectsOk, NamesOk, DetachedOk, QueuesOk, LeasesOk, ClosuresOk, Inv, StoreSpec.Publish, MetadataOk;
      hide PublishFails, Fresh, MovedArray.HasRun;
      var valid := ValidateMetadata(meta);
      if !valid || len < 0 || (len > 0 && data.Absent?) || validityLen < 0 || (validityLen > 0 && validity.Absent?) {
        RejectImport(release, closure);
        return Some(Invalid);
      }
      var failed := PublishImport(name, Described(data, len, validity, validityLen, meta), release, closure);
      return if failed then Some(ReleaseFailed) else None;
    }

    /** Publishes an import, and keeps its closure. */
    method PublishImport(name: Name, view: View, release: Option<Callback>, closure: MovedArray?) returns (failed: bool)
      requires Valid() && Inv(model) && Fresh(model, release)
      requires closure != null ==> release == Some(Callback(closure.token, false)) && closure.HasRun(0)
      modifies `model, `objects, `buffers, `detached, `counters, `closures
      modifies tombs, objects.Values, closures.Values, closure
      ensures Valid() && Inv(model) && (name in old(model).current ==> old(model).current[name] in old(model).slots)
      ensures model == CountSet(StoreSpec.Publish(old(model), name, view, release), true)
      ensures failed == PublishFails(old(model), name)
      ensures closures == if closure == null then old(closures) else old(closures)[closure.token := closure]
      ensures closure != null ==> closure.HasRun(0)
    {
      hide ObjectsOk, NamesOk, DetachedOk, QueuesOk, LeasesOk, ClosuresOk, Inv, StoreSpec.Publish;
      hide PublishFails, MovedArray.HasRun;
      if closure != null {
        NotYetClosed(closure);
        PublishPends(model, name, view, release);
      }
      failed := PublishSet(name, view, release, true);
      if closure != null {
        AddClosure(closure, model.fates);
      }
    }

    lemma NotYetClosed(closure: MovedArray)
      requires Valid() && closure.token !in model.fates
      ensures closure.token !in closures && closure !in closures.Values
    {
    }

    /** Invokes the callback of a rejected import; a failure is reported to the caller only. */
    method RejectImport(release: Option<Callback>, closure: MovedArray?)
      requires Valid() && Inv(model) && Fresh(model, release)
      requires closure != null ==> release == Some(Callback(closure.token, false)) && closure.HasRun(0)
      modifies `model, `closures, closure
      ensures Valid() && Inv(model) && model == Reject(old(model), release) && issued == old(issued)
      ensures closures == if closure == null then old(closures) else old(closures)[closure.token := closure]
      ensures closure != null ==> closure.HasRun(1)
    {
      hide ObjectsOk, NamesOk, DetachedOk, QueuesOk, LeasesOk, ClosuresOk, Inv, MovedArray.HasRun;
      RejectInv(model, release);
      if closure != null {
        NotYetClosed(closure);
        closure.Invoke();
      }
      if release.Some? {
        NewFate(model.fates, release.value.id, Ran(1));
      }
      model := Reject(model, release);
      if closure != null {
        AddClosure(closure, model.fates);
      }
    }

    /** Releases the owner reference of a name. Borrowed views stay as they are. */
    method Free(name: Name) returns (err: Option<StoreError>)
      requires Valid() && Inv(model)
      modifies `model, `buffers, `detached, `counters, tombs, objects.Values, closures.Values
      ensures Valid() && Inv(model) && model == Apply(old(model), Op.Free(name))
      ensures err == if name !in old(model).current then Some(Missing(old(model).tombs, name))
                     else if FreeFails(old(model), name) then Some(ReleaseFailed) else None
    {
      hide ObjectsOk, NamesOk, DetachedOk, QueuesOk, LeasesOk, ClosuresOk, Inv, Known, Unlink, Fire;
      NameKnown(name);
      if name !in buffers {
        return Some(if name in tombs.released then WasReleased else NotFound);
      }
      FreeInv(model, name);
      EndsAreFires(model, name, model.current[name]);
      var taken := UnlinkName(name);
      var failed := CallRelease(name, taken);
      return if failed then Some(ReleaseFailed) else None;
    }

    /** Borrows a name: the lease exposes the buffer of the name, and keeps it alive until it is released. */
    method Borrow(name: Name) returns (lease: Option<Lease>, err: Option<StoreError>)
      requires Valid() && Inv(model)
      modifies `model, `counters, `issued, objects.Values
      ensures Valid() && Inv(model) && model == Apply(old(model), Op.Borrow(name))
      ensures if name in buffers
              then err == None && lease.Some? && Outstanding(lease.value) && lease.value.buffer == buffers[name]
              else lease == None && err == Some(Missing(old(model).tombs, name))
      ensures lease.Some? ==> lease.value.id == old(model).nextLease && fresh(lease.value) && !lease.value.released
      ensures lease.Some? ==>
                name in buffers && lease.value.name == name && lease.value.exposed == Expose(old(buffers[name].view))
    {
      hide ObjectsOk, NamesOk, DetachedOk, QueuesOk, LeasesOk, ClosuresOk, Inv, Known, Apply, Expose;
      ApplyBorrow(model, name);
      NameKnown(name);
      if name !in buffers {
        return None, Some(if name in tombs.released then WasReleased else NotFound);
      }
      BorrowInv(model, name);
      var buf := LendBuffer(name);
      var l := NewLease(name, buf, LoanOf(old(model), name));
      model := StoreSpec.Borrow(old(model), name);
      return Some(l), None;
    }

    /** The lease comes from this store, and its loan is outstanding. */
    ghost predicate Outstanding(lease: Lease)
      reads `model, `issued
    {
      lease.id in issued && issued[lease.id] == lease && lease.id in model.leases
    }

    method NewLease(name: Name, buf: Buffer, ghost loan: Loan) returns (lease: Lease)
      requires LeasesOk(model.leases, model.nextLease) && Known(buf)
      requires loan.name == name && loan.slot == buf.id && loan.view == buf.view
      modifies `issued
      ensures LeasesOk(model.leases[lease.id := loan], lease.id + 1) && issued == old(issued)[lease.id := lease]
      ensures fresh(lease) && lease.id == model.nextLease && !lease.released
      ensures lease.name == name && lease.buffer == buf && lease.exposed == Expose(buf.view)
    {
      hide Expose;
      lease := new Lease(model.nextLease, name, buf);
      issued := issued[lease.id := lease];
    }

    /** Ends a lease. Later calls do nothing, and report what the first one reported. */
    method ReleaseLease(lease: Lease) returns (err: Option<StoreError>)
      requires Valid() && Inv(model) && lease.id in issued && issued[lease.id] == lease
      modifies `model, `buffers, `detached, `counters, tombs, objects.Values, closures.Values, lease
      ensures Valid() && Inv(model) && model == Apply(old(model), Op.ReleaseLease(lease.id))
      ensures lease.released && err == lease.releaseErr
      ensures old(lease.released) ==> model == old(model) && err == old(lease.releaseErr)
      ensures !old(lease.released) ==>
                err == if EndFails(old(model), lease.buffer.id) then Some(ReleaseFailed) else None
    {
      hide Valid, Inv, Known, EndedBorrow, Fire, EndBorrow;
      LeaseKnown(lease);
      if !lease.released {
        ReleaseLeaseInv(model, lease.id);
        BeginRelease(lease);
        EndsAreFires(model, lease.name, lease.buffer.id);
        var taken := EndBorrowOf(lease.name, lease.buffer);
        var failed := CallRelease(lease.name, taken);
        lease.releaseErr := if failed then Some(ReleaseFailed) else None;
      }
      err := lease.releaseErr;
    }

    method BeginRelease(lease: Lease)
      requires Valid() && lease.id in issued && issued[lease.id] == lease
      modifies `model, lease`released
      ensures Valid() && model == old(model).(leases := old(model).leases - {lease.id}) && lease.released
    {
      hide ObjectsOk, NamesOk, DetachedOk, QueuesOk, LeasesOk, ClosuresOk;
      MarkLease(lease, model.leases);
      model := model.(leases := model.leases - {lease.id});
    }

    lemma LeaseKnown(lease: Lease)
      requires Valid() && lease.id in issued && issued[lease.id] == lease
      ensures lease.released <==> lease.id !in model.leases
      ensures !lease.released ==>
                && lease.name == model.leases[lease.id].name && lease.buffer.id == model.leases[lease.id].slot
                && Known(lease.buffer) && lease.buffer.id in model.slots && lease.buffer in objects.Values
    {
    }

    method MarkLease(lease: Lease, ghost leases: map<nat, Loan>)
      requires LeasesOk(leases, model.nextLease) && lease.id in issued && issued[lease.id] == lease
      modifies lease`released
      ensures LeasesOk(leases - {lease.id}, model.nextLease) && lease.released
    {
      lease.released := true;
    }

    /** Borrows a name without a lease object: the borrow joins the queue of the name. */
    method BorrowNamed(name: Name) returns (exposed: Option<Exposed>, err: Option<StoreError>)
      requires Valid() && Inv(model)
      modifies `model, `counters, `namedBorrows, objects.Values
      ensures Valid() && Inv(model) && model == Apply(old(model), Op.BorrowNamed(name))
      ensures if name in buffers then err == None && exposed == Some(Expose(old(buffers[name].view)))
              else exposed == None && err == Some(Missing(old(model).tombs, name))
    {
      hide ObjectsOk, NamesOk, DetachedOk, QueuesOk, LeasesOk, ClosuresOk, Inv, Known, Apply;
      ApplyBorrowNamed(model, name);
      NameKnown(name);
      if name !in buffers {
        return None, Some(if name in tombs.released then WasReleased else NotFound);
      }
      BorrowNamedInv(model, name);
      var buf := LendBuffer(name);
      PushBorrow(name, buf, model.queues, LoanOf(old(model), name));
      model := StoreSpec.BorrowNamed(old(model), name);
      return Some(Expose(buf.view)), None;
    }

    method PushBorrow(name: Name, buf: Buffer, ghost queues: map<Name, seq<Loan>>, ghost loan: Loan)
      requires QueuesOk(queues) && Known(buf) && loan.slot == buf.id
      modifies `namedBorrows
      ensures QueuesOk(queues[name := QueueOf(queues, name) + [loan]])
    {
      assert name in namedBorrows ==> Matches(queues[name], namedBorrows[name]);
      namedBorrows := namedBorrows[name := (if name in namedBorrows then namedBorrows[name] else []) + [buf]];
    }

    method PopBorrow(name: Name, ghost queues: map<Name, seq<Loan>>) returns (buf: Buffer)
      requires QueuesOk(queues) && name in namedBorrows && namedBorrows[name] != []
      modifies `namedBorrows
      ensures name in queues && queues[name] != [] && QueuesOk(Popped(queues, name))
      ensures buf == old(namedBorrows[name][0]) && buf.id == queues[name][0].slot && Known(buf)
    {
      assert Matches(queues[name], namedBorrows[name]);
      buf := namedBorrows[name][0];
      if |namedBorrows[name]| == 1 {
        namedBorrows := namedBorrows - {name};
      } else {
        namedBorrows := namedBorrows[name := namedBorrows[name][1..]];
      }
    }

    lemma QueueKnown(name: Name)
      requires Valid()
      ensures name in namedBorrows && namedBorrows[name] != [] <==> QueueOf(model.queues, name) != []
      ensures name in namedBorrows && namedBorrows[name] != [] ==> namedBorrows[name][0] in objects.Values
    {
      if name in namedBorrows { assert Matches(model.queues[name], namedBorrows[name]); }
    }

    /** Ends the oldest unreleased named borrow of a name. */
    method ReleaseNamed(name: Name) returns (err: Option<StoreError>)
      requires Valid() && Inv(model)
      modifies `model, `buffers, `detached, `counters, `namedBorrows, tombs, objects.Values, closures.Values
      ensures Valid() && Inv(model) && model == Apply(old(model), Op.ReleaseNamed(name))
      ensures err == if QueueOf(old(model).queues, name) == [] then Some(NoNamedBorrow)
                     else if EndFails(old(model), QueueOf(old(model).queues, name)[0].slot)
                       then Some(ReleaseFailed) else None
    {
      hide Valid, Inv, Known, EndedBorrow, Fire, EndBorrow, Popped;
      QueueKnown(name);
      ReleaseNamedInv(model, name);
      if name !in namedBorrows || namedBorrows[name] == [] {
        return Some(NoNamedBorrow);
      }
      var buf := PopOldest(name);
      EndsAreFires(model, name, buf.id);
      var taken := EndBorrowOf(name, buf);
      var failed := CallRelease(name, taken);
      return if failed then Some(ReleaseFailed) else None;
    }

    method PopOldest(name: Name) returns (buf: Buffer)
      requires Valid() && name in namedBorrows && namedBorrows[name] != []
      modifies `model, `namedBorrows
      ensures name in old(model).queues && old(model).queues[name] != []
      ensures Valid() && model == old(model).(queues := Popped(old(model).queues, name))
      ensures buf == old(namedBorrows[name][0]) && buf.id == old(model).queues[name][0].slot && Known(buf)
    {
      hide ObjectsOk, NamesOk, DetachedOk, QueuesOk, LeasesOk, ClosuresOk, Known, Popped;
      ghost var queues := model.queues;
      buf := PopBorrow(name, queues);
      model := model.(queues := Popped(queues, name));
    }

    // ---------- direct references

    /** Adds a direct reference, to a dead buffer as well. */
    method Retain(buf: Buffer)
      requires Valid() && Inv(model) && Known(buf)
      modifies `model, buf
      ensures Valid() && Inv(model) && buf.id in old(model).slots && model == Apply(old(model), Op.Retain(buf.id))
    {
      hide ObjectsOk, NamesOk, DetachedOk, QueuesOk, LeasesOk, ClosuresOk, Inv, Known;
      KnownSnap(buf);
      RetainInv(model, buf.id);
      RaiseBufferDirect(buf, model.slots);
      model := StoreSpec.Retain(model, buf.id);
    }

    /** Drops a direct reference, if there is one. */
    method ReleaseDirect(buf: Buffer) returns (left: int)
      requires Valid() && Inv(model) && Known(buf)
      modifies `model, `detached, `counters, tombs, buf, closures.Values
      ensures Valid() && Inv(model) && buf.id in old(model).slots
      ensures model == Apply(old(model), Op.ReleaseDirect(buf.id))
      ensures left == LowerDirect(old(model).slots[buf.id]).refs
    {
      hide ObjectsOk, NamesOk, DetachedOk, QueuesOk, LeasesOk, ClosuresOk, Inv, Known, EndedDirect, Fire;
      KnownSnap(buf);
      ReleaseDirectInv(model, buf.id);
      EndsAreFires(model, buf.name, buf.id);
      var taken;
      left, taken := EndDirectOf(buf);
      var failed := CallRelease(buf.name, taken);
    }

    // ---------- what becomes of moved arrays

    /**
     In every store: each callback of the producer of a moved array has run once if no referenced buffer holds the
     array any more, and is still to run otherwise.
     */
    lemma ProducerReleasedOnce(moved: MovedArray)
      requires Valid() && Inv(model) && moved.token in closures && closures[moved.token] == moved
      ensures var over := !Guarded(model, moved.token);
              && moved.arrayLive == (moved.hadArray && !over) && moved.schemaLive == (moved.hadSchema && !over)
              && moved.arrayReleases == (if moved.hadArray && over then 1 else 0)
              && moved.schemaReleases == (if moved.hadSchema && over then 1 else 0)
    {
      hide Inv, Guarded, ObjectsOk, NamesOk, DetachedOk, QueuesOk, LeasesOk;
      CallbackOnce(model, moved.token);
    }

    // ---------- isolation

    /**
     Every lease that has not been released exposes exactly what its buffer object holds: the object is not
     overwritten under the lease, and it is referenced.
     */
    lemma LeaseSeesItsBuffer(lease: Lease)
      requires Valid() && Inv(model) && lease.id in issued && issued[lease.id] == lease && !lease.released
      ensures Known(lease.buffer) && lease.exposed == Expose(lease.buffer.view)
      ensures lease.buffer.refs >= 1 && lease.buffer.name == lease.name
    {
      LeaseKnown(lease);
      LentIsLive(model, lease.id);
      assert lease.exposed == Expose(model.leases[lease.id].view);
      KnownSnap(lease.buffer);
    }
  }

  ghost predicate FreeFails(s: Store, name: Name)
    requires name in s.current
  {
    s.current[name] in s.slots && LowerOwner(s.slots[s.current[name]]).refs <= 0
      && FailureOf(s.slots[s.current[name]].release)
  }
}
