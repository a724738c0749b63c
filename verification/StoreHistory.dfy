/**
 What callers see of the store, told without its operations: which buffer a name stands for, what it exposes, how often
 it is retained, what is counted, and which calls report a failed callback.
 */
module StoreHistory {
  import opened Buffers
  import opened Layout
  import opened Options
  import opened SharedStore
  import opened StoreInv
  import opened StoreRuns
  import opened StoreSpec

  // ---------- metadata

  /** Metadata that describes host memory: sizes and shapes that make sense, and can be multiplied out. */
  ghost predicate Sound(meta: Metadata) {
    && (meta.memorySpace == "" || meta.memorySpace == "host")
    && meta.offset >= 0 && meta.nullCount >= -1 && meta.validityBytes >= 0 && meta.validityBitOffset >= 0
    && (meta.strides == [] || |meta.strides| == |meta.shape|)
    && SoundShape(meta.shape)
  }

  /** No dimension is negative, and the dimensions before the first zero have a product that fits. */
  ghost predicate SoundShape(shape: seq<int64>) {
    && (forall i :: 0 <= i < |shape| ==> shape[i] >= 0)
    && forall n :: 0 <= n <= |shape| && (forall i :: 0 <= i < n ==> shape[i] != 0) ==> Product(shape[..n]) <= MAX
  }

  lemma {:induction false} FirstZero(shape: seq<int64>) returns (n: nat)
    ensures n <= |shape| && (forall i :: 0 <= i < n ==> shape[i] != 0) && (n < |shape| ==> shape[n] == 0)
  {
    n := 0;
    if shape != [] && shape[0] != 0 {
      var m := FirstZero(shape[1..]);
      n := m + 1;
      assert forall i :: 0 < i < n ==> shape[i] == shape[1..][i - 1];
    }
  }

  lemma SoundShapeIff(shape: seq<int64>)
    ensures Admissible(shape) <==> SoundShape(shape)
  {
    var m := FirstZero(shape);
    BeforeZeroPrefix(shape, m);
    if NonNegative(shape) && Product(shape[..m]) <= MAX {
      forall n | 0 <= n <= |shape| && (forall i :: 0 <= i < n ==> shape[i] != 0) ensures Product(shape[..n]) <= MAX {
        assert n <= m;
        assert shape[..m] == shape[..n] + shape[n..m];
        ProductGrows(shape[..n], shape[n..m]);
      }
    }
    hide Product;
  }

  lemma SoundIff(meta: Metadata)
    ensures MetadataOk(meta) <==> Sound(meta)
  {
    SoundShapeIff(meta.shape);
    hide Admissible, SoundShape;
  }

  // ---------- publishing

  /** The current buffer of the name has no holder besides its owner, so it is reused. */
  ghost predicate Reused(s: Store, name: Name) {
    name in s.current && s.current[name] in s.slots && s.slots[s.current[name]].refs <= 1
  }

  /** The buffer that a publication of the name goes to. */
  ghost function BufferFor(s: Store, name: Name): SlotID {
    if Reused(s, name) then s.current[name] else s.nextSlot
  }

  ghost function OldRelease(s: Store, name: Name): Option<Callback> {
    if Reused(s, name) then s.slots[s.current[name]].release else None
  }

  /**
   The name stands for the buffer `x`, which holds the view and will run the callback; other names stand for theirs.
   The callback `ran` was run, and no other.
   */
  ghost predicate PublishedAs(s: Store, s': Store, name: Name, view: View, release: Option<Callback>, x: SlotID,
                              ran: Option<Callback>)
  {
    && s'.current == s.current[name := x]
    && x in s'.slots && s'.slots[x].view == view && s'.slots[x].release == release && s'.slots[x].name == name
    && (forall y :: y in s.slots ==> y in s'.slots && s'.slots[y].retains == s.slots[y].retains)
    && s'.counters == s.counters.(releaseErrors := s.counters.releaseErrors + if FailureOf(ran) then 1 else 0)
    && RanOnly(s, s', ran)
  }

  /** Of the callbacks the store knows, this one has run since, and no other. */
  ghost predicate RanOnly(s: Store, s': Store, ran: Option<Callback>) {
    forall c :: c in s.fates ==>
      c in s'.fates && s'.fates[c] == if ran.Some? && ran.value.id == c then Ran(Times(s, c) + 1) else s.fates[c]
  }

  lemma FireEffect(s: Store, name: Name, release: Option<Callback>)
    ensures var s' := Fire(s, name, release);
            && s' == s.(fates := s'.fates, tombs := s'.tombs, counters := s'.counters)
            && s'.counters
              == s.counters.(releaseErrors := s.counters.releaseErrors + if FailureOf(release) then 1 else 0)
            && RanOnly(s, s', release)
            && (forall c :: c in s'.fates ==> c in s.fates || (release.Some? && release.value.id == c))
  {
  }

  lemma AddedAs(s: Store, name: Name, view: View, release: Option<Callback>)
    requires s.nextSlot !in s.slots && Fresh(s, release)
    ensures PublishedAs(s, AddSlot(s, name, view, release), name, view, release, s.nextSlot, None)
  {
  }

  lemma DetachedAs(s: Store, name: Name, view: View, release: Option<Callback>)
    requires name in s.current && s.current[name] in s.slots && s.nextSlot !in s.slots && Fresh(s, release)
    ensures PublishedAs(s, AddSlot(Detach(s, name), name, view, release), name, view, release, s.nextSlot, None)
  {
    var d := Detach(s, name);
    AddedAs(d, name, view, release);
    assert (s.current - {name})[name := s.nextSlot] == s.current[name := s.nextSlot];
    hide AddSlot, Disown;
  }

  lemma OverwrittenAs(s: Store, name: Name, view: View, release: Option<Callback>)
    requires name in s.current && s.current[name] in s.slots
    requires s.slots[s.current[name]].name == name && Fresh(s, release)
    requires var old' := s.slots[s.current[name]].release; old'.Some? ==> old'.value.id in s.fates
    ensures PublishedAs(s, Overwrite(s, name, view, release), name, view, release, s.current[name],
                        s.slots[s.current[name]].release)
  {
    var x := s.current[name];
    var s1 := Overwritten(s, name, view, release);
    FireEffect(s1, name, s.slots[x].release);
    assert s.current[name := x] == s.current;
    hide Fire;
  }

  lemma ForgottenFirst(s: Store, s0: Store, s': Store, name: Name, view: View, release: Option<Callback>, x: SlotID,
                       ran: Option<Callback>)
    requires s0 == s.(tombs := s0.tombs) && PublishedAs(s0, s', name, view, release, x, ran)
    ensures PublishedAs(s, s', name, view, release, x, ran)
  {
  }

  lemma PublishedEffect(s: Store, name: Name, view: View, release: Option<Callback>)
    requires Inv(s) && Fresh(s, release)
    ensures name in s.current ==> s.current[name] in s.slots
    ensures PublishedAs(s, Publish(s, name, view, release), name, view, release, BufferFor(s, name),
              OldRelease(s, name))
  {
    hide Inv, Forget, PublishedAs, AddSlot, Detach, Overwrite, Fresh;
    NextIsNew(s);
    CurrentNamed(s, name);
    var s0 := s.(tombs := Forget(s.tombs, name));
    assert Fresh(s0, release) by { SameFresh(s, s0, release); }
    if name !in s.current {
      AddedAs(s0, name, view, release);
    } else if s.slots[s.current[name]].refs > 1 {
      DetachedAs(s0, name, view, release);
    } else {
      OverwrittenAs(s0, name, view, release);
    }
    ForgottenFirst(s, s0, Publish(s, name, view, release), name, view, release, BufferFor(s, name),
      OldRelease(s, name));
  }

  lemma SameFresh(s: Store, s0: Store, release: Option<Callback>)
    requires s0.fates == s.fates && Fresh(s, release)
    ensures Fresh(s0, release)
  {
  }

  lemma NextIsNew(s: Store)
    requires Inv(s)
    ensures s.nextSlot !in s.slots
  {
  }

  lemma CurrentNamed(s: Store, name: Name)
    requires Inv(s)
    ensures name in s.current ==>
              && s.current[name] in s.slots && s.slots[s.current[name]].name == name
              && (s.slots[s.current[name]].release.Some? ==> s.slots[s.current[name]].release.value.id in s.fates)
  {
  }

  // ---------- the other operations

  /** Names, retains and counters are as before, except for what `more` adds to the counters, and the callback ran. */
  ghost predicate QuietlyDone(s: Store, s': Store, more: Counters, ran: Option<Callback>) {
    && s'.current == s.current && SameRetains(s, s')
    && s'.counters == Plus(s.counters, more.(releaseErrors := if FailureOf(ran) then 1 else 0))
    && RanOnly(s, s', ran)
  }

  ghost predicate SameRetains(s: Store, s': Store) {
    forall y :: y in s.slots ==> y in s'.slots && s'.slots[y].retains == s.slots[y].retains
  }

  function Plus(a: Counters, b: Counters): Counters {
    Counters(a.allocations + b.allocations, a.sets + b.sets, a.gets + b.gets, a.releases + b.releases,
             a.releaseErrors + b.releaseErrors, a.zeroCopyBorrows + b.zeroCopyBorrows,
             a.zeroCopyImports + b.zeroCopyImports)
  }

  const NOTHING := Counters(0, 0, 0, 0, 0, 0, 0)

  /** The callback of a slot that loses a reference, if it was the last. */
  ghost function LastRelease(before: Slot, after: Slot): Option<Callback> {
    if after.refs <= 0 then before.release else None
  }

  lemma FreeEffect(s: Store, name: Name)
    requires name in s.current && s.current[name] in s.slots
    ensures var s', slot := StoreSpec.Free(s, name), s.slots[s.current[name]];
            && s'.current == s.current - {name} && SameRetains(s, s')
            && s'.counters == Plus(s.counters, NOTHING.(
                 releases := 1, releaseErrors := if FailureOf(LastRelease(slot, LowerOwner(slot))) then 1 else 0))
            && RanOnly(s, s', LastRelease(slot, LowerOwner(slot)))
  {
    hide Fire, Mark;
    FireEffect(Unlink(s, name), name, LowerOwner(s.slots[s.current[name]]).release);
  }

  lemma EndEffect(s: Store, name: Name, x: SlotID)
    requires Owed(s, x)
    ensures x in s.slots
    ensures QuietlyDone(s, EndBorrow(s, name, x), NOTHING.(releases := 1),
              LastRelease(s.slots[x], LowerBorrow(s.slots[x])))
  {
    Owing(s, x);
    hide Owed;
    EndedEffect(s, name, x);
    FireEffect(EndedBorrow(s, name, x), name, s.slots[x].release);
    FiredLater(s, EndedBorrow(s, name, x), name, s.slots[x].release);
    BorrowKeepsRelease(s.slots[x]);
    hide Fire, EndedBorrow, LowerBorrow, QuietlyDone;
  }

  lemma BorrowKeepsRelease(slot: Slot)
    ensures LowerBorrow(slot).release == slot.release
  {
  }

  lemma EndedEffect(s: Store, name: Name, x: SlotID)
    requires x in s.slots && s.slots[x].borrowRefs >= 1 && s.slots[x].refs >= 1
    requires s.slots[x].refs == 1 ==> forall n :: n in s.current ==> s.current[n] != x
    ensures QuietlyDone(s, EndedBorrow(s, name, x), NOTHING.(releases := 1), None)
    ensures EndedBorrow(s, name, x).fates == s.fates
  {
  }

  /** A callback that runs at the end. */
  lemma FiredLater(s: Store, s1: Store, name: Name, release: Option<Callback>)
    requires QuietlyDone(s, s1, NOTHING.(releases := 1), None) && s1.fates == s.fates
    ensures QuietlyDone(s, Fire(s1, name, release), NOTHING.(releases := 1), release)
  {
    FireEffect(s1, name, release);
    hide Fire;
  }

  lemma LeaseDropped(s: Store, t: Store, s': Store, more: Counters, ran: Option<Callback>)
    requires t == s.(leases := t.leases, queues := t.queues) && QuietlyDone(t, s', more, ran)
    ensures QuietlyDone(s, s', more, ran)
  {
  }

  lemma DirectEffect(s: Store, x: SlotID)
    requires x in s.slots
    ensures var s', slot := StoreSpec.ReleaseDirect(s, x), s.slots[x];
            && s'.current == s.current
            && s'.counters == Plus(s.counters, NOTHING.(
                 releaseErrors := if FailureOf(LastRelease(slot, LowerDirect(slot))) then 1 else 0))
            && RanOnly(s, s', LastRelease(slot, LowerDirect(slot)))
            && forall y :: y in s.slots ==>
                 y in s'.slots
                   && s'.slots[y].retains == if y == x then LowerDirect(slot).retains else s.slots[y].retains
  {
    hide Fire, LowerDirect;
    var low := LowerDirect(s.slots[x]);
    assert low.name == s.slots[x].name && low.release == s.slots[x].release by { DirectKeepsRelease(s.slots[x]); }
    FireEffect(EndedDirect(s, x), low.name, low.release);
  }

  lemma DirectKeepsRelease(slot: Slot)
    ensures LowerDirect(slot).name == slot.name && LowerDirect(slot).release == slot.release
  {
  }

  /** Direct retains of a consistent buffer go down to zero, and no further. */
  lemma DirectRetains(s: Store, x: SlotID)
    requires Inv(s) && x in s.slots
    ensures LowerDirect(s.slots[x]).retains == if s.slots[x].retains > 0 then s.slots[x].retains - 1 else 0
  {
    RefsNotNegative(s, x);
    hide Inv;
  }

  lemma LendEffect(s: Store, name: Name)
    requires name in s.current && s.current[name] in s.slots
    ensures QuietlyDone(s, StoreSpec.Borrow(s, name), NOTHING.(gets := 1, zeroCopyBorrows := 1), None)
    ensures QuietlyDone(s, StoreSpec.BorrowNamed(s, name), NOTHING.(gets := 1, zeroCopyBorrows := 1), None)
  {
    hide QueueOf;
  }

  lemma NothingDone(s: Store)
    ensures QuietlyDone(s, s, NOTHING, None)
  {
  }

  // ---------- every operation

  /** The operation publishes a view under its name. */
  ghost predicate Publishing(s: Store, op: Op) {
    match op
    case Allocate(name, size) => size >= 0 && name !in s.current
    case Set(_, _, _, meta) => Sound(meta)
    case SetExternal(_, data, len, validity, validityLen, meta, release) =>
      && Fresh(s, release) && Sound(meta) && len >= 0 && validityLen >= 0
      && (len > 0 ==> !data.Absent?) && (validityLen > 0 ==> !validity.Absent?)
    case _ => false
  }

  /** The operation addresses a live name, an outstanding lease, or a name with an unreturned named borrow. */
  ghost predicate Succeeds(s: Store, op: Op) {
    match op
    case Get(name) => name in s.current
    case Free(name) => name in s.current
    case Borrow(name) => name in s.current
    case BorrowNamed(name) => name in s.current
    case ReleaseLease(l) => l in s.leases
    case ReleaseNamed(name) => QueueOf(s.queues, name) != []
    case _ => Publishing(s, op)
  }

  function One(b: bool): int {
    if b then 1 else 0
  }

  /** What each counter counts. */
  ghost function Counted(s: Store, op: Op, ran: Option<Callback>): Counters {
    var ok := Succeeds(s, op);
    Counters(One(ok && op.Allocate?), One(ok && (op.Set? || op.SetExternal?)),
             One(ok && (op.Get? || op.Borrow? || op.BorrowNamed?)),
             One(ok && (op.Free? || op.ReleaseLease? || op.ReleaseNamed?)), One(FailureOf(ran)),
             One(ok && (op.Borrow? || op.BorrowNamed?)), One(ok && op.SetExternal?))
  }

  /** How often a buffer is retained: every retain counts, and every direct release takes one back, if there is one. */
  function RetainsAfter(retains: nat, op: Op, x: SlotID): nat {
    if op == Retain(x) then retains + 1
    else if op == ReleaseDirect(x) then (if retains > 0 then retains - 1 else 0)
    else retains
  }

  /** What an operation does to the names. */
  ghost predicate NamesStep(s: Store, op: Op, s': Store) {
    if Publishing(s, op) then
      && op.name in s'.current && s'.current == s.current[op.name := s'.current[op.name]]
      && s'.current[op.name] == BufferFor(s, op.name)
    else s'.current == if op.Free? then s.current - {op.name} else s.current
  }

  ghost predicate OpEffect(s: Store, op: Op, s': Store, ran: Option<Callback>) {
    && NamesStep(s, op, s')
    && (forall x :: x in s.slots ==> x in s'.slots && s'.slots[x].retains == RetainsAfter(s.slots[x].retains, op, x))
    && s'.counters == Plus(s.counters, Counted(s, op, ran))
    && RanOnly(s, s', ran)
  }

  /** The callback belongs to a buffer of the store. */
  ghost predicate Held(s: Store, ran: Option<Callback>) {
    ran.Some? ==> exists x :: x in s.slots && s.slots[x].release == ran
  }

  lemma QuietOp(s: Store, op: Op, s': Store, ran: Option<Callback>)
    requires QuietlyDone(s, s', Counted(s, op, None), ran)
    requires !Publishing(s, op) && !op.Free? && !op.Retain? && !op.ReleaseDirect?
    ensures OpEffect(s, op, s', ran)
  {
    hide Sound, QueueOf;
  }

  lemma CountedPublish(s: Store, s1: Store, op: Op, view: View, release: Option<Callback>, x: SlotID,
    ran: Option<Callback>)
    requires Publishes(op) && Publishing(s, op) && PublishedAs(s, s1, op.name, view, release, x, ran)
    requires x == BufferFor(s, op.name)
    ensures OpEffect(s, op, CountPublish(s1, op), ran)
  {
    hide Sound, BufferFor, QueueOf, RanOnly;
    assert RanOnly(s, CountPublish(s1, op), ran) by { SameRan(s, s1, CountPublish(s1, op), ran); }
  }

  lemma SameRan(s: Store, s1: Store, s2: Store, ran: Option<Callback>)
    requires RanOnly(s, s1, ran) && s2.fates == s1.fates
    ensures RanOnly(s, s2, ran)
  {
  }

  lemma SoundStoring(s: Store, op: Op)
    ensures Storing(s, op) <==> Publishing(s, op)
  {
    if op.Set? || op.SetExternal? { SoundIff(op.meta); }
    hide Sound, MetadataOk;
  }

  lemma PublishOp(s: Store, op: Op) returns (ran: Option<Callback>)
    requires Inv(s) && Publishes(op)
    ensures OpEffect(s, op, Apply(s, op), ran) && Held(s, ran)
    ensures Publishing(s, op) ==> ran == OldRelease(s, op.name)
  {
    hide Inv, Apply, Publish, Publishing, Storing, OpEffect, PublishedAs;
    hide Fresh, Reject, QuietlyDone, CountPublish, Counted;
    hide BufferFor, OldRelease;
    SoundStoring(s, op);
    var outcome := ApplyPublish(s, op);
    ran := None;
    match outcome
    case Unchanged => UnchangedEffect(s, op);
    case Rejected => RejectEffect(s, op);
    case Stored(view, release) =>
      PublishedEffect(s, op.name, view, release);
      ran := OldRelease(s, op.name);
      OldIsHeld(s, op.name);
      CountedPublish(s, Publish(s, op.name, view, release), op, view, release, BufferFor(s, op.name), ran);
  }

  lemma OldIsHeld(s: Store, name: Name)
    requires name in s.current ==> s.current[name] in s.slots
    ensures Held(s, OldRelease(s, name))
  {
  }

  lemma UnchangedEffect(s: Store, op: Op)
    requires Publishes(op) && !Publishing(s, op)
    ensures OpEffect(s, op, s, None)
  {
    hide Publishing;
  }

  lemma RejectEffect(s: Store, op: Op)
    requires op.SetExternal? && Fresh(s, op.release) && !Publishing(s, op)
    ensures OpEffect(s, op, Reject(s, op.release), None)
  {
    hide Publishing;
  }

  lemma FreeOp(s: Store, op: Op) returns (ran: Option<Callback>)
    requires Inv(s) && op.Free?
    ensures OpEffect(s, op, Apply(s, op), ran) && Held(s, ran)
    ensures op.name in s.current ==>
              && s.current[op.name] in s.slots
              && ran == LastRelease(s.slots[s.current[op.name]], LowerOwner(s.slots[s.current[op.name]]))
  {
    hide Inv, Apply, StoreSpec.Free, LowerOwner;
    ApplyFree(s, op.name);
    ran := None;
    if op.name in s.current {
      FreeEffect(s, op.name);
      ran := LastRelease(s.slots[s.current[op.name]], LowerOwner(s.slots[s.current[op.name]]));
    } else {
      assert s.current - {op.name} == s.current;
    }
  }

  /** The buffer whose borrow is returned. */
  ghost function ReturnedSlot(s: Store, op: Op): SlotID
    requires (op.ReleaseLease? || op.ReleaseNamed?) && Succeeds(s, op)
  {
    if op.ReleaseLease? then s.leases[op.l].slot else QueueOf(s.queues, op.name)[0].slot
  }

  lemma ReturnOp(s: Store, op: Op) returns (ran: Option<Callback>)
    requires Inv(s) && (op.ReleaseLease? || op.ReleaseNamed?)
    ensures OpEffect(s, op, Apply(s, op), ran) && Held(s, ran)
    ensures Succeeds(s, op) ==>
              && ReturnedSlot(s, op) in s.slots
              && ran == LastRelease(s.slots[ReturnedSlot(s, op)], LowerBorrow(s.slots[ReturnedSlot(s, op)]))
  {
    hide Inv, Apply, EndBorrow, QueueOf, Popped, Owed, QuietlyDone, OpEffect, Counted, LowerBorrow;
    ran := None;
    match op
    case ReleaseLease(l) =>
      ApplyReleaseLease(s, l);
      if l in s.leases {
        ReleaseLeaseOwes(s, l);
        ran := EndsOwed(s, s.(leases := s.leases - {l}), op, s.leases[l].name, s.leases[l].slot);
      } else {
        IdleReturn(s, op);
      }
    case ReleaseNamed(name) =>
      ApplyReleaseNamed(s, name);
      if QueueOf(s.queues, name) != [] {
        HeadKnown(s, name);
        ReleaseNamedOwes(s, name);
        ran := EndsOwed(s, s.(queues := Popped(s.queues, name)), op, name, s.queues[name][0].slot);
      } else {
        IdleReturn(s, op);
      }
  }

  lemma EndsOwed(s: Store, t: Store, op: Op, name: Name, x: SlotID) returns (ran: Option<Callback>)
    requires t == s.(leases := t.leases, queues := t.queues) && Owed(t, x) && x in t.slots
    requires (op.ReleaseLease? || op.ReleaseNamed?) && Succeeds(s, op)
    ensures OpEffect(s, op, EndBorrow(t, name, x), ran) && Held(s, ran)
    ensures ran == LastRelease(s.slots[x], LowerBorrow(s.slots[x]))
  {
    EndEffect(t, name, x);
    ran := LastRelease(t.slots[x], LowerBorrow(t.slots[x]));
    hide Owed, EndBorrow, LowerBorrow, QueueOf, OpEffect;
    LeaseDropped(s, t, EndBorrow(t, name, x), NOTHING.(releases := 1), ran);
    hide QuietlyDone;
    QuietOp(s, op, EndBorrow(t, name, x), ran);
  }

  lemma IdleReturn(s: Store, op: Op)
    requires (op.ReleaseLease? || op.ReleaseNamed?) && !Succeeds(s, op)
    ensures OpEffect(s, op, s, None)
  {
    hide QueueOf;
  }

  lemma LendOp(s: Store, op: Op)
    requires Inv(s) && (op.Borrow? || op.BorrowNamed? || op.Get?)
    ensures OpEffect(s, op, Apply(s, op), None)
  {
    hide Inv, Apply, StoreSpec.Borrow, StoreSpec.BorrowNamed, OpEffect, QuietlyDone;
    ApplyGetExactly(s, op.name);
    ApplyBorrow(s, op.name);
    ApplyBorrowNamed(s, op.name);
    if op.name in s.current { LendEffect(s, op.name); }
    GetEffect(s);
    NothingDone(s);
    QuietOp(s, op, Apply(s, op), None);
  }

  lemma ApplyGetExactly(s: Store, name: Name)
    requires Inv(s)
    ensures Apply(s, Op.Get(name)) == if name in s.current then CountGet(s) else s
  {
    hide Inv, CountGet;
  }

  lemma GetEffect(s: Store)
    ensures QuietlyDone(s, CountGet(s), NOTHING.(gets := 1), None)
  {
  }

  lemma DirectOp(s: Store, op: Op) returns (ran: Option<Callback>)
    requires Inv(s) && (op.Retain? || op.ReleaseDirect?)
    ensures OpEffect(s, op, Apply(s, op), ran) && Held(s, ran)
  {
    hide Inv, Apply, StoreSpec.ReleaseDirect, StoreSpec.Retain, OpEffect, LowerDirect;
    ApplyRetain(s, op.x);
    ApplyReleaseDirect(s, op.x);
    ran := None;
    if op.x !in s.slots {
      IdleDirect(s, op);
    } else if op.Retain? {
      RetainEffect(s, op);
    } else {
      DirectEffect(s, op.x);
      DirectRetains(s, op.x);
      ran := LastRelease(s.slots[op.x], LowerDirect(s.slots[op.x]));
      DirectlyDone(s, op, StoreSpec.ReleaseDirect(s, op.x), ran);
    }
  }

  lemma IdleDirect(s: Store, op: Op)
    requires (op.Retain? || op.ReleaseDirect?) && op.x !in s.slots
    ensures OpEffect(s, op, s, None)
  {
  }

  lemma RetainEffect(s: Store, op: Op)
    requires op.Retain? && op.x in s.slots
    ensures OpEffect(s, op, StoreSpec.Retain(s, op.x), None)
  {
  }

  lemma DirectlyDone(s: Store, op: Op, s': Store, ran: Option<Callback>)
    requires op.ReleaseDirect? && op.x in s.slots && s'.current == s.current && RanOnly(s, s', ran)
    requires s'.counters == Plus(s.counters, NOTHING.(releaseErrors := if FailureOf(ran) then 1 else 0))
    requires forall y :: y in s.slots ==>
               y in s'.slots && s'.slots[y].retains == RetainsAfter(s.slots[y].retains, op, y)
    ensures OpEffect(s, op, s', ran)
  {
    hide RanOnly, RetainsAfter;
  }

  /**
   Every operation: which buffer a name stands for, how often a buffer is retained, and what is counted afterwards
   follows from what it was, and at most one callback runs, of a buffer of the store.
   */
  lemma EveryOp(s: Store, op: Op) returns (ran: Option<Callback>)
    requires Inv(s)
    ensures OpEffect(s, op, Apply(s, op), ran) && Held(s, ran)
  {
    hide Inv, Apply, OpEffect, Held;
    if Publishes(op) {
      ran := PublishOp(s, op);
    } else if op.Free? {
      ran := FreeOp(s, op);
    } else if op.ReleaseLease? || op.ReleaseNamed? {
      ran := ReturnOp(s, op);
    } else if op.Retain? || op.ReleaseDirect? {
      ran := DirectOp(s, op);
    } else {
      LendOp(s, op);
      ran := None;
      NoneHeld(s);
    }
  }

  lemma NoneHeld(s: Store)
    ensures Held(s, None)
  {
  }

  // ---------- references over whole runs

  function RetainsBy(start: nat, ops: seq<Op>, x: SlotID): nat {
    if ops == [] then start else RetainsAfter(RetainsBy(start, ops[..|ops| - 1], x), ops[|ops| - 1], x)
  }

  lemma {:induction false} RetainsOf(s: Store, ops: seq<Op>, x: SlotID)
    requires Inv(s) && x in s.slots
    ensures x in Run(s, ops).slots && Run(s, ops).slots[x].retains == RetainsBy(s.slots[x].retains, ops, x)
  {
    if ops != [] {
      hide Inv, Apply, RanOnly, NamesStep, RetainsAfter;
      var before, op := Run(s, ops[..|ops| - 1]), ops[|ops| - 1];
      RetainsOf(s, ops[..|ops| - 1], x);
      var ran := EveryOp(before, op);
    }
  }

  /** The name of a buffer still stands for it. */
  ghost predicate IsCurrent(s: Store, x: SlotID)
    requires x in s.slots
  {
    s.slots[x].name in s.current && s.current[s.slots[x].name] == x
  }

  /**
   Over every run, the references of a buffer are the loans that are out, one for its name if that still stands for
   it, and the retains that were not taken back.
   */
  lemma ReferencesOf(s: Store, ops: seq<Op>, x: SlotID)
    requires Inv(s) && x in s.slots
    ensures x in Run(s, ops).slots
    ensures var s' := Run(s, ops);
            s'.slots[x].refs == Loaned(s', x) + One(IsCurrent(s', x)) + RetainsBy(s.slots[x].retains, ops, x)
  {
    RetainsOf(s, ops, x);
    hide Inv, RetainsBy, Run;
    Accounted(Run(s, ops), x);
  }

  lemma Accounted(s: Store, x: SlotID)
    requires Inv(s) && x in s.slots
    ensures s.slots[x].refs == Loaned(s, x) + One(IsCurrent(s, x)) + s.slots[x].retains
  {
    assert SlotOk(s, x, 0);
    hide Loaned;
  }

  /** Somebody can still reach the buffer: by its name, by a loan, or by a retain. */
  ghost predicate Reachable(s: Store, x: SlotID)
    requires x in s.slots
  {
    IsCurrent(s, x) || Loaned(s, x) > 0 || s.slots[x].retains > 0
  }

  /** A callback has run once exactly if no buffer that holds it can be reached any more. */
  lemma CallbackRunsWhenUnreachable(s: Store, c: nat)
    requires Inv(s) && c in s.fates
    ensures Times(s, c) == 1 <==>
              forall x :: x in s.slots && s.slots[x].release.Some? && s.slots[x].release.value.id == c ==>
                !Reachable(s, x)
    ensures Times(s, c) <= 1
  {
    CallbackOnce(s, c);
    forall x | x in s.slots ensures Reachable(s, x) <==> s.slots[x].refs > 0 {
      Accounted(s, x);
    }
    hide Inv, Loaned, Times;
  }

  // ---------- failures

  /** Between the two stores a callback that fails was run, of a buffer of the first one. */
  ghost predicate FailureBetween(s: Store, s': Store) {
    exists x :: && x in s.slots && s.slots[x].release.Some? && s.slots[x].release.value.fails
                && Times(s', s.slots[x].release.value.id) > Times(s, s.slots[x].release.value.id)
  }

  lemma FailureIff(s: Store, s': Store, ran: Option<Callback>)
    requires Inv(s) && RanOnly(s, s', ran) && Held(s, ran)
    ensures FailureBetween(s, s') <==> FailureOf(ran)
  {
    assert forall x :: x in s.slots && s.slots[x].release.Some? ==> s.slots[x].release.value.id in s.fates;
    if FailureOf(ran) {
      var x :| x in s.slots && s.slots[x].release == ran;
      assert Times(s', ran.value.id) == Times(s, ran.value.id) + 1;
    }
    if x :| && x in s.slots && s.slots[x].release.Some? && s.slots[x].release.value.fails
            && Times(s', s.slots[x].release.value.id) > Times(s, s.slots[x].release.value.id) {
      assert ran.Some? && ran.value.id == s.slots[x].release.value.id;
      SameCallback(s, x, ran);
    }
  }

  /** Callbacks of different buffers are different. */
  lemma SameCallback(s: Store, x: SlotID, ran: Option<Callback>)
    requires Inv(s) && Held(s, ran) && ran.Some? && x in s.slots && s.slots[x].release.Some?
    requires s.slots[x].release.value.id == ran.value.id
    ensures s.slots[x].release == ran
  {
  }

  lemma EffectCounts(s: Store, op: Op, s': Store, ran: Option<Callback>)
    requires OpEffect(s, op, s', ran)
    ensures RanOnly(s, s', ran) && s'.counters.releaseErrors == s.counters.releaseErrors + One(FailureOf(ran))
  {
    hide RanOnly, NamesStep, Succeeds;
  }

  /** A failure is counted exactly when one happened. */
  lemma FailuresAreCounted(s: Store, op: Op)
    requires Inv(s)
    ensures Apply(s, op).counters.releaseErrors
         == s.counters.releaseErrors + One(FailureBetween(s, Apply(s, op)))
  {
    hide Inv, Apply, FailureBetween, OpEffect, RanOnly, Held;
    var ran := EveryOp(s, op);
    EffectCounts(s, op, Apply(s, op), ran);
    FailureIff(s, Apply(s, op), ran);
  }

  /** An operation that returns, frees or publishes reports a failed callback exactly when one failed. */
  lemma FailuresAreReported(s: Store, op: Op)
    requires Inv(s)
    ensures Publishing(s, op) ==> (PublishFails(s, op.name) <==> FailureBetween(s, Apply(s, op)))
    ensures op.Free? && op.name in s.current ==> (FreeFails(s, op.name) <==> FailureBetween(s, Apply(s, op)))
    ensures (op.ReleaseLease? || op.ReleaseNamed?) && Succeeds(s, op) ==>
              (EndFails(s, ReturnedSlot(s, op)) <==> FailureBetween(s, Apply(s, op)))
  {
    hide Inv, Apply, FailureBetween, OpEffect, RanOnly, Held, Sound;
    if Publishing(s, op) {
      var ran := PublishOp(s, op);
      EffectCounts(s, op, Apply(s, op), ran);
      FailureIff(s, Apply(s, op), ran);
    } else if op.Free? && op.name in s.current {
      var ran := FreeOp(s, op);
      EffectCounts(s, op, Apply(s, op), ran);
      FailureIff(s, Apply(s, op), ran);
      assert LowerOwner(s.slots[s.current[op.name]]).release == s.slots[s.current[op.name]].release;
    } else if (op.ReleaseLease? || op.ReleaseNamed?) && Succeeds(s, op) {
      var ran := ReturnOp(s, op);
      EffectCounts(s, op, Apply(s, op), ran);
      FailureIff(s, Apply(s, op), ran);
    }
  }

  // ---------- contents

  /** What callers of a name see, until it is published or freed again. */
  ghost predicate Shows(s: Store, name: Name, x: Exposed) {
    name in s.current && s.current[name] in s.slots && x == Expose(s.slots[s.current[name]].view)
  }

  lemma StoredView(s: Store, op: Op)
    requires Inv(s) && Publishing(s, op)
    ensures Publishes(op) && Shows(Apply(s, op), op.name, Expose(ViewOf(op)))
  {
    hide Inv, Apply, Publish, Publishing, Storing, PublishedAs, Fresh;
    hide CountPublish, BufferFor, OldRelease, ViewOf, Expose;
    SoundStoring(s, op);
    assert Publishes(op) by { OnlyPublishers(s, op); }
    var outcome := ApplyPublish(s, op);
    PublishedEffect(s, op.name, outcome.view, outcome.release);
    PublishedShows(s, Publish(s, op.name, outcome.view, outcome.release), op, outcome.view, outcome.release,
                   BufferFor(s, op.name), OldRelease(s, op.name));
  }

  lemma OnlyPublishers(s: Store, op: Op)
    requires Publishing(s, op)
    ensures Publishes(op)
  {
  }

  lemma PublishedShows(s: Store, s1: Store, op: Op, view: View, release: Option<Callback>, x: SlotID,
    ran: Option<Callback>)
    requires Publishes(op) && PublishedAs(s, s1, op.name, view, release, x, ran)
    ensures Shows(CountPublish(s1, op), op.name, Expose(view))
  {
    hide Expose;
  }

  /** Bytes that are set are what a borrower gets, with the metadata they were set with. */
  lemma SetIsShown(s: Store, name: Name, bytes: seq<bv8>, bitmap: seq<bv8>, meta: Metadata)
    requires Inv(s) && Sound(meta)
    ensures Shows(Apply(s, Set(name, bytes, bitmap, meta)), name,
                  Exposed(if bytes == [] then Absent else Bytes(bytes), |bytes|,
                          if bitmap == [] then Absent else Bytes(bitmap), |bitmap|,
                          Metadata(meta.dtype, meta.format, meta.shape, meta.strides, meta.offset, meta.nullCount,
                                   if bitmap == [] then meta.validityBytes else |bitmap|, meta.validityBitOffset,
                                   meta.readOnly, if meta.ownership == "" then "omnivm" else meta.ownership, "host")))
  {
    hide Inv, Apply, Shows;
    StoredView(s, Set(name, bytes, bitmap, meta));
    hide SoundShape;
  }

  /** A new buffer is zeroed and untyped. */
  lemma AllocationIsShown(s: Store, name: Name, size: nat)
    requires Inv(s) && name !in s.current
    ensures exists zeros: seq<bv8> :: && |zeros| == size && (forall i :: 0 <= i < size ==> zeros[i] == 0)
              && Shows(Apply(s, Allocate(name, size)), name,
                       Exposed(if size == 0 then Absent else Bytes(zeros), size, Absent, 0,
                               Metadata(0, "", [], [], 0, 0, 0, 0, false, "omnivm", "host")))
  {
    hide Inv, Apply, Shows;
    StoredView(s, Allocate(name, size));
    var zeros := seq<bv8>(size, _ => 0);
    assert ViewOf(Allocate(name, size)).data == Bytes(zeros);
  }

  /** Foreign memory that is published is what a borrower gets; memory without bytes is not exposed. */
  lemma ImportIsShown(s: Store, name: Name, data: Region, len: nat, validity: Region, validityLen: nat, meta: Metadata,
                      release: Option<Callback>)
    requires Inv(s) && Sound(meta) && Fresh(s, release) && !data.Bytes? && !validity.Bytes?
    requires (len > 0 ==> data.Foreign?) && (validityLen > 0 ==> validity.Foreign?)
    ensures var bitmapLen := if meta.validityBytes > 0 then meta.validityBytes else validityLen;
            var shown := if validity.Foreign? && bitmapLen > 0 then validity else Absent;
            Shows(Apply(s, SetExternal(name, data, len, validity, validityLen, meta, release)), name,
                  Exposed(if len == 0 then Absent else data, len, shown, if shown == Absent then 0 else bitmapLen,
                          Metadata(meta.dtype, meta.format, meta.shape, meta.strides, meta.offset, meta.nullCount,
                                   bitmapLen, meta.validityBitOffset, meta.readOnly,
                                   if meta.ownership == "" then "omnivm" else meta.ownership, "host")))
  {
    hide Inv, Apply, Shows;
    StoredView(s, SetExternal(name, data, len, validity, validityLen, meta, release));
    hide SoundShape;
  }

  /** What does not make sense is refused: nothing changes, but the callback of an import has run. */
  lemma UnsoundIsRefused(s: Store, op: Op)
    requires Inv(s) && Publishes(op) && !Publishing(s, op)
    ensures Apply(s, op) == s.(fates := Apply(s, op).fates)
    ensures op.SetExternal? && Fresh(s, op.release) && op.release.Some? ==>
              Apply(s, op).fates == s.fates[op.release.value.id := Ran(1)]
    ensures !(op.SetExternal? && Fresh(s, op.release)) ==> Apply(s, op) == s
  {
    hide Inv, Apply, Publish, Publishing, Storing;
    SoundStoring(s, op);
    var outcome := ApplyPublish(s, op);
  }
}
