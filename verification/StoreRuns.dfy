/** Runs of the shared buffer store: what holds after any sequence of operations. */
module StoreRuns {
  import opened Buffers
  import opened Options
  import opened StoreInv
  import opened StoreSpec

  datatype Op =
    | Allocate(name: Name, size: int)
    | Get(name: Name)
    | Set(name: Name, bytes: seq<bv8>, bitmap: seq<bv8>, meta: Metadata)
    | SetExternal(name: Name, data: Region, len: int, validity: Region, validityLen: int, meta: Metadata,
                  release: Option<Callback>)
    | Free(name: Name)
    | Borrow(name: Name)
    | ReleaseLease(l: nat)
    | BorrowNamed(name: Name)
    | ReleaseNamed(name: Name)
    | Retain(x: SlotID)
    | ReleaseDirect(x: SlotID)

  function Zeros(size: nat): View {
    Described(Bytes(seq(size, _ => 0)), size, Absent, 0, PLAIN)
  }

  function CountAllocation(s: Store): Store {
    s.(counters := s.counters.(allocations := s.counters.allocations + 1))
  }

  function CountGet(s: Store): Store {
    s.(counters := s.counters.(gets := s.counters.gets + 1))
  }

  /**
   What an operation does. Callbacks are handed over once; anything else that cannot be done leaves
   the store as it is, apart from the callback of a rejected import.
   */
  ghost function Apply(s: Store, op: Op): Store
    requires Inv(s)
  {
    match op
    case Allocate(name, size) =>
      if size < 0 || name in s.current then s else CountAllocation(Publish(s, name, Zeros(size), None))
    case Get(name) => if name in s.current then CountGet(s) else s
    case Set(name, bytes, bitmap, meta) =>
      if MetadataOk(meta)
      then CountSet(Publish(s, name, Described(Bytes(bytes), |bytes|, Bytes(bitmap), |bitmap|, meta), None),
        false) else s
    case SetExternal(name, data, len, validity, validityLen, meta, release) =>
      if !Fresh(s, release) then s
      else if ImportOk(data, len, validity, validityLen, meta)
      then CountSet(Publish(s, name, Described(data, len, validity, validityLen, meta), release), true)
      else Reject(s, release)
    case Free(name) => if name in s.current then StoreSpec.Free(s, name) else s
    case Borrow(name) => if name in s.current then StoreSpec.Borrow(s, name) else s
    case ReleaseLease(l) => if l in s.leases then LeaseSlot(s, l); StoreSpec.ReleaseLease(s, l) else s
    case BorrowNamed(name) => if name in s.current then StoreSpec.BorrowNamed(s, name) else s
    case ReleaseNamed(name) => QueueSlot(s, name); StoreSpec.ReleaseNamed(s, name)
    case Retain(x) => if x in s.slots then StoreSpec.Retain(s, x) else s
    case ReleaseDirect(x) => if x in s.slots then StoreSpec.ReleaseDirect(s, x) else s
  }

  lemma LeaseSlot(s: Store, l: nat)
    requires LoansOk(s) && l in s.leases
    ensures s.leases[l].slot in s.slots
  {
  }

  lemma QueueSlot(s: Store, name: Name)
    requires LoansOk(s)
    ensures QueueOf(s.queues, name) != [] ==> QueueOf(s.queues, name)[0].slot in s.slots
  {
    if QueueOf(s.queues, name) != [] { HeadLoan(s, name); }
  }

  // ---------- what an operation amounts to

  /** How an operation that publishes ends. */
  datatype Publishing = Unchanged | Rejected | Stored(view: View, release: Option<Callback>)

  function CountPublish(s: Store, op: Op): Store {
    if op.Allocate? then CountAllocation(s) else CountSet(s, op.SetExternal?)
  }

  predicate Publishes(op: Op) {
    op.Allocate? || op.Set? || op.SetExternal?
  }

  /** The view that an operation publishes, and when it does. */
  function ViewOf(op: Op): View
    requires Publishes(op) && (op.Allocate? ==> op.size >= 0)
  {
    match op
    case Allocate(_, size) => Zeros(size)
    case Set(_, bytes, bitmap, meta) => Described(Bytes(bytes), |bytes|, Bytes(bitmap), |bitmap|, meta)
    case SetExternal(_, data, len, validity, validityLen, meta, _) => Described(data, len, validity, validityLen, meta)
  }

  ghost predicate Storing(s: Store, op: Op) {
    match op
    case Allocate(name, size) => size >= 0 && name !in s.current
    case Set(_, _, _, meta) => MetadataOk(meta)
    case SetExternal(_, data, len, validity, validityLen, meta, release) =>
      Fresh(s, release) && ImportOk(data, len, validity, validityLen, meta)
    case _ => false
  }

  lemma ApplyPublish(s: Store, op: Op) returns (outcome: Publishing)
    requires Inv(s) && Publishes(op)
    ensures op.name in s.current ==> s.current[op.name] in s.slots
    ensures match outcome
            case Unchanged => Apply(s, op) == s
            case Rejected => op.SetExternal? && Fresh(s, op.release) && Apply(s, op) == Reject(s, op.release)
            case Stored(view, release) =>
              && Fresh(s, release) && release == (if op.SetExternal? then op.release else None)
              && Apply(s, op) == CountPublish(Publish(s, op.name, view, release), op)
    ensures outcome == Unchanged && op.SetExternal? ==> !Fresh(s, op.release)
    ensures outcome.Stored? <==> Storing(s, op)
    ensures outcome.Stored? ==> outcome.view == ViewOf(op)
  {
    CurrentExists(s, op.name);
    hide Inv, Publish, Described, Zeros, MetadataOk, ImportOk, CountAllocation, CountSet, Fresh, Reject;
    match op
    case Allocate(name, size) =>
      outcome := if size < 0 || name in s.current then Unchanged else Stored(Zeros(size), None);
    case Set(name, bytes, bitmap, meta) =>
      outcome := if MetadataOk(meta)
        then Stored(Described(Bytes(bytes), |bytes|, Bytes(bitmap), |bitmap|, meta), None) else Unchanged;
    case SetExternal(name, data, len, validity, validityLen, meta, release) =>
      outcome := if !Fresh(s, release) then Unchanged
                 else if ImportOk(data, len, validity, validityLen, meta)
                 then Stored(Described(data, len, validity, validityLen, meta), release) else Rejected;
    assert Fresh(s, None);
  }

  lemma ApplyFree(s: Store, name: Name)
    requires Inv(s)
    ensures name in s.current ==> s.current[name] in s.slots && Apply(s, Op.Free(name)) == StoreSpec.Free(s, name)
    ensures name !in s.current ==> Apply(s, Op.Free(name)) == s
  {
    CurrentExists(s, name);
    hide Inv, StoreSpec.Free;
  }

  lemma ApplyBorrow(s: Store, name: Name)
    requires Inv(s)
    ensures name in s.current ==> s.current[name] in s.slots && Apply(s, Op.Borrow(name)) == StoreSpec.Borrow(s, name)
    ensures name !in s.current ==> Apply(s, Op.Borrow(name)) == s
  {
    CurrentExists(s, name);
    hide Inv, StoreSpec.Borrow;
  }

  lemma ApplyBorrowNamed(s: Store, name: Name)
    requires Inv(s)
    ensures name in s.current ==>
              s.current[name] in s.slots && Apply(s, Op.BorrowNamed(name)) == StoreSpec.BorrowNamed(s, name)
    ensures name !in s.current ==> Apply(s, Op.BorrowNamed(name)) == s
  {
    CurrentExists(s, name);
    hide Inv, StoreSpec.BorrowNamed;
  }

  lemma ApplyReleaseLease(s: Store, l: nat)
    requires Inv(s)
    ensures l in s.leases ==>
              && s.leases[l].slot in s.slots
              && Apply(s, Op.ReleaseLease(l))
                == EndBorrow(s.(leases := s.leases - {l}), s.leases[l].name, s.leases[l].slot)
    ensures l !in s.leases ==> Apply(s, Op.ReleaseLease(l)) == s
  {
    hide Inv, EndBorrow;
    if l in s.leases { LeaseKnown(s, l); }
  }

  lemma LeaseKnown(s: Store, l: nat)
    requires Inv(s) && l in s.leases
    ensures s.leases[l].slot in s.slots
  {
    LeaseSlot(s, l);
  }

  lemma ApplyReleaseNamed(s: Store, name: Name)
    requires Inv(s)
    ensures QueueOf(s.queues, name) != [] ==>
              && name in s.queues && s.queues[name] != [] && s.queues[name][0].slot in s.slots
              && Apply(s, Op.ReleaseNamed(name))
                == EndBorrow(s.(queues := Popped(s.queues, name)), name, s.queues[name][0].slot)
    ensures QueueOf(s.queues, name) == [] ==> Apply(s, Op.ReleaseNamed(name)) == s
  {
    hide Inv, Popped, EndBorrow, QueueOf;
    HeadKnown(s, name);
  }

  lemma HeadKnown(s: Store, name: Name)
    requires Inv(s)
    ensures QueueOf(s.queues, name) != [] ==>
              name in s.queues && s.queues[name] == QueueOf(s.queues, name)
                && QueueOf(s.queues, name)[0].slot in s.slots
  {
    QueueSlot(s, name);
  }

  lemma ApplyRetain(s: Store, x: SlotID)
    requires Inv(s)
    ensures x in s.slots ==> Apply(s, Op.Retain(x)) == StoreSpec.Retain(s, x)
    ensures x !in s.slots ==> Apply(s, Op.Retain(x)) == s
  {
    hide Inv, StoreSpec.Retain;
  }

  lemma ApplyReleaseDirect(s: Store, x: SlotID)
    requires Inv(s)
    ensures x in s.slots ==> Apply(s, Op.ReleaseDirect(x)) == StoreSpec.ReleaseDirect(s, x)
    ensures x !in s.slots ==> Apply(s, Op.ReleaseDirect(x)) == s
  {
    hide Inv, StoreSpec.ReleaseDirect;
  }

  lemma ApplyGet(s: Store, name: Name)
    requires Inv(s)
    ensures Apply(s, Op.Get(name)) == s || Apply(s, Op.Get(name)) == CountGet(s)
  {
    hide Inv, CountGet;
  }

  // ---------- the invariant over runs

  lemma PublishOpInv(s: Store, op: Op)
    requires Inv(s) && Publishes(op)
    ensures Inv(Apply(s, op))
  {
    hide Inv, Apply, Publish, Reject, Fresh;
    var outcome := ApplyPublish(s, op);
    match outcome
    case Unchanged =>
    case Rejected => RejectInv(s, op.release);
    case Stored(view, release) =>
      PublishInv(s, op.name, view, release);
      CountersInv(Publish(s, op.name, view, release), CountPublish(Publish(s, op.name, view, release), op));
  }

  lemma ReleaseOpInv(s: Store, op: Op)
    requires Inv(s) && (op.ReleaseLease? || op.ReleaseNamed?)
    ensures Inv(Apply(s, op))
  {
    hide Inv, StoreSpec.ReleaseLease, StoreSpec.ReleaseNamed;
    match op
    case ReleaseLease(l) => if l in s.leases { ReleaseLeaseInv(s, l); }
    case ReleaseNamed(name) => ReleaseNamedInv(s, name);
  }

  lemma ApplyInv(s: Store, op: Op)
    requires Inv(s)
    ensures Inv(Apply(s, op))
  {
    hide Inv, Apply, StoreSpec.Free, StoreSpec.Borrow, StoreSpec.BorrowNamed, StoreSpec.Retain, StoreSpec.ReleaseDirect;
    match op
    case Allocate(_, _) => PublishOpInv(s, op);
    case Get(name) => ApplyGet(s, name); CountersInv(s, CountGet(s));
    case Set(_, _, _, _) => PublishOpInv(s, op);
    case SetExternal(_, _, _, _, _, _, _) => PublishOpInv(s, op);
    case Free(name) => ApplyFree(s, name); if name in s.current { FreeInv(s, name); }
    case Borrow(name) => ApplyBorrow(s, name); if name in s.current { BorrowInv(s, name); }
    case ReleaseLease(_) => ReleaseOpInv(s, op);
    case BorrowNamed(name) => ApplyBorrowNamed(s, name); if name in s.current { BorrowNamedInv(s, name); }
    case ReleaseNamed(_) => ReleaseOpInv(s, op);
    case Retain(x) => ApplyRetain(s, x); if x in s.slots { RetainInv(s, x); }
    case ReleaseDirect(x) => ApplyReleaseDirect(s, x); if x in s.slots { ReleaseDirectInv(s, x); }
  }

  /** A run keeps the invariant. */
  ghost function Run(s: Store, ops: seq<Op>): (s': Store)
    requires Inv(s)
    ensures Inv(s')
  {
    if ops == [] then s else
    var before := Run(s, ops[..|ops| - 1]);
    ApplyInv(before, ops[|ops| - 1]);
    Apply(before, ops[|ops| - 1])
  }

  lemma EmptyInv()
    ensures Inv(EMPTY)
  {
  }

  /** The store after a run that starts with a new one. */
  ghost function Reached(ops: seq<Op>): (s: Store)
    ensures Inv(s)
  {
    EmptyInv();
    Run(EMPTY, ops)
  }

  // ---------- callbacks

  /** Some slot that is still referenced will run the callback. */
  ghost predicate Guarded(s: Store, c: nat) {
    exists x :: x in s.slots && Guards(s.slots[x], c)
  }

  ghost predicate Guards(slot: Slot, c: nat) {
    slot.refs > 0 && slot.release.Some? && slot.release.value.id == c
  }

  /**
   Over every run each callback handed to the store runs at most once: not while the buffer it came with is
   referenced, and once when no reference is left, or when its import is rejected.
   */
  lemma CallbackExactlyOnce(ops: seq<Op>, c: nat)
    requires c in Reached(ops).fates
    ensures Times(Reached(ops), c) == if Guarded(Reached(ops), c) then 0 else 1
  {
    var s := Reached(ops);
    hide Reached;
    CallbackOnce(s, c);
  }

  lemma CallbackOnce(s: Store, c: nat)
    requires Inv(s) && c in s.fates
    ensures Times(s, c) == if Guarded(s, c) then 0 else 1
  {
    if s.fates[c].Pending? {
      assert Guards(s.slots[s.fates[c].slot], c);
    }
  }

  /** The references of every buffer are its outstanding loans, its owner, and its direct retains. */
  lemma ReferencesAccountedFor(ops: seq<Op>, x: SlotID)
    requires x in Reached(ops).slots
    ensures var s := Reached(ops);
            && s.slots[x].borrowRefs == Loaned(s, x)
            && s.slots[x].refs == Loaned(s, x) + (if s.slots[x].owner then 1 else 0) + s.slots[x].retains
  {
    assert SlotOk(Reached(ops), x, 0);
  }

  /**
   At any point a referenced buffer is the current one of its name or detached, never both; names with a
   tombstone are not live. A buffer that has once lost its last reference stays out, even if it is retained again:
   it is neither current nor detached, lends nothing and has no callback left to run.
   */
  lemma StorePartition(ops: seq<Op>, x: SlotID)
    requires x in Reached(ops).slots
    ensures var s := Reached(ops);
            var isCurrent := s.slots[x].name in s.current && s.current[s.slots[x].name] == x;
            && (s.slots[x].refs > 0 && !s.slots[x].dead <==> isCurrent || x in s.detached)
            && (s.slots[x].dead ==> s.slots[x].borrowRefs == 0 && s.slots[x].release == None)
            && !(isCurrent && x in s.detached)
            && (isCurrent <==> s.slots[x].owner)
            && TombsOk(s.tombs, s.current.Keys)
  {
    var s := Reached(ops);
    assert SlotOk(s, x, 0);
    hide Reached, Loaned, TombsOk, LoansOk, FatesOk;
  }

  // ---------- what is lent stays

  /** What an operation may do to a buffer that a borrower or a retain still holds. */
  ghost predicate Keeps(s: Store, s': Store, x: SlotID)
    requires x in s.slots
  {
    && x in s'.slots && s'.slots[x].name == s.slots[x].name && s'.slots[x].view == s.slots[x].view
    && (s'.slots[x].refs > 0 ==> s'.slots[x].release == s.slots[x].release)
  }

  /** Running a callback changes no buffer. */
  lemma FireKeepsSlots(s: Store, name: Name, release: Option<Callback>)
    ensures Fire(s, name, release).slots == s.slots
  {
  }

  lemma OverwriteKeepsOthers(s: Store, name: Name, view: View, release: Option<Callback>, x: SlotID)
    requires name in s.current && s.current[name] in s.slots && x in s.slots && x != s.current[name]
    ensures x in Overwrite(s, name, view, release).slots && Overwrite(s, name, view, release).slots[x] == s.slots[x]
  {
  }

  lemma PublishKeeps(s: Store, name: Name, view: View, release: Option<Callback>, x: SlotID)
    requires IdsOk(s) && x in s.slots && (name in s.current ==> s.current[name] in s.slots)
    requires name in s.current && s.current[name] == x ==> s.slots[x].refs >= 2
    ensures Keeps(s, Publish(s, name, view, release), x)
  {
    var s0 := s.(tombs := Forget(s.tombs, name));
    hide Forget, Overwrite;
    if name in s.current && s.slots[s.current[name]].refs <= 1 {
      OverwriteKeepsOthers(s0, name, view, release, x);
    }
  }

  /** A buffer that is held by more than its owner has at least two references while it is current. */
  lemma HeldIsShared(s: Store, x: SlotID)
    requires Inv(s) && x in s.slots && s.slots[x].borrowRefs + s.slots[x].retains >= 1
    ensures s.slots[x].refs >= 1 && IdsOk(s)
    ensures forall n :: n in s.current && s.current[n] == x ==> s.slots[x].refs >= 2
    ensures forall n :: n in s.current ==> s.current[n] in s.slots
  {
    assert SlotOk(s, x, 0);
    hide Loaned, LoansOk, FatesOk, TombsOk, CountsOk;
  }

  lemma EndBorrowKeeps(s: Store, name: Name, y: SlotID, x: SlotID)
    requires x in s.slots && y in s.slots && s.slots[x].refs > 0
    ensures Keeps(s, EndBorrow(s, name, y), x)
  {
    hide Fire;
    forall s1, release ensures Fire(s1, name, release).slots == s1.slots { FireKeepsSlots(s1, name, release); }
  }

  lemma FreeKeeps(s: Store, name: Name, x: SlotID)
    requires x in s.slots && name in s.current && s.current[name] in s.slots
    ensures Keeps(s, StoreSpec.Free(s, name), x)
  {
    hide Fire, Mark;
    FireKeepsSlots(Unlink(s, name), name, LowerOwner(s.slots[s.current[name]]).release);
  }

  lemma DirectKeeps(s: Store, y: SlotID, x: SlotID)
    requires x in s.slots && y in s.slots
    ensures Keeps(s, StoreSpec.ReleaseDirect(s, y), x)
  {
    hide Fire;
    var low := LowerDirect(s.slots[y]);
    FireKeepsSlots(Put(s, y, Settle(low)).(detached := s.detached - {y}), low.name, low.release);
  }

  lemma ReleaseKeeps(s: Store, op: Op, x: SlotID)
    requires Inv(s) && x in s.slots && s.slots[x].refs > 0 && (op.ReleaseLease? || op.ReleaseNamed?)
    ensures Keeps(s, Apply(s, op), x)
  {
    hide Inv, Apply, EndBorrow, QueueOf, Popped;
    match op
    case ReleaseLease(l) =>
      ApplyReleaseLease(s, l);
      if l in s.leases { EndBorrowKeeps(s.(leases := s.leases - {l}), s.leases[l].name, s.leases[l].slot, x); }
    case ReleaseNamed(name) =>
      ApplyReleaseNamed(s, name);
      if QueueOf(s.queues, name) != [] { ReturnKeeps(s, name, x); }
  }

  lemma ReturnKeeps(s: Store, name: Name, x: SlotID)
    requires name in s.queues && s.queues[name] != []
    requires s.queues[name][0].slot in s.slots && x in s.slots && s.slots[x].refs > 0
    ensures Keeps(s, EndBorrow(s.(queues := Popped(s.queues, name)), name, s.queues[name][0].slot), x)
  {
    hide EndBorrow, Popped;
    EndBorrowKeeps(s.(queues := Popped(s.queues, name)), name, s.queues[name][0].slot, x);
  }

  lemma CountingKeeps(s: Store, t: Store, op: Op, x: SlotID)
    requires x in s.slots && Keeps(s, t, x)
    ensures Keeps(s, CountPublish(t, op), x)
  {
  }

  lemma SameKeeps(s: Store, s': Store, x: SlotID)
    requires x in s.slots && s'.slots == s.slots
    ensures Keeps(s, s', x)
  {
  }

  lemma PublishOpKeeps(s: Store, op: Op, x: SlotID)
    requires Inv(s) && Publishes(op) && x in s.slots && s.slots[x].borrowRefs + s.slots[x].retains >= 1
    ensures Keeps(s, Apply(s, op), x)
  {
    hide Inv, IdsOk, Apply, Publish, Keeps, Fresh, CountPublish;
    HeldIsShared(s, x);
    var outcome := ApplyPublish(s, op);
    match outcome
    case Unchanged => SameKeeps(s, s, x);
    case Rejected => SameKeeps(s, Reject(s, op.release), x);
    case Stored(view, release) =>
      PublishKeeps(s, op.name, view, release, x);
      CountingKeeps(s, Publish(s, op.name, view, release), op, x);
  }

  lemma LendsKeep(s: Store, name: Name, y: SlotID, x: SlotID)
    requires x in s.slots && y in s.slots && (name in s.current ==> s.current[name] in s.slots)
    ensures Keeps(s, StoreSpec.Retain(s, y), x)
    ensures name in s.current ==> Keeps(s, StoreSpec.Borrow(s, name), x) && Keeps(s, StoreSpec.BorrowNamed(s, name), x)
  {
    hide QueueOf;
  }

  /**
   Isolation, one step: while a borrow or a direct retain holds a buffer, no operation changes what it
   contains, however often its name is republished or freed.
   */
  lemma HeldBufferKeepsContents(s: Store, op: Op, x: SlotID)
    requires Inv(s) && x in s.slots && s.slots[x].borrowRefs + s.slots[x].retains >= 1
    ensures Keeps(s, Apply(s, op), x)
  {
    hide Inv, IdsOk, Apply, Keeps;
    hide StoreSpec.Free, StoreSpec.Borrow, StoreSpec.BorrowNamed, StoreSpec.Retain, StoreSpec.ReleaseDirect;
    HeldIsShared(s, x);
    SameKeeps(s, s, x);
    match op
    case Allocate(_, _) => PublishOpKeeps(s, op, x);
    case Get(name) => ApplyGet(s, name); SameKeeps(s, CountGet(s), x);
    case Set(_, _, _, _) => PublishOpKeeps(s, op, x);
    case SetExternal(_, _, _, _, _, _, _) => PublishOpKeeps(s, op, x);
    case Free(name) => ApplyFree(s, name); if name in s.current { FreeKeeps(s, name, x); }
    case Borrow(name) => ApplyBorrow(s, name); LendsKeep(s, name, x, x);
    case ReleaseLease(_) => ReleaseKeeps(s, op, x);
    case BorrowNamed(name) => ApplyBorrowNamed(s, name); LendsKeep(s, name, x, x);
    case ReleaseNamed(_) => ReleaseKeeps(s, op, x);
    case Retain(y) => ApplyRetain(s, y); if y in s.slots { LendsKeep(s, Name(""), y, x); }
    case ReleaseDirect(y) => ApplyReleaseDirect(s, y); if y in s.slots { DirectKeeps(s, y, x); }
  }

  // ---------- loans over whole runs

  /** The outstanding loans, by lease and by name. */
  ghost predicate SameLoans(s: Store, s': Store) {
    s'.leases == s.leases && s'.nextLease == s.nextLease && s'.queues == s.queues
  }

  lemma FireLoans(s: Store, name: Name, release: Option<Callback>)
    ensures SameLoans(s, Fire(s, name, release))
  {
  }

  lemma PublishLoans(s: Store, name: Name, view: View, release: Option<Callback>)
    requires name in s.current ==> s.current[name] in s.slots
    ensures SameLoans(s, Publish(s, name, view, release))
  {
    hide Forget, Fire;
    forall t, cb ensures SameLoans(t, Fire(t, name, cb)) { FireLoans(t, name, cb); }
  }

  lemma FreeLoans(s: Store, name: Name)
    requires name in s.current && s.current[name] in s.slots
    ensures SameLoans(s, StoreSpec.Free(s, name))
  {
    hide Fire, Mark;
    FireLoans(Unlink(s, name), name, LowerOwner(s.slots[s.current[name]]).release);
  }

  lemma EndBorrowLoans(s: Store, name: Name, x: SlotID)
    requires x in s.slots
    ensures SameLoans(s, EndBorrow(s, name, x))
  {
    hide Fire;
    forall t, cb ensures SameLoans(t, Fire(t, name, cb)) { FireLoans(t, name, cb); }
  }

  lemma DirectLoans(s: Store, x: SlotID)
    requires x in s.slots
    ensures SameLoans(s, StoreSpec.ReleaseDirect(s, x))
  {
    hide Fire;
    forall t, name, cb ensures SameLoans(t, Fire(t, name, cb)) { FireLoans(t, name, cb); }
  }

  /** The loans that an operation starts or ends. */
  ghost predicate LoansStep(s: Store, op: Op, s': Store)
    requires Inv(s)
  {
    && s'.leases == (if op.Borrow? && op.name in s.current then s.leases[s.nextLease := LoanOf(s, op.name)]
                     else if op.ReleaseLease? then s.leases - {op.l} else s.leases)
    && s'.nextLease == (if op.Borrow? && op.name in s.current then s.nextLease + 1 else s.nextLease)
    && s'.queues == (if op.BorrowNamed? && op.name in s.current
                     then s.queues[op.name := QueueOf(s.queues, op.name) + [LoanOf(s, op.name)]]
                     else if op.ReleaseNamed? && QueueOf(s.queues, op.name) != [] then Popped(s.queues, op.name)
                     else s.queues)
  }

  lemma CountLoans(s: Store, op: Op)
    ensures SameLoans(s, CountPublish(s, op))
  {
  }

  lemma PublishOpLoans(s: Store, op: Op)
    requires Inv(s) && Publishes(op)
    ensures SameLoans(s, Apply(s, op))
  {
    hide Inv, Apply, Publish, Fresh, CountPublish;
    var outcome := ApplyPublish(s, op);
    if outcome.Stored? {
      PublishLoans(s, op.name, outcome.view, outcome.release);
      CountLoans(Publish(s, op.name, outcome.view, outcome.release), op);
    }
  }

  lemma ReleaseOpLoans(s: Store, op: Op)
    requires Inv(s) && (op.ReleaseLease? || op.ReleaseNamed?)
    ensures LoansStep(s, op, Apply(s, op))
  {
    hide Inv, Apply, EndBorrow, QueueOf, Popped;
    match op
    case ReleaseLease(l) =>
      ApplyReleaseLease(s, l);
      if l in s.leases { EndBorrowLoans(s.(leases := s.leases - {l}), s.leases[l].name, s.leases[l].slot); }
    case ReleaseNamed(name) =>
      ApplyReleaseNamed(s, name);
      if QueueOf(s.queues, name) != [] { ReturnLoans(s, name); }
  }

  lemma ReturnLoans(s: Store, name: Name)
    requires name in s.queues && s.queues[name] != [] && s.queues[name][0].slot in s.slots
    ensures var s' := EndBorrow(s.(queues := Popped(s.queues, name)), name, s.queues[name][0].slot);
            s'.leases == s.leases && s'.nextLease == s.nextLease && s'.queues == Popped(s.queues, name)
  {
    hide EndBorrow, Popped;
    EndBorrowLoans(s.(queues := Popped(s.queues, name)), name, s.queues[name][0].slot);
  }

  lemma OwnerOpLoans(s: Store, op: Op)
    requires Inv(s) && (op.Free? || op.ReleaseDirect? || op.Get? || op.Retain?)
    ensures SameLoans(s, Apply(s, op))
  {
    hide Inv, Apply, StoreSpec.Free, StoreSpec.ReleaseDirect;
    match op
    case Free(name) => ApplyFree(s, name); if name in s.current { FreeLoans(s, name); }
    case ReleaseDirect(y) => ApplyReleaseDirect(s, y); if y in s.slots { DirectLoans(s, y); }
    case Get(name) => ApplyGet(s, name);
    case Retain(y) => ApplyRetain(s, y);
  }

  lemma BorrowOpLoans(s: Store, op: Op)
    requires Inv(s) && (op.Borrow? || op.BorrowNamed?)
    ensures LoansStep(s, op, Apply(s, op))
  {
    hide Inv, Apply, QueueOf, LoanOf;
    ApplyBorrow(s, op.name);
    ApplyBorrowNamed(s, op.name);
  }

  lemma SameStep(s: Store, op: Op, s': Store)
    requires Inv(s) && SameLoans(s, s') && !op.Borrow? && !op.BorrowNamed? && !op.ReleaseLease? && !op.ReleaseNamed?
    ensures LoansStep(s, op, s')
  {
    hide Inv;
  }

  lemma OpLoans(s: Store, op: Op)
    requires Inv(s)
    ensures LoansStep(s, op, Apply(s, op))
  {
    hide Inv, Apply, LoansStep, SameLoans;
    if Publishes(op) {
      PublishOpLoans(s, op);
      SameStep(s, op, Apply(s, op));
    } else if op.ReleaseLease? || op.ReleaseNamed? {
      ReleaseOpLoans(s, op);
    } else if op.Borrow? || op.BorrowNamed? {
      BorrowOpLoans(s, op);
    } else {
      OwnerOpLoans(s, op);
      SameStep(s, op, Apply(s, op));
    }
  }

  lemma LeaseStep(s: Store, op: Op, l: nat)
    requires Inv(s)
    ensures Apply(s, op).nextLease >= s.nextLease
    ensures l < s.nextLease && l in Apply(s, op).leases ==> l in s.leases && Apply(s, op).leases[l] == s.leases[l]
  {
    OpLoans(s, op);
    hide Apply, Inv, QueueOf, LoanOf, Popped;
  }

  lemma {:induction false} LeaseStays(s: Store, ops: seq<Op>, l: nat)
    requires Inv(s) && l < s.nextLease
    ensures l < Run(s, ops).nextLease
    ensures l in Run(s, ops).leases ==> l in s.leases && Run(s, ops).leases[l] == s.leases[l]
  {
    if ops != [] {
      LeaseStays(s, ops[..|ops| - 1], l);
      LeaseStep(Run(s, ops[..|ops| - 1]), ops[|ops| - 1], l);
      hide Apply, Inv;
    }
  }

  /**
   Snapshot isolation over every run: as long as a lease has not been released, its buffer is referenced,
   holds exactly what it held when it was borrowed, and its release callback has not run.
   */
  lemma LeaseIsIsolated(s: Store, ops: seq<Op>, l: nat)
    requires Inv(s) && l in s.leases && l in Run(s, ops).leases
    ensures var s', loan := Run(s, ops), s.leases[l];
            && loan.slot in s'.slots && s'.slots[loan.slot].refs >= 1
            && s'.slots[loan.slot].name == loan.name && s'.slots[loan.slot].view == loan.view
            && s'.slots[loan.slot].release == loan.release
            && (loan.release.Some? ==> Times(s', loan.release.value.id) == 0)
  {
    assert l < s.nextLease;
    hide Inv;
    LeaseStays(s, ops, l);
    LentIsLive(Run(s, ops), l);
    hide Run;
  }

  lemma LentIsLive(s: Store, l: nat)
    requires Inv(s) && l in s.leases
    ensures var loan := s.leases[l];
            && LoanOk(s.slots, loan) && s.slots[loan.slot].refs >= 1
            && (loan.release.Some? ==> Times(s, loan.release.value.id) == 0)
  {
    var loan := s.leases[l];
    assert LoanOk(s.slots, loan) && SlotOk(s, loan.slot, 0);
    assert l in LeasesOn(s.leases, loan.slot);
    hide QueueOf, Occurs;
  }

  // ---------- named borrows

  /** The loan that an operation hands out by name, if it does. */
  ghost function BorrowedBy(s: Store, op: Op, name: Name): seq<Loan>
    requires Inv(s)
  {
    if op == BorrowNamed(name) && name in s.current then [LoanOf(s, name)] else []
  }

  /** The loan that an operation ends by name, if it does. */
  ghost function ReturnedBy(s: Store, op: Op, name: Name): seq<Loan> {
    if op == ReleaseNamed(name) && QueueOf(s.queues, name) != [] then [QueueOf(s.queues, name)[0]] else []
  }

  /** The loans that the successful named borrows of a run hand out, in order. */
  ghost function Borrowed(s: Store, ops: seq<Op>, name: Name): seq<Loan>
    requires Inv(s)
  {
    if ops == [] then [] else
    Borrowed(s, ops[..|ops| - 1], name) + BorrowedBy(Run(s, ops[..|ops| - 1]), ops[|ops| - 1], name)
  }

  /** The loans that the successful named releases of a run end, in order. */
  ghost function Returned(s: Store, ops: seq<Op>, name: Name): seq<Loan>
    requires Inv(s)
  {
    if ops == [] then [] else
    Returned(s, ops[..|ops| - 1], name) + ReturnedBy(Run(s, ops[..|ops| - 1]), ops[|ops| - 1], name)
  }

  lemma QueueStep(s: Store, op: Op, name: Name)
    requires Inv(s) && LoansStep(s, op, Apply(s, op))
    ensures var before, after := QueueOf(s.queues, name), QueueOf(Apply(s, op).queues, name);
            && ((ReturnedBy(s, op, name) == [] && after == before + BorrowedBy(s, op, name))
                || (BorrowedBy(s, op, name) == [] && before == ReturnedBy(s, op, name) + after))
            && (op == ReleaseNamed(name) && before != [] ==> before == [before[0]] + after)
            && (op != ReleaseNamed(name) && op != BorrowNamed(name) ==> after == before)
            && (op == ReleaseNamed(name) && before == [] ==> after == before)
  {
    hide Apply, Inv;
  }

  lemma Shift<T>(q0: seq<T>, b: seq<T>, r: seq<T>, q: seq<T>, b1: seq<T>, r1: seq<T>, q1: seq<T>)
    requires q0 + b == r + q
    requires (r1 == [] && q1 == q + b1) || (b1 == [] && q == r1 + q1)
    ensures q0 + (b + b1) == (r + r1) + q1
  {
    assert q0 + (b + b1) == (q0 + b) + b1;
    if r1 == [] {
      assert (r + r1) + q1 == (r + q) + b1;
    } else {
      assert r + (r1 + q1) == (r + r1) + q1;
    }
  }

  /**
   Over every run the queue of a name holds exactly the loans borrowed by that name and not yet returned, in
   borrow order, across republishing and freeing: the k-th loan returned is the k-th borrowed.
   */
  lemma {:induction false} NamedBorrowsAreFifo(s: Store, ops: seq<Op>, name: Name)
    requires Inv(s)
    ensures QueueOf(s.queues, name) + Borrowed(s, ops, name)
              == Returned(s, ops, name) + QueueOf(Run(s, ops).queues, name)
  {
    if ops != [] {
      hide Apply, Inv, QueueOf, LoansStep, BorrowedBy, ReturnedBy;
      var front, op := ops[..|ops| - 1], ops[|ops| - 1];
      NamedBorrowsAreFifo(s, front, name);
      var before := Run(s, front);
      OpLoans(before, op);
      QueueStep(before, op, name);
      Shift(QueueOf(s.queues, name), Borrowed(s, front, name), Returned(s, front, name), QueueOf(before.queues, name),
            BorrowedBy(before, op, name), ReturnedBy(before, op, name), QueueOf(Apply(before, op).queues, name));
    }
  }

  lemma QueuedIsLive(s: Store, name: Name, i: nat)
    requires Inv(s) && i < |QueueOf(s.queues, name)|
    ensures var loan := QueueOf(s.queues, name)[i];
            && LoanOk(s.slots, loan) && s.slots[loan.slot].refs >= 1
            && (loan.release.Some? ==> Times(s, loan.release.value.id) == 0)
  {
    var queue := QueueOf(s.queues, name);
    assert QueueLoansOk(s.slots, name, queue);
    assert LoanOk(s.slots, queue[i]) && SlotOk(s, queue[i].slot, 0);
    OccursAt(queue, queue[i].slot, i);
    hide LeasesOn, Occurs;
  }

  /**
   Snapshot isolation of named borrows: over every run, a loan that was borrowed by name and not yet returned
   still sees its buffer as it was, referenced, with its callback not run.
   */
  lemma NamedBorrowIsIsolated(s: Store, ops: seq<Op>, name: Name, k: nat)
    requires Inv(s) && QueueOf(s.queues, name) == []
    requires |Returned(s, ops, name)| <= k < |Borrowed(s, ops, name)|
    ensures var s', loan := Run(s, ops), Borrowed(s, ops, name)[k];
            && LoanOk(s'.slots, loan) && s'.slots[loan.slot].refs >= 1
            && (loan.release.Some? ==> Times(s', loan.release.value.id) == 0)
  {
    hide Inv, Run, Borrowed, Returned, QueueOf, LoanOk;
    NamedBorrowsAreFifo(s, ops, name);
    var i := k - |Returned(s, ops, name)|;
    assert [] + Borrowed(s, ops, name) == Borrowed(s, ops, name);
    assert Borrowed(s, ops, name)[k] == QueueOf(Run(s, ops).queues, name)[i];
    QueuedIsLive(Run(s, ops), name, i);
  }

  lemma EndBorrowLowers(s: Store, name: Name, x: SlotID)
    requires x in s.slots && s.slots[x].borrowRefs >= 1 && s.slots[x].refs >= 1
    ensures var s' := EndBorrow(s, name, x);
            && s'.slots.Keys == s.slots.Keys
            && s'.slots[x].borrowRefs == s.slots[x].borrowRefs - 1 && s'.slots[x].refs == s.slots[x].refs - 1
            && forall y :: y in s.slots && y != x ==> s'.slots[y] == s.slots[y]
  {
    hide Fire;
    var low := LowerBorrow(s.slots[x]);
    if low.refs <= 0 {
      var s1 := Put(s, x, Settle(low)).(counters := s.counters.(releases := s.counters.releases + 1),
        current := if name in s.current && s.current[name] == x then s.current - {name} else s.current,
        detached := s.detached - {x});
      FireKeepsSlots(s1, name, low.release);
    }
  }

  /** A successful named release ends one borrow, of the buffer at the head of the queue. */
  lemma ReturnEndsTheOldest(s: Store, name: Name)
    requires Inv(s) && QueueOf(s.queues, name) != []
    ensures var s', loan := Apply(s, ReleaseNamed(name)), QueueOf(s.queues, name)[0];
            && loan.slot in s.slots && s'.slots.Keys == s.slots.Keys
            && s'.slots[loan.slot].borrowRefs == s.slots[loan.slot].borrowRefs - 1
            && s'.slots[loan.slot].refs == s.slots[loan.slot].refs - 1
            && forall x :: x in s.slots && x != loan.slot ==> s'.slots[x] == s.slots[x]
  {
    ReleaseNamedOwes(s, name);
    ApplyReleaseNamed(s, name);
    Owing(s.(queues := Popped(s.queues, name)), s.queues[name][0].slot);
    hide Inv, Popped, Owed, EndBorrow, Apply;
    EndBorrowLowers(s.(queues := Popped(s.queues, name)), name, s.queues[name][0].slot);
  }

  // ---------- callbacks are not forgotten

  lemma FireFates(s: Store, name: Name, release: Option<Callback>)
    ensures s.fates.Keys <= Fire(s, name, release).fates.Keys
  {
  }

  lemma PublishFates(s: Store, name: Name, view: View, release: Option<Callback>)
    requires name in s.current ==> s.current[name] in s.slots
    ensures s.fates.Keys <= Publish(s, name, view, release).fates.Keys
    ensures release.Some? ==> release.value.id in Publish(s, name, view, release).fates
  {
    hide Forget, Fire;
    forall t: Store, cb: Option<Callback>
      ensures t.fates.Keys <= Fire(t, name, cb).fates.Keys { FireFates(t, name, cb); }
  }

  /** The callback of what is published is pending, whatever was overwritten. */
  lemma PublishPends(s: Store, name: Name, view: View, release: Option<Callback>)
    requires Inv(s) && Fresh(s, release) && release.Some?
    ensures name in s.current ==> s.current[name] in s.slots
    ensures var s' := Publish(s, name, view, release);
            release.value.id in s'.fates && s'.fates[release.value.id].Pending?
  {
    hide Inv, Forget, Fire;
    CurrentExists(s, name);
    if name in s.current && s.slots[s.current[name]].release.Some? { HeldIsPending(s, s.current[name]); }
    if name in s.current && s.slots[s.current[name]].refs <= 1 {
      var s1 := Overwritten(s.(tombs := Forget(s.tombs, name)), name, view, release);
      FireSpares(s1, name, s.slots[s.current[name]].release, release.value.id);
    }
  }

  lemma FireSpares(s: Store, name: Name, release: Option<Callback>, id: nat)
    requires id in s.fates && (release.Some? ==> release.value.id != id)
    ensures id in Fire(s, name, release).fates && Fire(s, name, release).fates[id] == s.fates[id]
  {
  }

  lemma HeldIsPending(s: Store, x: SlotID)
    requires Inv(s) && x in s.slots && s.slots[x].release.Some?
    ensures s.slots[x].release.value.id in s.fates
  {
  }

  lemma ReleaseFates(s: Store, name: Name, x: SlotID)
    requires x in s.slots
    ensures s.fates.Keys <= EndBorrow(s, name, x).fates.Keys && s.fates.Keys <= StoreSpec.ReleaseDirect(s, x).fates.Keys
    ensures name in s.current && s.current[name] in s.slots ==> s.fates.Keys <= StoreSpec.Free(s, name).fates.Keys
  {
    hide Fire, Mark;
    forall t: Store, n: Name, cb: Option<Callback>
      ensures t.fates.Keys <= Fire(t, n, cb).fates.Keys { FireFates(t, n, cb); }
  }

  lemma PublishOpFates(s: Store, op: Op)
    requires Inv(s) && Publishes(op)
    ensures s.fates.Keys <= Apply(s, op).fates.Keys
    ensures op.SetExternal? && op.release.Some? ==> op.release.value.id in Apply(s, op).fates
  {
    hide Inv, Apply, Publish;
    var outcome := ApplyPublish(s, op);
    if outcome.Stored? {
      PublishFates(s, op.name, outcome.view, outcome.release);
    }
  }

  lemma OtherOpFates(s: Store, op: Op)
    requires Inv(s) && !Publishes(op)
    ensures s.fates.Keys <= Apply(s, op).fates.Keys
  {
    hide Inv, Apply, EndBorrow, StoreSpec.Free, StoreSpec.ReleaseDirect, QueueOf, Popped;
    match op
    case Get(name) => ApplyGet(s, name);
    case Free(name) => ApplyFree(s, name); if name in s.current { ReleaseFates(s, name, s.current[name]); }
    case Borrow(name) => ApplyBorrow(s, name);
    case BorrowNamed(name) => ApplyBorrowNamed(s, name);
    case Retain(y) => ApplyRetain(s, y);
    case ReleaseDirect(y) => ApplyReleaseDirect(s, y); if y in s.slots { ReleaseFates(s, Name(""), y); }
    case ReleaseLease(l) =>
      ApplyReleaseLease(s, l);
      if l in s.leases { ReleaseFates(s.(leases := s.leases - {l}), s.leases[l].name, s.leases[l].slot); }
    case ReleaseNamed(name) =>
      ApplyReleaseNamed(s, name);
      if QueueOf(s.queues, name) != [] { ReturnFates(s, name); }
  }

  lemma ReturnFates(s: Store, name: Name)
    requires name in s.queues && s.queues[name] != [] && s.queues[name][0].slot in s.slots
    ensures s.fates.Keys <= EndBorrow(s.(queues := Popped(s.queues, name)), name, s.queues[name][0].slot).fates.Keys
  {
    hide EndBorrow, Popped;
    ReleaseFates(s.(queues := Popped(s.queues, name)), name, s.queues[name][0].slot);
  }

  /** A callback handed to the store stays accounted for. */
  lemma {:induction false} FateStays(s: Store, ops: seq<Op>, c: nat)
    requires Inv(s) && c in s.fates
    ensures c in Run(s, ops).fates
  {
    if ops != [] {
      var before, op := Run(s, ops[..|ops| - 1]), ops[|ops| - 1];
      hide Inv, Apply;
      FateStays(s, ops[..|ops| - 1], c);
      if Publishes(op) { PublishOpFates(before, op); } else { OtherOpFates(before, op); }
    }
  }

  /** From any point of a run on, a callback runs at most once, and has run exactly when nothing guards it. */
  lemma CallbackStaysExactlyOnce(s: Store, ops: seq<Op>, c: nat)
    requires Inv(s) && c in s.fates
    ensures c in Run(s, ops).fates
    ensures Times(Run(s, ops), c) == if Guarded(Run(s, ops), c) then 0 else 1
  {
    FateStays(s, ops, c);
    hide Inv, Run, Guarded;
    CallbackOnce(Run(s, ops), c);
  }

  lemma FireTombs(s: Store, name: Name, release: Option<Callback>)
    ensures Fire(s, name, release).tombs.released == s.tombs.released && Fire(s, name, release).current == s.current
  {
  }

  /** A freed name is remembered as released, and not as missing. */
  lemma FreedNameIsRemembered(s: Store, name: Name)
    requires Inv(s) && name in s.current && name.text != ""
    ensures var s' := Apply(s, Op.Free(name)); name in s'.tombs.released && name !in s'.current
  {
    var low := LowerOwner(s.slots[s.current[name]]);
    MarkInv(s.tombs, s.current.Keys, name, low.view);
    hide Inv, Apply, TombsOk, Mark, Fire, Settle, LowerOwner;
    ApplyFree(s, name);
    FireTombs(Unlink(s, name), name, low.release);
  }
}
