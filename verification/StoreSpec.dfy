/**
 The shared buffer store as a value. A slot is one Buffer object; republishing a name overwrites the slot in
 place or detaches it. History fields record what the program does not: which leases are outstanding, how many
 direct retains a slot has, and how often each release callback ran.
 */
module StoreSpec {
  import opened Buffers
  import opened Options

  const MAX_TOMBSTONES := 4096

  type SlotID = nat

  /** The public name of a buffer. */
  datatype Name = Name(text: string)

  datatype Callback = Callback(id: nat, fails: bool)

  /** History: `retains` counts direct retains, and `dead` says that no reference was left at some point. */
  datatype Slot = Slot(name: Name, view: View, refs: int, borrowRefs: int, owner: bool,
                       release: Option<Callback>, retains: nat, dead: bool)

  /** What a borrower was handed: the contents of a slot, and the callback that will release them. */
  datatype Loan = Loan(name: Name, slot: SlotID, view: View, release: Option<Callback>)

  datatype Tombstone = Tombstone(view: View, failed: bool)

  /** The released names that are still remembered, their last metadata, and the order of their release. */
  datatype Tombs = Tombs(released: set<Name>, meta: map<Name, Tombstone>, order: seq<Name>)

  /** A callback is kept in a slot, or has run. */
  datatype Fate = Pending(slot: SlotID) | Ran(times: nat)

  datatype Counters = Counters(allocations: int, sets: int, gets: int, releases: int, releaseErrors: int,
                               zeroCopyBorrows: int, zeroCopyImports: int)

  /**
   `slots` holds every buffer ever created; `leases` (history) the outstanding anonymous leases; `fates`
   (history) every release callback ever handed to the store.
   */
  datatype Store = Store(slots: map<SlotID, Slot>, current: map<Name, SlotID>, detached: set<SlotID>,
                         queues: map<Name, seq<Loan>>, leases: map<nat, Loan>, fates: map<nat, Fate>,
                         tombs: Tombs, counters: Counters, nextSlot: SlotID, nextLease: nat)

  const EMPTY := Store(map[], map[], {}, map[], map[], map[], Tombs({}, map[], []), Counters(0, 0, 0, 0, 0, 0, 0), 0, 0)

  // ---------- tombstones

  function Without(order: seq<Name>, name: Name): seq<Name> {
    if order == [] then [] else if order[0] == name then order[1..] else [order[0]] + Without(order[1..], name)
  }

  function Forget(t: Tombs, name: Name): Tombs {
    if name in t.released
    then Tombs(t.released - {name}, t.meta - {name}, Without(t.order, name))
    else t.(meta := t.meta - {name})
  }

  /** Drops the oldest tombstones beyond the limit. */
  function Trim(t: Tombs): Tombs
    decreases |t.order|
  {
    if |t.order| <= MAX_TOMBSTONES then t else
    Trim(Tombs(t.released - {t.order[0]}, t.meta - {t.order[0]}, t.order[1..]))
  }

  function Mark(t: Tombs, name: Name, view: View): Tombs {
    if name.text == "" then t else
    var meta := t.meta[name := Tombstone(view, false)];
    if name in t.released then t.(meta := meta)
    else Trim(Tombs(t.released + {name}, meta, t.order + [name]))
  }

  /** Notes a failed release callback on the tombstone of a name, if there is one. */
  function Blame(t: Tombs, name: Name): Tombs {
    if name in t.meta then t.(meta := t.meta[name := t.meta[name].(failed := true)]) else t
  }

  // ---------- callbacks

  function TimesRun(fate: Fate): nat {
    if fate.Ran? then fate.times else 0
  }

  function Times(s: Store, id: nat): nat {
    if id in s.fates && s.fates[id].Ran? then s.fates[id].times else 0
  }

  /** Invokes a release callback; a failure is counted and noted on the tombstone, if there is one. */
  function Fire(s: Store, name: Name, release: Option<Callback>): Store {
    if release.None? then s else
    var s' := s.(fates := s.fates[release.value.id := Ran(Times(s, release.value.id) + 1)]);
    if release.value.fails then Fail(s', name) else s'
  }

  function Fail(s: Store, name: Name): Store {
    s.(counters := s.counters.(releaseErrors := s.counters.releaseErrors + 1), tombs := Blame(s.tombs, name))
  }

  function FailureOf(release: Option<Callback>): bool {
    release.Some? && release.value.fails
  }

  // ---------- counts of a slot

  function Put(s: Store, x: SlotID, slot: Slot): Store {
    s.(slots := s.slots[x := slot])
  }

  /** The last reference takes the callback with it. */
  function Settle(slot: Slot): Slot {
    if slot.refs <= 0 then slot.(release := None, dead := true) else slot
  }

  function LowerBorrow(slot: Slot): Slot {
    if slot.borrowRefs > 0
    then slot.(borrowRefs := slot.borrowRefs - 1, refs := if slot.refs > 0 then slot.refs - 1 else slot.refs)
    else slot
  }

  function LowerOwner(slot: Slot): Slot {
    if slot.owner then slot.(owner := false, refs := slot.refs - 1) else slot
  }

  function Disown(slot: Slot): Slot {
    slot.(owner := false, refs := if slot.refs > 0 then slot.refs - 1 else slot.refs)
  }

  function Floor(slot: Slot): int {
    slot.borrowRefs + if slot.owner then 1 else 0
  }

  function LowerDirect(slot: Slot): Slot {
    if slot.refs > Floor(slot)
    then slot.(refs := slot.refs - 1, retains := if slot.retains > 0 then slot.retains - 1 else 0)
    else slot
  }

  // ---------- operations

  function AddSlot(s: Store, name: Name, view: View, release: Option<Callback>): Store {
    s.(slots := s.slots[s.nextSlot := Slot(name, view, 1, 0, true, release, 0, false)],
       current := s.current[name := s.nextSlot],
       fates := if release.Some? then s.fates[release.value.id := Pending(s.nextSlot)] else s.fates,
       nextSlot := s.nextSlot + 1)
  }

  predicate Fresh(s: Store, release: Option<Callback>) {
    release.Some? ==> release.value.id !in s.fates
  }

  /** The owner moves on from a slot that others still reference. */
  function Detach(s: Store, name: Name): Store
    requires name in s.current && s.current[name] in s.slots
  {
    var x := s.current[name];
    Put(s, x, Disown(s.slots[x])).(
      current := s.current - {name}, detached := s.detached + {x})
  }

  /** The slot of the name holds something new; its callback is still to be run. */
  function Overwritten(s: Store, name: Name, view: View, release: Option<Callback>): Store
    requires name in s.current && s.current[name] in s.slots
  {
    var x := s.current[name];
    Put(s, x, s.slots[x].(view := view, refs := 1, borrowRefs := 0, owner := true, release := release)).(
      fates := if release.Some? then s.fates[release.value.id := Pending(x)] else s.fates)
  }

  function Overwrite(s: Store, name: Name, view: View, release: Option<Callback>): Store
    requires name in s.current && s.current[name] in s.slots
  {
    Fire(Overwritten(s, name, view, release), name, s.slots[s.current[name]].release)
  }

  /** Publishes a view under a name. The slot of the name is reused only if its owner is the sole holder. */
  function Publish(s: Store, name: Name, view: View, release: Option<Callback>): Store
    requires name in s.current ==> s.current[name] in s.slots
  {
    var s0 := s.(tombs := Forget(s.tombs, name));
    if name !in s.current then AddSlot(s0, name, view, release)
    else if s.slots[s.current[name]].refs > 1 then AddSlot(Detach(s0, name), name, view, release)
    else Overwrite(s0, name, view, release)
  }

  function CountSet(s: Store, imported: bool): Store {
    s.(counters := s.counters.(sets := s.counters.sets + 1,
                               zeroCopyImports := s.counters.zeroCopyImports + if imported then 1 else 0))
  }

  /** A rejected import: nothing is stored, and its callback has run. */
  function Reject(s: Store, release: Option<Callback>): Store {
    if release.None? then s else s.(fates := s.fates[release.value.id := Ran(Times(s, release.value.id) + 1)])
  }

  /** The name is gone and has a tombstone; its slot is detached if others still reference it. */
  function Unlink(s: Store, name: Name): Store
    requires name in s.current && s.current[name] in s.slots
  {
    var x := s.current[name];
    var low := LowerOwner(s.slots[x]);
    Put(s, x, Settle(low)).(
      current := s.current - {name},
      detached := if low.refs <= 0 then s.detached - {x} else s.detached + {x},
      tombs := Mark(s.tombs, name, low.view),
      counters := s.counters.(releases := s.counters.releases + 1))
  }

  function Free(s: Store, name: Name): Store
    requires name in s.current && s.current[name] in s.slots
  {
    var low := LowerOwner(s.slots[s.current[name]]);
    if low.refs <= 0 then Fire(Unlink(s, name), name, low.release) else Unlink(s, name)
  }

  function Lend(s: Store, x: SlotID): Store
    requires x in s.slots
  {
    var slot := s.slots[x];
    Put(s, x, slot.(refs := slot.refs + 1, borrowRefs := slot.borrowRefs + 1)).(
      counters := s.counters.(gets := s.counters.gets + 1, zeroCopyBorrows := s.counters.zeroCopyBorrows + 1))
  }

  function LoanOf(s: Store, name: Name): Loan
    requires name in s.current && s.current[name] in s.slots
  {
    var x := s.current[name];
    Loan(name, x, s.slots[x].view, s.slots[x].release)
  }

  function Borrow(s: Store, name: Name): Store
    requires name in s.current && s.current[name] in s.slots
  {
    Lend(s, s.current[name]).(leases := s.leases[s.nextLease := LoanOf(s, name)], nextLease := s.nextLease + 1)
  }

  function QueueOf(queues: map<Name, seq<Loan>>, name: Name): seq<Loan> {
    if name in queues then queues[name] else []
  }

  function BorrowNamed(s: Store, name: Name): Store
    requires name in s.current && s.current[name] in s.slots
  {
    Lend(s, s.current[name]).(queues := s.queues[name := QueueOf(s.queues, name) + [LoanOf(s, name)]])
  }

  /** The current names when a slot of the given name is gone. */
  function WithoutLast(current: map<Name, SlotID>, name: Name, x: SlotID): map<Name, SlotID> {
    if name in current && current[name] == x then current - {name} else current
  }

  function WithoutBorrow(s: Store, name: Name, x: SlotID): Store
    requires x in s.slots
  {
    var low := LowerBorrow(s.slots[x]);
    s.(slots := s.slots[x := Settle(low)],
       current := if low.refs <= 0 then WithoutLast(s.current, name, x) else s.current,
       detached := if low.refs <= 0 then s.detached - {x} else s.detached)
  }

  /** One borrow of a slot ends. The last reference removes the slot from the store. */
  function EndedBorrow(s: Store, name: Name, x: SlotID): Store
    requires x in s.slots
  {
    WithoutBorrow(s, name, x).(counters := s.counters.(releases := s.counters.releases + 1))
  }

  /** The last reference also runs the callback. */
  function EndBorrow(s: Store, name: Name, x: SlotID): Store
    requires x in s.slots
  {
    var low := LowerBorrow(s.slots[x]);
    if low.refs > 0 then EndedBorrow(s, name, x) else Fire(EndedBorrow(s, name, x), name, low.release)
  }

  function ReleaseLease(s: Store, l: nat): Store
    requires l in s.leases && s.leases[l].slot in s.slots
  {
    EndBorrow(s.(leases := s.leases - {l}), s.leases[l].name, s.leases[l].slot)
  }

  function Popped(queues: map<Name, seq<Loan>>, name: Name): map<Name, seq<Loan>>
    requires name in queues && queues[name] != []
  {
    if |queues[name]| == 1 then queues - {name} else queues[name := queues[name][1..]]
  }

  /** The oldest unreleased named borrow of a name ends; without one, nothing changes. */
  function ReleaseNamed(s: Store, name: Name): Store
    requires QueueOf(s.queues, name) != [] ==> QueueOf(s.queues, name)[0].slot in s.slots
  {
    if QueueOf(s.queues, name) == [] then s
    else EndBorrow(s.(queues := Popped(s.queues, name)), name, s.queues[name][0].slot)
  }

  function Retain(s: Store, x: SlotID): Store
    requires x in s.slots
  {
    Put(s, x, s.slots[x].(refs := s.slots[x].refs + 1, retains := s.slots[x].retains + 1))
  }

  function EndedDirect(s: Store, x: SlotID): Store
    requires x in s.slots
  {
    var low := LowerDirect(s.slots[x]);
    if low.refs > 0 then Put(s, x, Settle(low)) else Put(s, x, Settle(low)).(detached := s.detached - {x})
  }

  function ReleaseDirect(s: Store, x: SlotID): Store
    requires x in s.slots
  {
    var low := LowerDirect(s.slots[x]);
    if low.refs > 0 then EndedDirect(s, x) else Fire(EndedDirect(s, x), low.name, low.release)
  }
}
