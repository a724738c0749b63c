/** What every operation of the shared buffer store keeps. */
module StoreInv {
  import opened Buffers
  import opened Options
  import opened Sequences
  import opened StoreSpec

  // ---------- the invariant

  ghost function LeasesOn(leases: map<nat, Loan>, x: SlotID): set<nat> {
    set l | l in leases && leases[l].slot == x
  }

  ghost function Occurs(queue: seq<Loan>, x: SlotID): nat {
    if queue == [] then 0 else Occurs(queue[..|queue| - 1], x) + if queue[|queue| - 1].slot == x then 1 else 0
  }

  /** Outstanding borrows of a slot: anonymous leases, and entries in the queue of its name. */
  ghost function Loaned(s: Store, x: SlotID): nat
    requires x in s.slots
  {
    |LeasesOn(s.leases, x)| + Occurs(QueueOf(s.queues, s.slots[x].name), x)
  }

  /** References are borrows, the owner and direct retains; borrows are the outstanding loans (plus `more`). */
  ghost predicate SlotOk(s: Store, x: SlotID, more: nat)
    requires x in s.slots
  {
    && s.slots[x].borrowRefs == Loaned(s, x) + more
    && s.slots[x].refs == s.slots[x].borrowRefs + (if s.slots[x].owner then 1 else 0) + s.slots[x].retains
  }

  ghost predicate CountsOk(s: Store) {
    forall x :: x in s.slots ==> SlotOk(s, x, 0)
  }

  /** A slot that is not dead is the current one of its name exactly if its owner holds it, and detached otherwise. */
  ghost predicate PlacesOk(s: Store) {
    CurrentIn(s.slots, s.current) && DetachedIn(s.slots, s.detached) && DeadIn(s.slots)
  }

  ghost predicate CurrentIn(slots: map<SlotID, Slot>, current: map<Name, SlotID>) {
    && (forall n :: n in current ==> current[n] in slots && slots[current[n]].name == n && slots[current[n]].owner)
    && (forall x :: x in slots && slots[x].owner ==> slots[x].name in current && current[slots[x].name] == x)
  }

  ghost predicate DetachedIn(slots: map<SlotID, Slot>, detached: set<SlotID>) {
    forall x :: x in detached <==> x in slots && Stray(slots[x])
  }

  /** Referenced without an owner, and never dead. */
  ghost predicate Stray(slot: Slot) {
    slot.refs > 0 && !slot.owner && !slot.dead
  }

  ghost predicate DeadIn(slots: map<SlotID, Slot>) {
    forall x :: x in slots ==> DeadOk(slots[x])
  }

  /** A buffer without references is dead, and a dead one has no owner, no borrows and no callback. */
  ghost predicate DeadOk(slot: Slot) {
    (slot.refs <= 0 ==> slot.dead) && (slot.dead ==> !slot.owner && slot.borrowRefs == 0 && slot.release.None?)
  }

  /** One slot changes, but not its name or owner. */
  lemma KeepPlaces(s: Store, s': Store, x: SlotID)
    requires PlacesOk(s) && x in s.slots && x in s'.slots
    requires s'.slots == s.slots[x := s'.slots[x]] && s'.current == s.current
    requires s'.slots[x].name == s.slots[x].name && s'.slots[x].owner == s.slots[x].owner && DeadOk(s'.slots[x])
    requires s'.detached == s.detached - {x} + (if Stray(s'.slots[x]) then {x} else {})
    ensures PlacesOk(s')
  {
    hide Stray, DeadOk;
    assert CurrentIn(s'.slots, s'.current);
    hide CurrentIn;
  }

  /** A slot still holds what was lent from it, and the callback that guards it has not run. */
  ghost predicate LoanOk(slots: map<SlotID, Slot>, loan: Loan) {
    && loan.slot in slots && slots[loan.slot].name == loan.name
    && slots[loan.slot].view == loan.view && slots[loan.slot].release == loan.release
  }

  ghost predicate QueueLoansOk(slots: map<SlotID, Slot>, name: Name, queue: seq<Loan>) {
    queue != [] && forall i :: 0 <= i < |queue| ==> LoanOk(slots, queue[i]) && queue[i].name == name
  }

  ghost predicate LoansOk(s: Store) {
    LoansIn(s.slots, s.leases, s.queues)
  }

  ghost predicate LoansIn(slots: map<SlotID, Slot>, leases: map<nat, Loan>, queues: map<Name, seq<Loan>>) {
    && (forall l :: l in leases ==> LoanOk(slots, leases[l]))
    && (forall n :: n in queues ==> QueueLoansOk(slots, n, queues[n]))
  }

  /** A callback is pending in exactly one slot, which is referenced; or it has run exactly once. */
  ghost predicate FatesOk(s: Store) {
    FatesIn(s.slots, s.fates)
  }

  ghost predicate FatesIn(slots: map<SlotID, Slot>, fates: map<nat, Fate>) {
    && (forall x :: x in slots && slots[x].release.Some? ==>
          slots[x].refs > 0 && slots[x].release.value.id in fates && fates[slots[x].release.value.id] == Pending(x))
    && (forall c :: c in fates ==>
          match fates[c]
          case Pending(x) => x in slots && slots[x].release.Some? && slots[x].release.value.id == c
          case Ran(times) => times == 1)
  }

  /** Counting looks at slots and loans only. */
  lemma SameCounts(s: Store, s': Store, x: SlotID, more: nat)
    requires s'.slots == s.slots && s'.leases == s.leases && s'.queues == s.queues && x in s.slots && SlotOk(s, x, more)
    ensures SlotOk(s', x, more)
  {
  }

  lemma SameAllCounts(s: Store, s': Store)
    requires s'.slots == s.slots && s'.leases == s.leases && s'.queues == s.queues && CountsOk(s)
    ensures CountsOk(s')
  {
    forall x | x in s'.slots ensures SlotOk(s', x, 0) {
      SameCounts(s, s', x, 0);
      hide SlotOk;
    }
  }

  ghost predicate OrderOk(t: Tombs) {
    Distinct(t.order) && (forall n :: n in t.order <==> n in t.released)
  }

  /** Tombstones, their metadata and their order list name the same, at most 4096, dead names. */
  ghost predicate TombsOk(t: Tombs, live: set<Name>) {
    OrderOk(t) && t.meta.Keys == t.released && |t.order| <= MAX_TOMBSTONES && t.released !! live
      && Name("") !in t.released
  }

  ghost predicate IdsOk(s: Store) {
    (forall x :: x in s.slots ==> x < s.nextSlot) && (forall l :: l in s.leases ==> l < s.nextLease)
  }

  ghost predicate Inv(s: Store) {
    CountsOk(s) && PlacesOk(s) && LoansOk(s) && FatesOk(s) && TombsOk(s.tombs, s.current.Keys) && IdsOk(s)
  }

  // ---------- counting loans

  lemma OccursSnoc(queue: seq<Loan>, loan: Loan, x: SlotID)
    ensures Occurs(queue + [loan], x) == Occurs(queue, x) + if loan.slot == x then 1 else 0
  {
    assert (queue + [loan])[..|queue|] == queue;
  }

  lemma {:induction false} OccursTail(queue: seq<Loan>, x: SlotID)
    requires queue != []
    ensures Occurs(queue, x) == Occurs(queue[1..], x) + if queue[0].slot == x then 1 else 0
  {
    if |queue| > 1 {
      var front := queue[..|queue| - 1];
      OccursTail(front, x);
      assert front[1..] == queue[1..][..|queue| - 2];
    }
  }

  lemma {:induction false} OccursAt(queue: seq<Loan>, x: SlotID, i: nat)
    requires i < |queue| && queue[i].slot == x
    ensures Occurs(queue, x) >= 1
  {
    if i < |queue| - 1 { OccursAt(queue[..|queue| - 1], x, i); }
  }

  lemma LeaseAdded(leases: map<nat, Loan>, l: nat, loan: Loan, x: SlotID)
    requires l !in leases
    ensures |LeasesOn(leases[l := loan], x)| == |LeasesOn(leases, x)| + if loan.slot == x then 1 else 0
  {
    assert LeasesOn(leases[l := loan], x) == LeasesOn(leases, x) + if loan.slot == x then {l} else {};
  }

  lemma LeaseRemoved(leases: map<nat, Loan>, l: nat, x: SlotID)
    requires l in leases
    ensures |LeasesOn(leases - {l}, x)| == |LeasesOn(leases, x)| - if leases[l].slot == x then 1 else 0
  {
    assert LeasesOn(leases, x) == LeasesOn(leases - {l}, x) + if leases[l].slot == x then {l} else {};
  }

  /** A slot without borrows has no loans. */
  lemma Unborrowed(s: Store, x: SlotID)
    requires x in s.slots && LoansOk(s) && Loaned(s, x) == 0
    ensures forall l :: l in s.leases ==> s.leases[l].slot != x
    ensures forall n, i :: n in s.queues && 0 <= i < |s.queues[n]| ==> s.queues[n][i].slot != x
  {
    forall l | l in s.leases ensures s.leases[l].slot != x {
      assert s.leases[l].slot == x ==> l in LeasesOn(s.leases, x);
    }
    forall n, i | n in s.queues && 0 <= i < |s.queues[n]| ensures s.queues[n][i].slot != x {
      assert QueueLoansOk(s.slots, n, s.queues[n]);
      if s.queues[n][i].slot == x { OccursAt(s.queues[n], x, i); }
    }
  }

  // ---------- tombstones

  lemma {:induction false} WithoutName(order: seq<Name>, name: Name)
    requires Distinct(order)
    ensures Distinct(Without(order, name)) && |Without(order, name)| <= |order|
    ensures forall n :: n in Without(order, name) <==> n in order && n != name
  {
    if order != [] {
      assert Distinct(order[1..]);
      WithoutName(order[1..], name);
      var rest := Without(order[1..], name);
      assert forall i :: 0 <= i < |rest| ==> rest[i] in order[1..];
    }
  }

  lemma ForgetInv(t: Tombs, live: set<Name>, name: Name)
    requires TombsOk(t, live)
    ensures TombsOk(Forget(t, name), live + {name})
  {
    WithoutName(t.order, name);
    hide Distinct, Without;
  }

  lemma MarkInv(t: Tombs, live: set<Name>, name: Name, view: View)
    requires TombsOk(t, live)
    ensures TombsOk(Mark(t, name, view), live - {name})
    ensures name.text != "" ==>
              name in Mark(t, name, view).released && Mark(t, name, view).meta[name] == Tombstone(view, false)
  {
    if name.text != "" && name !in t.released {
      AppendOrder(t, name);
      var t' := Tombs(t.released + {name}, t.meta[name := Tombstone(view, false)], t.order + [name]);
      hide OrderOk;
      TrimInv(t', live - {name});
    }
  }

  lemma AppendOrder(t: Tombs, name: Name)
    requires OrderOk(t) && name !in t.released
    ensures OrderOk(Tombs(t.released + {name}, t.meta, t.order + [name]))
  {
  }

  lemma DropOldest(t: Tombs)
    requires OrderOk(t) && t.order != []
    ensures OrderOk(Tombs(t.released - {t.order[0]}, t.meta, t.order[1..]))
  {
    assert t.order == [t.order[0]] + t.order[1..];
    forall n ensures n in t.order[1..] <==> n in t.released - {t.order[0]} {
      if n in t.order[1..] {
        var i :| 0 <= i < |t.order[1..]| && t.order[1..][i] == n;
        assert t.order[i + 1] != t.order[0];
      }
    }
  }

  lemma TrimInv(t: Tombs, live: set<Name>)
    requires OrderOk(t) && t.meta.Keys == t.released && 1 <= |t.order| <= MAX_TOMBSTONES + 1
    requires t.released !! live && Name("") !in t.released
    ensures TombsOk(Trim(t), live)
    ensures var newest := t.order[|t.order| - 1];
            newest in Trim(t).released && newest in Trim(t).meta && Trim(t).meta[newest] == t.meta[newest]
  {
    var newest := t.order[|t.order| - 1];
    assert newest in t.order;
    if |t.order| > MAX_TOMBSTONES {
      DropOldest(t);
      var t' := Tombs(t.released - {t.order[0]}, t.meta - {t.order[0]}, t.order[1..]);
      assert newest != t.order[0];
      hide Distinct;
      assert Trim(t') == t';
      assert Trim(t) == t';
    }
  }

  lemma BlameInv(t: Tombs, live: set<Name>, name: Name)
    requires TombsOk(t, live)
    ensures TombsOk(Blame(t, name), live)
  {
    hide OrderOk;
    assert OrderOk(Blame(t, name)) by { TombOrderOnly(t, Blame(t, name)); }
  }

  lemma TombOrderOnly(t: Tombs, t': Tombs)
    requires t.released == t'.released && t.order == t'.order && OrderOk(t)
    ensures OrderOk(t')
  {
  }

  /** Running a callback touches its fate, the error counter and a tombstone, and nothing else. */
  lemma FireFrame(s: Store, name: Name, release: Option<Callback>)
    requires TombsOk(s.tombs, s.current.Keys)
    ensures var s' := Fire(s, name, release);
            && s' == s.(fates := s'.fates, tombs := s'.tombs, counters := s'.counters)
            && TombsOk(s'.tombs, s.current.Keys)
            && s'.fates
              == if release.None? then s.fates else s.fates[release.value.id := Ran(Times(s, release.value.id) + 1)]
  {
    hide TombsOk, Blame, Times;
    if release.Some? && release.value.fails {
      BlameInv(s.tombs, s.current.Keys, name);
    }
  }

  // ---------- a borrow ends

  /** The invariant, except that slot `x` still counts one borrow more than there are loans. */
  ghost predicate Owed(s: Store, x: SlotID) {
    && x in s.slots && SlotOk(s, x, 1) && (forall y :: y in s.slots && y != x ==> SlotOk(s, y, 0))
    && PlacesOk(s) && LoansOk(s) && FatesOk(s) && TombsOk(s.tombs, s.current.Keys) && IdsOk(s)
  }

  lemma Owing(s: Store, x: SlotID)
    requires Owed(s, x)
    ensures s.slots[x].borrowRefs >= 1 && s.slots[x].refs >= 1
    ensures s.slots[x].refs == 1 ==> !s.slots[x].owner && s.slots[x].borrowRefs == 1
    ensures !s.slots[x].owner ==> forall n :: n in s.current ==> s.current[n] != x
  {
    hide Loaned, LoansOk, FatesOk, TombsOk;
  }

  /** The fates after the reference count of a slot has gone down, from `slot` to `slot'`. */
  ghost function FatesAfter(s: Store, slot: Slot, slot': Slot): map<nat, Fate> {
    if slot'.refs > 0 || slot.release.None? then s.fates
    else s.fates[slot.release.value.id := Ran(Times(s, slot.release.value.id) + 1)]
  }

  /** What ending a borrow does, apart from the callback it may run. */
  lemma EndBorrowShape(s: Store, name: Name, x: SlotID)
    requires TombsOk(s.tombs, s.current.Keys) && x in s.slots && s.slots[x].borrowRefs >= 1 && s.slots[x].refs >= 1
    requires s.slots[x].refs == 1 ==> forall n :: n in s.current ==> s.current[n] != x
    ensures var s', slot := EndBorrow(s, name, x), s.slots[x];
            && s'.slots == s.slots[x := Settle(slot.(refs := slot.refs - 1, borrowRefs := slot.borrowRefs - 1))]
            && s'.current == s.current && s'.queues == s.queues && s'.leases == s.leases
            && s'.detached == (if slot.refs > 1 then s.detached else s.detached - {x})
            && s'.nextSlot == s.nextSlot && s'.nextLease == s.nextLease
            && TombsOk(s'.tombs, s.current.Keys)
            && s'.fates == FatesAfter(s, slot, s'.slots[x])
  {
    hide TombsOk, Fire;
    var low := LowerBorrow(s.slots[x]);
    if low.refs <= 0 {
      var s1 := Put(s, x, Settle(low)).(
        counters := s.counters.(releases := s.counters.releases + 1), detached := s.detached - {x});
      assert EndBorrow(s, name, x) == Fire(s1, name, low.release);
      FireFrame(s1, name, low.release);
    }
  }

  lemma EndBorrowCounts(s: Store, s': Store, x: SlotID)
    requires x in s.slots && SlotOk(s, x, 1) && (forall y :: y in s.slots && y != x ==> SlotOk(s, y, 0))
    requires var slot := s.slots[x];
             s'.slots == s.slots[x := Settle(slot.(refs := slot.refs - 1, borrowRefs := slot.borrowRefs - 1))]
    requires s'.queues == s.queues && s'.leases == s.leases
    ensures CountsOk(s')
  {
    hide LeasesOn, Occurs, QueueOf;
    forall y | y in s'.slots ensures SlotOk(s', y, 0) {
      assert y in s.slots && s'.slots[y].name == s.slots[y].name;
    }
  }

  lemma EndBorrowPlaces(s: Store, s': Store, x: SlotID)
    requires x in s.slots && SlotOk(s, x, 1) && PlacesOk(s)
    requires var slot := s.slots[x];
             s'.slots == s.slots[x := Settle(slot.(refs := slot.refs - 1, borrowRefs := slot.borrowRefs - 1))]
    requires s'.current == s.current && s'.detached == (if s.slots[x].refs > 1 then s.detached else s.detached - {x})
    ensures PlacesOk(s')
  {
    DeadAt(s, x);
    hide Loaned, PlacesOk;
    KeepPlaces(s, s', x);
  }

  lemma DeadAt(s: Store, x: SlotID)
    requires PlacesOk(s) && x in s.slots
    ensures DeadOk(s.slots[x]) && (x in s.detached <==> Stray(s.slots[x]))
  {
    hide CurrentIn, DeadOk, Stray;
  }

  /** A slot may change while it is on loan as long as its contents and its callback stay. */
  lemma KeepLoans(s: Store, s': Store, x: SlotID)
    requires LoansOk(s) && x in s.slots && x in s'.slots && s'.slots == s.slots[x := s'.slots[x]]
    requires s'.slots[x].name == s.slots[x].name && s'.slots[x].view == s.slots[x].view
    requires s'.slots[x].release == s.slots[x].release || Loaned(s, x) == 0
    requires s'.queues == s.queues && s'.leases == s.leases
    ensures LoansOk(s')
  {
    if Loaned(s, x) == 0 { Unborrowed(s, x); }
    hide Loaned;
    forall n | n in s'.queues ensures QueueLoansOk(s'.slots, n, s'.queues[n]) {
      assert QueueLoansOk(s.slots, n, s.queues[n]);
    }
  }

  lemma KeepFates(s: Store, s': Store, x: SlotID)
    requires FatesOk(s) && x in s.slots && x in s'.slots && s'.slots == s.slots[x := s'.slots[x]]
    requires s'.slots[x].release == if s'.slots[x].refs > 0 then s.slots[x].release else None
    requires s'.fates == FatesAfter(s, s.slots[x], s'.slots[x])
    ensures FatesOk(s')
  {
  }

  lemma EndBorrowInv(s: Store, name: Name, x: SlotID)
    requires Owed(s, x) && s.slots[x].name == name
    ensures Inv(EndBorrow(s, name, x))
  {
    var s' := EndBorrow(s, name, x);
    Owing(s, x);
    EndBorrowShape(s, name, x);
    hide EndBorrow, FatesAfter, TombsOk, FatesOk, LoansOk;
    EndBorrowCounts(s, s', x);
    EndBorrowPlaces(s, s', x);
    if s.slots[x].refs == 1 { assert Loaned(s, x) == 0; }
    KeepLoans(s, s', x);
    KeepFates(s, s', x);
    hide EndBorrow, CountsOk, PlacesOk, LoansOk, FatesOk, TombsOk, SlotOk;
  }

  lemma ReleaseLeaseCounts(s: Store, l: nat, y: SlotID)
    requires CountsOk(s) && l in s.leases && y in s.slots
    ensures SlotOk(s.(leases := s.leases - {l}), y, if y == s.leases[l].slot then 1 else 0)
  {
    LeaseRemoved(s.leases, l, y);
    assert SlotOk(s, y, 0);
    hide LeasesOn;
  }

  lemma WithoutLease(s: Store, l: nat)
    requires LoansOk(s) && l in s.leases
    ensures LoanOk(s.slots, s.leases[l]) && LoansOk(s.(leases := s.leases - {l}))
  {
    hide LoanOk, QueueLoansOk;
  }

  lemma ReleaseLeaseOwes(s: Store, l: nat)
    requires Inv(s) && l in s.leases
    ensures s.leases[l].slot in s.slots && s.slots[s.leases[l].slot].name == s.leases[l].name
    ensures Owed(s.(leases := s.leases - {l}), s.leases[l].slot)
  {
    hide PlacesOk, FatesOk, TombsOk, CountsOk, LoansOk, SlotOk;
    var s1, x := s.(leases := s.leases - {l}), s.leases[l].slot;
    WithoutLease(s, l);
    PopFrame(s, s1);
    forall y | y in s.slots ensures SlotOk(s1, y, if y == x then 1 else 0) {
      ReleaseLeaseCounts(s, l, y);
    }
  }

  lemma ReleaseLeaseInv(s: Store, l: nat)
    requires Inv(s) && l in s.leases
    ensures s.leases[l].slot in s.slots && Inv(ReleaseLease(s, l))
  {
    ReleaseLeaseOwes(s, l);
    hide Owed, Inv;
    EndBorrowInv(s.(leases := s.leases - {l}), s.leases[l].name, s.leases[l].slot);
  }

  lemma PopOccurs(queues: map<Name, seq<Loan>>, name: Name, n: Name, x: SlotID)
    requires name in queues && queues[name] != []
    ensures Occurs(QueueOf(queues, n), x)
         == Occurs(QueueOf(Popped(queues, name), n), x) + if n == name && queues[name][0].slot == x then 1 else 0
  {
    if n == name {
      OccursTail(queues[name], x);
    }
  }

  lemma PopLoans(s: Store, name: Name)
    requires LoansOk(s) && name in s.queues && s.queues[name] != []
    ensures LoansOk(s.(queues := Popped(s.queues, name)))
  {
    var queues := Popped(s.queues, name);
    forall n | n in queues ensures QueueLoansOk(s.slots, n, queues[n]) {
      assert QueueLoansOk(s.slots, n, s.queues[n]);
    }
  }

  lemma PopCounts(s: Store, name: Name, y: SlotID)
    requires CountsOk(s) && name in s.queues && s.queues[name] != [] && y in s.slots
    requires s.queues[name][0].slot in s.slots && s.slots[s.queues[name][0].slot].name == name
    ensures SlotOk(s.(queues := Popped(s.queues, name)), y, if y == s.queues[name][0].slot then 1 else 0)
  {
    PopOccurs(s.queues, name, s.slots[y].name, y);
    assert SlotOk(s, y, 0);
    hide LeasesOn, Occurs, QueueOf, Popped;
  }

  lemma HeadLoan(s: Store, name: Name)
    requires LoansOk(s) && QueueOf(s.queues, name) != []
    ensures var loan := s.queues[name][0]; LoanOk(s.slots, loan) && loan.name == name
  {
    assert QueueLoansOk(s.slots, name, s.queues[name]);
  }

  lemma ReleaseNamedOwes(s: Store, name: Name)
    requires Inv(s) && QueueOf(s.queues, name) != []
    ensures s.queues[name][0].slot in s.slots && s.slots[s.queues[name][0].slot].name == name
    ensures Owed(s.(queues := Popped(s.queues, name)), s.queues[name][0].slot)
  {
    hide PlacesOk, FatesOk, TombsOk, CountsOk, LoansOk, SlotOk, Popped;
    var s1, x := s.(queues := Popped(s.queues, name)), s.queues[name][0].slot;
    HeadLoan(s, name);
    PopLoans(s, name);
    forall y | y in s.slots ensures SlotOk(s1, y, if y == x then 1 else 0) {
      PopCounts(s, name, y);
    }
    assert PlacesOk(s1) && FatesOk(s1) by { PopFrame(s, s1); }
  }

  lemma PopFrame(s: Store, s': Store)
    requires PlacesOk(s) && FatesOk(s) && s' == s.(queues := s'.queues, leases := s'.leases)
    ensures PlacesOk(s') && FatesOk(s')
  {
  }

  lemma ReleaseNamedInv(s: Store, name: Name)
    requires Inv(s)
    ensures (QueueOf(s.queues, name) != [] ==> QueueOf(s.queues, name)[0].slot in s.slots) && Inv(ReleaseNamed(s, name))
  {
    if QueueOf(s.queues, name) != [] {
      ReleaseNamedOwes(s, name);
      hide Owed, Inv;
      EndBorrowInv(s.(queues := Popped(s.queues, name)), name, s.queues[name][0].slot);
    }
  }

  // ---------- a borrow begins

  lemma LendFrame(s: Store, x: SlotID, s': Store)
    requires PlacesOk(s) && LoansOk(s) && FatesOk(s) && x in s.slots && s.slots[x].refs >= 0
    requires x in s'.slots && s'.slots == s.slots[x := s'.slots[x]]
    requires s'.slots[x]
          == s.slots[x].(refs := s.slots[x].refs + 1, borrowRefs := s'.slots[x].borrowRefs,
            retains := s'.slots[x].retains)
    requires s.slots[x].dead ==> s'.slots[x].borrowRefs == s.slots[x].borrowRefs
    requires s'.current == s.current && s'.detached == s.detached && s'.fates == s.fates
    ensures PlacesOk(s') && FatesOk(s')
    ensures forall loan :: LoanOk(s.slots, loan) ==> LoanOk(s'.slots, loan)
    ensures forall n :: n in s.queues ==> QueueLoansOk(s'.slots, n, s.queues[n])
  {
    LendPlaces(s, x, s');
    hide PlacesOk;
    assert FatesOk(s') by { hide LoansOk; }
    LendLoans(s, x, s');
    hide LoansOk, FatesOk, QueueLoansOk, LoanOk;
  }

  lemma LendPlaces(s: Store, x: SlotID, s': Store)
    requires PlacesOk(s) && x in s.slots && x in s'.slots
    requires s'.slots == s.slots[x := s'.slots[x]] && s.slots[x].refs >= 0
    requires s'.slots[x]
          == s.slots[x].(refs := s.slots[x].refs + 1, borrowRefs := s'.slots[x].borrowRefs,
            retains := s'.slots[x].retains)
    requires s.slots[x].dead ==> s'.slots[x].borrowRefs == s.slots[x].borrowRefs
    requires s'.current == s.current && s'.detached == s.detached
    ensures PlacesOk(s')
  {
    DeadAt(s, x);
    hide PlacesOk;
    KeepPlaces(s, s', x);
  }

  lemma LendLoans(s: Store, x: SlotID, s': Store)
    requires LoansOk(s) && x in s.slots && x in s'.slots && s'.slots == s.slots[x := s'.slots[x]]
    requires s'.slots[x].name == s.slots[x].name && s'.slots[x].view == s.slots[x].view
    requires s'.slots[x].release == s.slots[x].release
    ensures forall loan :: LoanOk(s.slots, loan) ==> LoanOk(s'.slots, loan)
    ensures forall n :: n in s.queues ==> QueueLoansOk(s'.slots, n, s.queues[n])
  {
    assert forall loan :: LoanOk(s.slots, loan) ==> LoanOk(s'.slots, loan);
    hide LoanOk;
    forall n | n in s.queues ensures QueueLoansOk(s'.slots, n, s.queues[n]) {
      assert QueueLoansOk(s.slots, n, s.queues[n]);
    }
  }

  lemma BorrowCounts(s: Store, name: Name, y: SlotID)
    requires CountsOk(s) && IdsOk(s) && name in s.current && s.current[name] in s.slots && y in s.slots
    ensures SlotOk(Borrow(s, name), y, 0)
  {
    LeaseAdded(s.leases, s.nextLease, LoanOf(s, name), y);
    assert SlotOk(s, y, 0);
    hide LeasesOn, Occurs, QueueOf;
  }

  /** The current slot of a name is referenced. */
  lemma CurrentIsLive(s: Store, name: Name)
    requires CountsOk(s) && PlacesOk(s) && name in s.current
    ensures var x := s.current[name];
            x in s.slots && s.slots[x].refs >= 1 && s.slots[x].name == name && s.slots[x].owner && !s.slots[x].dead
            && LoanOk(s.slots, LoanOf(s, name))
  {
    assert SlotOk(s, s.current[name], 0);
    hide Loaned;
  }

  lemma BorrowLoans(s: Store, name: Name, s': Store)
    requires LoansOk(s) && name in s.current && s.current[name] in s.slots && s' == Borrow(s, name)
    requires LoanOk(s.slots, LoanOf(s, name))
    requires forall loan :: LoanOk(s.slots, loan) ==> LoanOk(s'.slots, loan)
    requires forall n :: n in s.queues ==> QueueLoansOk(s'.slots, n, s.queues[n])
    ensures LoansOk(s')
  {
    hide LoanOk, QueueLoansOk;
  }

  lemma BorrowIds(s: Store, name: Name)
    requires IdsOk(s) && name in s.current && s.current[name] in s.slots
    ensures IdsOk(Borrow(s, name)) && IdsOk(BorrowNamed(s, name))
  {
  }

  lemma BorrowInv(s: Store, name: Name)
    requires Inv(s) && name in s.current
    ensures s.current[name] in s.slots && Inv(Borrow(s, name))
  {
    CurrentIsLive(s, name);
    var s' := Borrow(s, name);
    LendFrame(s, s.current[name], s');
    BorrowLoans(s, name, s');
    BorrowIds(s, name);
    assert CountsOk(s') by {
      forall y | y in s'.slots ensures SlotOk(s', y, 0) {
        BorrowCounts(s, name, y);
      }
    }
    assert s'.current == s.current && s'.tombs == s.tombs;
    hide TombsOk, FatesOk, PlacesOk, IdsOk, CountsOk, LoansOk, SlotOk, Borrow;
  }

  lemma QueueGrows(queues: map<Name, seq<Loan>>, name: Name, loan: Loan, n: Name, x: SlotID)
    ensures Occurs(QueueOf(queues[name := QueueOf(queues, name) + [loan]], n), x)
         == Occurs(QueueOf(queues, n), x) + if n == name && loan.slot == x then 1 else 0
  {
    OccursSnoc(QueueOf(queues, name), loan, x);
  }

  lemma BorrowNamedLoans(s: Store, name: Name, s': Store)
    requires LoansOk(s) && name in s.current && s.current[name] in s.slots && s' == BorrowNamed(s, name)
    requires LoanOk(s.slots, LoanOf(s, name))
    requires forall loan :: LoanOk(s.slots, loan) ==> LoanOk(s'.slots, loan)
    requires forall n :: n in s.queues ==> QueueLoansOk(s'.slots, n, s.queues[n])
    ensures LoansOk(s')
  {
    var loan := LoanOf(s, name);
    assert LoanOk(s'.slots, loan);
    forall n | n in s'.queues ensures QueueLoansOk(s'.slots, n, s'.queues[n]) {
      if n == name { assert s'.queues[n] == QueueOf(s.queues, name) + [loan]; }
    }
    hide LoanOk;
  }

  lemma BorrowNamedCounts(s: Store, name: Name, y: SlotID)
    requires CountsOk(s) && name in s.current && s.current[name] in s.slots && y in s.slots
    requires s.slots[s.current[name]].name == name
    ensures SlotOk(BorrowNamed(s, name), y, 0)
  {
    QueueGrows(s.queues, name, LoanOf(s, name), s.slots[y].name, y);
    assert SlotOk(s, y, 0);
    hide LeasesOn, Occurs, QueueOf;
  }

  lemma BorrowNamedInv(s: Store, name: Name)
    requires Inv(s) && name in s.current
    ensures s.current[name] in s.slots && Inv(BorrowNamed(s, name))
  {
    CurrentIsLive(s, name);
    var s' := BorrowNamed(s, name);
    LendFrame(s, s.current[name], s');
    BorrowNamedLoans(s, name, s');
    BorrowIds(s, name);
    assert CountsOk(s') by {
      forall y | y in s'.slots ensures SlotOk(s', y, 0) {
        BorrowNamedCounts(s, name, y);
      }
    }
    assert s'.current == s.current && s'.tombs == s.tombs;
    hide TombsOk, FatesOk, PlacesOk, IdsOk, CountsOk, LoansOk, SlotOk, BorrowNamed;
  }

  // ---------- direct references

  lemma RetainCounts(s: Store, x: SlotID)
    requires CountsOk(s) && x in s.slots
    ensures CountsOk(Retain(s, x))
  {
    hide Occurs, LeasesOn, QueueOf;
    forall y | y in s.slots ensures SlotOk(Retain(s, x), y, 0) {
      assert SlotOk(s, y, 0);
    }
  }

  lemma RetainLoans(s: Store, x: SlotID)
    requires LoansOk(s) && x in s.slots
    ensures LoansOk(Retain(s, x))
  {
    var s' := Retain(s, x);
    LendLoans(s, x, s');
    hide LoanOk, QueueLoansOk;
  }

  lemma RetainInv(s: Store, x: SlotID)
    requires Inv(s) && x in s.slots
    ensures Inv(Retain(s, x))
  {
    hide TombsOk, FatesOk, PlacesOk, CountsOk, LoansIn;
    var s' := Retain(s, x);
    RefsNotNegative(s, x);
    LendFrame(s, x, s');
    RetainCounts(s, x);
    RetainLoans(s, x);
  }

  lemma RefsNotNegative(s: Store, x: SlotID)
    requires CountsOk(s) && x in s.slots
    ensures s.slots[x].refs >= s.slots[x].borrowRefs >= 0
    ensures s.slots[x].refs == s.slots[x].borrowRefs + (if s.slots[x].owner then 1 else 0) + s.slots[x].retains
  {
    assert SlotOk(s, x, 0);
    hide Loaned;
  }

  lemma ReleaseDirectShape(s: Store, x: SlotID)
    requires TombsOk(s.tombs, s.current.Keys) && x in s.slots
    ensures var s', low := ReleaseDirect(s, x), LowerDirect(s.slots[x]);
            && s'.slots == s.slots[x := Settle(low)]
            && s'.current == s.current && s'.queues == s.queues && s'.leases == s.leases
            && s'.detached == (if low.refs > 0 then s.detached else s.detached - {x})
            && s'.nextSlot == s.nextSlot && s'.nextLease == s.nextLease
            && TombsOk(s'.tombs, s.current.Keys)
            && s'.fates == FatesAfter(s, s.slots[x], Settle(low))
  {
    hide TombsOk, Fire;
    var low := LowerDirect(s.slots[x]);
    if low.refs <= 0 {
      var s1 := Put(s, x, Settle(low)).(detached := s.detached - {x});
      assert ReleaseDirect(s, x) == Fire(s1, low.name, low.release);
      FireFrame(s1, low.name, low.release);
    }
  }

  lemma ReleaseDirectCounts(s: Store, s': Store, x: SlotID)
    requires CountsOk(s) && x in s.slots && s'.slots == s.slots[x := Settle(LowerDirect(s.slots[x]))]
    requires s'.queues == s.queues && s'.leases == s.leases
    ensures CountsOk(s')
  {
    hide LeasesOn, Occurs, QueueOf;
    assert SlotOk(s, x, 0);
    forall y | y in s'.slots ensures SlotOk(s', y, 0) {
      assert SlotOk(s, y, 0);
    }
  }

  lemma DirectSlot(slot: Slot)
    requires DeadOk(slot) && slot.refs >= Floor(slot) && slot.borrowRefs >= 0
    ensures var low := LowerDirect(slot);
            && DeadOk(Settle(low)) && (Stray(Settle(low)) <==> Stray(slot) && low.refs > 0)
            && Settle(low).name == slot.name && Settle(low).owner == slot.owner && Settle(low).view == slot.view
            && Settle(low).refs == low.refs && Settle(low).release == if low.refs > 0 then slot.release else None
  {
  }

  lemma ReleaseDirectPlaces(s: Store, s': Store, x: SlotID)
    requires CountsOk(s) && PlacesOk(s) && x in s.slots && s'.slots == s.slots[x := Settle(LowerDirect(s.slots[x]))]
    requires s'.current == s.current
    requires s'.detached == if LowerDirect(s.slots[x]).refs > 0 then s.detached else s.detached - {x}
    ensures PlacesOk(s')
  {
    hide CountsOk, PlacesOk, DeadOk, Stray, Settle, LowerDirect;
    RefsNotNegative(s, x);
    DeadAt(s, x);
    DirectSlot(s.slots[x]);
    KeepPlaces(s, s', x);
  }

  lemma ReleaseDirectLast(s: Store, x: SlotID)
    requires CountsOk(s) && x in s.slots && LowerDirect(s.slots[x]).refs <= 0
    ensures Loaned(s, x) == 0
  {
    hide Loaned;
    assert SlotOk(s, x, 0);
  }

  lemma ReleaseDirectInv(s: Store, x: SlotID)
    requires Inv(s) && x in s.slots
    ensures Inv(ReleaseDirect(s, x))
  {
    var s' := ReleaseDirect(s, x);
    hide ReleaseDirect, CountsOk, PlacesOk, LoansOk, FatesOk, TombsOk, FatesAfter, DeadOk, Stray, Settle, LowerDirect;
    RefsNotNegative(s, x);
    DeadAt(s, x);
    DirectSlot(s.slots[x]);
    ReleaseDirectShape(s, x);
    ReleaseDirectCounts(s, s', x);
    ReleaseDirectPlaces(s, s', x);
    if LowerDirect(s.slots[x]).refs <= 0 { ReleaseDirectLast(s, x); }
    KeepLoans(s, s', x);
    KeepFates(s, s', x);
  }

  // ---------- the owner leaves

  /** The slot of a name without its owner: detached if it is still referenced. */
  ghost predicate OwnerLeft(s: Store, s': Store, name: Name)
    requires name in s.current && s.current[name] in s.slots
  {
    var x, low := s.current[name], LowerOwner(s.slots[s.current[name]]);
    && s'.slots == s.slots[x := Settle(low)]
    && s'.current == s.current - {name} && s'.queues == s.queues && s'.leases == s.leases
    && s'.detached == (if low.refs > 0 then s.detached + {x} else s.detached - {x})
    && s'.nextSlot == s.nextSlot && s'.nextLease == s.nextLease
    && s'.fates == FatesAfter(s, s.slots[x], Settle(low))
  }

  lemma UnlinkTombs(s: Store, name: Name)
    requires name in s.current && s.current[name] in s.slots && TombsOk(s.tombs, s.current.Keys)
    ensures TombsOk(Unlink(s, name).tombs, s.current.Keys - {name})
    ensures Unlink(s, name).current.Keys == s.current.Keys - {name}
  {
    MarkInv(s.tombs, s.current.Keys, name, LowerOwner(s.slots[s.current[name]]).view);
    hide TombsOk, Mark;
  }

  lemma FreeShape(s: Store, name: Name)
    requires name in s.current && s.current[name] in s.slots && TombsOk(s.tombs, s.current.Keys)
    ensures OwnerLeft(s, Free(s, name), name) && TombsOk(Free(s, name).tombs, s.current.Keys - {name})
  {
    UnlinkTombs(s, name);
    hide TombsOk, Fire, Mark;
    FireFrame(Unlink(s, name), name, LowerOwner(s.slots[s.current[name]]).release);
  }

  lemma OwnerLeftCounts(s: Store, s': Store, name: Name)
    requires CountsOk(s) && PlacesOk(s) && name in s.current && s.current[name] in s.slots && OwnerLeft(s, s', name)
    ensures CountsOk(s')
  {
    hide LeasesOn, Occurs, QueueOf;
    forall y | y in s'.slots ensures SlotOk(s', y, 0) {
      assert SlotOk(s, y, 0);
    }
  }

  lemma OwnerSlot(slot: Slot)
    requires DeadOk(slot) && slot.owner && slot.refs > slot.borrowRefs >= 0
    ensures var low := LowerOwner(slot);
            && DeadOk(Settle(low)) && (Stray(Settle(low)) <==> low.refs > 0)
            && Settle(low).name == slot.name && !Settle(low).owner && Settle(low).view == slot.view
            && low.refs == slot.refs - 1 && Settle(low).refs == low.refs
            && Settle(low).release == if low.refs > 0 then slot.release else None
  {
  }

  lemma UnnamedCurrent(slots: map<SlotID, Slot>, slots': map<SlotID, Slot>, current: map<Name, SlotID>, name: Name)
    requires CurrentIn(slots, current) && name in current && current[name] in slots'
    requires slots' == slots[current[name] := slots'[current[name]]] && !slots'[current[name]].owner
    ensures CurrentIn(slots', current - {name})
  {
  }

  lemma OwnerLeftPlaces(s: Store, s': Store, name: Name)
    requires CountsOk(s) && PlacesOk(s) && name in s.current && s.current[name] in s.slots && OwnerLeft(s, s', name)
    ensures PlacesOk(s')
  {
    var x := s.current[name];
    CurrentIsLive(s, name);
    RefsNotNegative(s, x);
    DeadAt(s, x);
    OwnerSlot(s.slots[x]);
    hide CountsOk, CurrentIn, DeadOk, Stray, LowerOwner, Settle, FatesAfter;
    UnnamedCurrent(s.slots, s'.slots, s.current, name);
  }

  lemma OwnerLeftInv(s: Store, s': Store, name: Name)
    requires CountsOk(s) && PlacesOk(s) && LoansOk(s) && FatesOk(s) && IdsOk(s)
    requires name in s.current && s.current[name] in s.slots && OwnerLeft(s, s', name)
    ensures CountsOk(s') && PlacesOk(s') && LoansOk(s') && FatesOk(s') && IdsOk(s')
  {
    var x := s.current[name];
    hide CountsOk, PlacesOk, LoansOk, FatesOk, Loaned, FatesAfter, DeadOk, Stray;
    CurrentIsLive(s, name);
    RefsNotNegative(s, x);
    DeadAt(s, x);
    OwnerSlot(s.slots[x]);
    hide Settle, LowerOwner;
    OwnerLeftCounts(s, s', name);
    OwnerLeftPlaces(s, s', name);
    if LowerOwner(s.slots[x]).refs <= 0 { OwnerWasLast(s, x); }
    KeepLoans(s, s', x);
    KeepFates(s, s', x);
  }

  lemma OwnerWasLast(s: Store, x: SlotID)
    requires CountsOk(s) && x in s.slots && s.slots[x].borrowRefs <= 0
    ensures Loaned(s, x) == 0
  {
    assert SlotOk(s, x, 0);
    hide Loaned;
  }

  lemma FreeInv(s: Store, name: Name)
    requires Inv(s) && name in s.current
    ensures s.current[name] in s.slots && Inv(Free(s, name))
  {
    CurrentIsLive(s, name);
    FreeShape(s, name);
    hide CountsOk, PlacesOk, LoansOk, FatesOk, TombsOk, IdsOk, Free;
    OwnerLeftInv(s, Free(s, name), name);
    assert Free(s, name).current.Keys == s.current.Keys - {name};
  }

  // ---------- publishing

  lemma {:induction false} OccursNone(queue: seq<Loan>, x: SlotID)
    requires forall i :: 0 <= i < |queue| ==> queue[i].slot != x
    ensures Occurs(queue, x) == 0
  {
    if queue != [] { OccursNone(queue[..|queue| - 1], x); }
  }

  /** A slot that does not exist yet is on loan to no one. */
  lemma NewIsUnlent(s: Store, name: Name)
    requires LoansOk(s) && IdsOk(s)
    ensures s.nextSlot !in s.slots
    ensures |LeasesOn(s.leases, s.nextSlot)| == 0 && Occurs(QueueOf(s.queues, name), s.nextSlot) == 0
  {
    assert LeasesOn(s.leases, s.nextSlot) == {};
    var queue := QueueOf(s.queues, name);
    forall i | 0 <= i < |queue| ensures queue[i].slot != s.nextSlot {
      assert QueueLoansOk(s.slots, name, queue) && LoanOk(s.slots, queue[i]);
    }
    OccursNone(queue, s.nextSlot);
  }

  lemma AddSlotCounts(s: Store, name: Name, view: View, release: Option<Callback>)
    requires CountsOk(s) && LoansOk(s) && IdsOk(s)
    ensures CountsOk(AddSlot(s, name, view, release))
  {
    NewIsUnlent(s, name);
    hide LeasesOn, Occurs, QueueOf;
    var s' := AddSlot(s, name, view, release);
    forall y | y in s'.slots ensures SlotOk(s', y, 0) {
      if y != s.nextSlot { assert SlotOk(s, y, 0); }
    }
  }

  lemma AddSlotPlaces(s: Store, name: Name, view: View, release: Option<Callback>)
    requires PlacesOk(s) && IdsOk(s) && name !in s.current
    ensures PlacesOk(AddSlot(s, name, view, release)) && IdsOk(AddSlot(s, name, view, release))
  {
  }

  lemma AddSlotLoans(s: Store, name: Name, view: View, release: Option<Callback>)
    requires LoansOk(s) && IdsOk(s)
    ensures LoansOk(AddSlot(s, name, view, release))
  {
    var s' := AddSlot(s, name, view, release);
    forall n | n in s'.queues ensures QueueLoansOk(s'.slots, n, s'.queues[n]) {
      assert QueueLoansOk(s.slots, n, s.queues[n]);
    }
  }

  lemma AddSlotFates(s: Store, name: Name, view: View, release: Option<Callback>)
    requires FatesOk(s) && IdsOk(s) && Fresh(s, release)
    ensures FatesOk(AddSlot(s, name, view, release))
  {
  }

  lemma AddSlotInv(s: Store, name: Name, view: View, release: Option<Callback>)
    requires CountsOk(s) && PlacesOk(s) && LoansOk(s) && FatesOk(s) && IdsOk(s)
    requires TombsOk(s.tombs, s.current.Keys + {name}) && name !in s.current && Fresh(s, release)
    ensures Inv(AddSlot(s, name, view, release))
  {
    AddSlotCounts(s, name, view, release);
    AddSlotPlaces(s, name, view, release);
    AddSlotLoans(s, name, view, release);
    AddSlotFates(s, name, view, release);
    assert AddSlot(s, name, view, release).current.Keys == s.current.Keys + {name};
    hide CountsOk, PlacesOk, LoansOk, FatesOk, TombsOk, IdsOk;
  }

  lemma SoleOwner(s: Store, name: Name)
    requires CountsOk(s) && PlacesOk(s) && name in s.current && s.slots[s.current[name]].refs <= 1
    ensures var x := s.current[name]; Loaned(s, x) == 0 && s.slots[x].retains == 0 && !s.slots[x].dead
  {
    hide Loaned;
    assert SlotOk(s, s.current[name], 0);
  }

  lemma OverwriteShape(s: Store, name: Name, view: View, release: Option<Callback>)
    requires CountsOk(s) && PlacesOk(s) && name in s.current && s.slots[s.current[name]].refs <= 1
    requires TombsOk(s.tombs, s.current.Keys)
    ensures var s', x := Overwrite(s, name, view, release), s.current[name];
            && s'.slots == s.slots[x := Slot(name, view, 1, 0, true, release, 0, false)]
            && s'.current == s.current && s'.queues == s.queues && s'.leases == s.leases && s'.detached == s.detached
            && s'.nextSlot == s.nextSlot && s'.nextLease == s.nextLease
            && TombsOk(s'.tombs, s.current.Keys)
    ensures Overwrite(s, name, view, release).fates == OverwrittenFates(s, s.current[name], release)
  {
    SoleOwner(s, name);
    var x := s.current[name];
    var s1 := Put(s, x, s.slots[x].(view := view, refs := 1, borrowRefs := 0, owner := true, release := release)).(
      fates := if release.Some? then s.fates[release.value.id := Pending(x)] else s.fates);
    hide TombsOk, Fire, Loaned, CountsOk;
    FireFrame(s1, name, s.slots[x].release);
  }

  ghost function OverwrittenFates(s: Store, x: SlotID, release: Option<Callback>): map<nat, Fate>
    requires x in s.slots
  {
    var fates := if release.Some? then s.fates[release.value.id := Pending(x)] else s.fates;
    var pending := s.slots[x].release;
    if pending.None? then fates else fates[pending.value.id := Ran(Times(s.(fates := fates), pending.value.id) + 1)]
  }

  lemma OverwriteFates(s: Store, s': Store, x: SlotID, release: Option<Callback>)
    requires FatesOk(s) && x in s.slots && Fresh(s, release)
    requires x in s'.slots && s'.slots == s.slots[x := s'.slots[x]]
    requires s'.slots[x].release == release && s'.slots[x].refs > 0
    requires s'.fates == OverwrittenFates(s, x, release)
    ensures FatesOk(s')
  {
  }

  lemma OverwriteCounts(s: Store, s': Store, x: SlotID)
    requires CountsOk(s) && x in s.slots && Loaned(s, x) == 0 && x in s'.slots && s'.slots == s.slots[x := s'.slots[x]]
    requires s'.slots[x].refs == 1 && s'.slots[x].borrowRefs == 0 && s'.slots[x].owner && s'.slots[x].retains == 0
    requires s'.slots[x].name == s.slots[x].name && s'.queues == s.queues && s'.leases == s.leases
    ensures CountsOk(s')
  {
    hide LeasesOn, Occurs, QueueOf;
    forall y | y in s'.slots ensures SlotOk(s', y, 0) {
      assert SlotOk(s, y, 0);
    }
  }

  lemma OverwriteLoans(s: Store, s': Store, x: SlotID)
    requires LoansOk(s) && x in s.slots && Loaned(s, x) == 0 && x in s'.slots && s'.slots == s.slots[x := s'.slots[x]]
    requires s'.queues == s.queues && s'.leases == s.leases
    ensures LoansOk(s')
  {
    Unborrowed(s, x);
    hide Loaned;
    forall n | n in s'.queues ensures QueueLoansOk(s'.slots, n, s'.queues[n]) {
      assert QueueLoansOk(s.slots, n, s.queues[n]);
    }
  }

  lemma OverwritePlaces(s: Store, s': Store, x: SlotID)
    requires PlacesOk(s) && IdsOk(s) && x in s.slots && s.slots[x].owner
    requires x in s'.slots && s'.slots == s.slots[x := s'.slots[x]]
    requires s'.slots[x].name == s.slots[x].name && s'.slots[x].owner && DeadOk(s'.slots[x])
    requires s'.current == s.current && s'.detached == s.detached
    requires s'.nextSlot == s.nextSlot && s'.nextLease == s.nextLease && s'.leases == s.leases
    ensures PlacesOk(s') && IdsOk(s')
  {
    DeadAt(s, x);
    hide PlacesOk;
    KeepPlaces(s, s', x);
  }

  lemma OverwriteInv(s: Store, name: Name, view: View, release: Option<Callback>)
    requires Inv(s) && name in s.current && s.slots[s.current[name]].refs <= 1 && Fresh(s, release)
    ensures Inv(Overwrite(s, name, view, release))
  {
    var s', x := Overwrite(s, name, view, release), s.current[name];
    SoleOwner(s, name);
    OverwriteShape(s, name, view, release);
    assert s.slots[x].owner && s.slots[x].name == name;
    hide CountsOk, PlacesOk, LoansOk, FatesOk, TombsOk, IdsOk, Overwrite, OverwrittenFates, Loaned;
    OverwriteCounts(s, s', x);
    OverwritePlaces(s, s', x);
    OverwriteLoans(s, s', x);
    OverwriteFates(s, s', x, release);
  }

  lemma ForgetFirst(s: Store, name: Name)
    requires Inv(s)
    ensures var s0 := s.(tombs := Forget(s.tombs, name));
            CountsOk(s0) && PlacesOk(s0) && LoansOk(s0) && FatesOk(s0) && IdsOk(s0)
              && TombsOk(s0.tombs, s.current.Keys + {name})
  {
    hide Forget, TombsOk, LoansIn, FatesIn, CurrentIn, DetachedIn, DeadIn, CountsOk;
    ForgetInv(s.tombs, s.current.Keys, name);
    SameAllCounts(s, s.(tombs := Forget(s.tombs, name)));
  }

  lemma DetachFirst(s: Store, name: Name)
    requires CountsOk(s) && PlacesOk(s) && LoansOk(s) && FatesOk(s) && IdsOk(s)
    requires name in s.current && s.slots[s.current[name]].refs > 1
    ensures var s' := Detach(s, name);
            && CountsOk(s') && PlacesOk(s') && LoansOk(s') && FatesOk(s') && IdsOk(s')
            && s'.current == s.current - {name} && s'.tombs == s.tombs && s'.fates == s.fates
  {
    assert OwnerLeft(s, Detach(s, name), name);
    hide CountsOk, LoansOk, FatesOk, IdsOk, OwnerLeft;
    OwnerLeftInv(s, Detach(s, name), name);
  }

  lemma PublishNew(s: Store, name: Name, view: View, release: Option<Callback>)
    requires Inv(s) && Fresh(s, release) && name !in s.current
    ensures Inv(Publish(s, name, view, release))
  {
    hide Inv, CountsOk, PlacesOk, LoansOk, FatesOk, TombsOk, IdsOk, Forget, AddSlot;
    ForgetFirst(s, name);
    AddSlotInv(s.(tombs := Forget(s.tombs, name)), name, view, release);
  }

  lemma PublishShared(s: Store, name: Name, view: View, release: Option<Callback>)
    requires Inv(s) && Fresh(s, release) && name in s.current
    requires s.current[name] in s.slots && s.slots[s.current[name]].refs > 1
    ensures Inv(Publish(s, name, view, release))
  {
    hide Inv, CountsOk, PlacesOk, LoansOk, FatesOk, TombsOk, IdsOk, Forget, AddSlot, Detach;
    ForgetFirst(s, name);
    var s0 := s.(tombs := Forget(s.tombs, name));
    DetachFirst(s0, name);
    assert (s.current - {name}).Keys + {name} == s.current.Keys == s.current.Keys + {name};
    AddSlotInv(Detach(s0, name), name, view, release);
  }

  lemma PublishSole(s: Store, name: Name, view: View, release: Option<Callback>)
    requires Inv(s) && Fresh(s, release) && name in s.current
    requires s.current[name] in s.slots && s.slots[s.current[name]].refs <= 1
    ensures Inv(Publish(s, name, view, release))
  {
    hide CountsOk, PlacesOk, LoansOk, FatesOk, TombsOk, IdsOk, Forget, Overwrite;
    ForgetFirst(s, name);
    assert s.current.Keys == s.current.Keys + {name};
    OverwriteInv(s.(tombs := Forget(s.tombs, name)), name, view, release);
  }

  lemma CurrentExists(s: Store, name: Name)
    requires Inv(s)
    ensures name in s.current ==> s.current[name] in s.slots
  {
  }

  lemma PublishInv(s: Store, name: Name, view: View, release: Option<Callback>)
    requires Inv(s) && Fresh(s, release)
    ensures (name in s.current ==> s.current[name] in s.slots) && Inv(Publish(s, name, view, release))
  {
    hide Inv, Publish;
    CurrentExists(s, name);
    if name !in s.current {
      PublishNew(s, name, view, release);
    } else if s.slots[s.current[name]].refs > 1 {
      PublishShared(s, name, view, release);
    } else {
      PublishSole(s, name, view, release);
    }
  }

  lemma CountersInv(s: Store, s': Store)
    requires Inv(s) && s' == s.(counters := s'.counters)
    ensures Inv(s')
  {
    hide TombsOk, LoansIn, FatesIn, CurrentIn, DetachedIn, DeadIn, CountsOk;
    SameAllCounts(s, s');
  }

  lemma RejectFates(s: Store, release: Option<Callback>)
    requires FatesOk(s) && Fresh(s, release)
    ensures FatesOk(Reject(s, release))
  {
  }

  lemma RejectInv(s: Store, release: Option<Callback>)
    requires Inv(s) && Fresh(s, release)
    ensures Inv(Reject(s, release))
  {
    hide TombsOk, LoansIn, FatesOk, CurrentIn, DetachedIn, DeadIn, CountsOk, Fresh;
    RejectFates(s, release);
    SameAllCounts(s, Reject(s, release));
  }
}
