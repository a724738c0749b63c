/** The borrow totals of the diagnostics count the loans that are out. */
module StoreTotals {
  import opened Sequences
  import opened SharedStore
  import opened StoreInv
  import opened StoreRuns
  import opened StoreSpec
  import opened StoreSums

  ghost function LeasesAmong(leases: map<nat, Loan>, xs: set<SlotID>): set<nat> {
    set l | l in leases && leases[l].slot in xs
  }

  ghost function EntriesAmong(queue: seq<Loan>, xs: set<SlotID>): nat {
    if queue == [] then 0 else
    EntriesAmong(queue[..|queue| - 1], xs) + if queue[|queue| - 1].slot in xs then 1 else 0
  }

  lemma LeasesSplit(leases: map<nat, Loan>, xs: set<SlotID>, y: SlotID)
    requires y in xs
    ensures |LeasesAmong(leases, xs)| == |LeasesAmong(leases, xs - {y})| + |LeasesOn(leases, y)|
  {
    var a, b := LeasesAmong(leases, xs - {y}), LeasesOn(leases, y);
    assert LeasesAmong(leases, xs) == a + b && a !! b;
  }

  lemma {:induction false} EntriesSplit(queue: seq<Loan>, xs: set<SlotID>, y: SlotID)
    requires y in xs
    ensures EntriesAmong(queue, xs) == EntriesAmong(queue, xs - {y}) + Occurs(queue, y)
  {
    if queue != [] { EntriesSplit(queue[..|queue| - 1], xs, y); }
  }

  lemma {:induction false} NoEntries(queue: seq<Loan>)
    ensures EntriesAmong(queue, {}) == 0
  {
    if queue != [] { NoEntries(queue[..|queue| - 1]); }
  }

  /** The borrows of some buffers of a name are the leases on them, and their entries in the queue of the name. */
  lemma {:induction false} BorrowsByLoans(s: Store, xs: set<SlotID>, n: Name)
    requires CountsOk(s) && forall x :: x in xs ==> x in s.slots && s.slots[x].name == n
    ensures Borrows(s.slots, xs) == |LeasesAmong(s.leases, xs)| + EntriesAmong(QueueOf(s.queues, n), xs)
    decreases |xs|
  {
    if xs == {} {
      assert LeasesAmong(s.leases, {}) == {};
      NoEntries(QueueOf(s.queues, n));
    } else {
      var y :| y in xs;
      BorrowsByLoans(s, xs - {y}, n);
      BorrowsWithout(s.slots, xs, y);
      LeasesSplit(s.leases, xs, y);
      EntriesSplit(QueueOf(s.queues, n), xs, y);
      assert SlotOk(s, y, 0);
      hide Borrows, LeasesAmong, LeasesOn, EntriesAmong, Occurs;
    }
  }

  lemma {:induction false} AllEntries(queue: seq<Loan>, xs: set<SlotID>)
    requires forall i :: 0 <= i < |queue| ==> queue[i].slot in xs
    ensures EntriesAmong(queue, xs) == |queue|
  {
    if queue != [] { AllEntries(queue[..|queue| - 1], xs); }
  }

  /** A buffer that is lent is one that the diagnostics of its name look at. */
  lemma LentIsLooked(s: Store, x: SlotID)
    requires Inv(s) && x in s.slots && Loaned(s, x) > 0
    ensures x in SlotsOf(s, s.slots[x].name)
  {
    assert SlotOk(s, x, 0);
    assert DeadOk(s.slots[x]);
    hide Loaned, LoansOk, FatesOk, TombsOk;
  }

  lemma LeaseIsLooked(s: Store, l: nat)
    requires Inv(s) && l in s.leases
    ensures s.leases[l].slot in SlotsOf(s, s.leases[l].name)
  {
    var x := s.leases[l].slot;
    assert LoanOk(s.slots, s.leases[l]);
    assert l in LeasesOn(s.leases, x);
    LentIsLooked(s, x);
    hide SlotsOf;
  }

  lemma EntryIsLooked(s: Store, n: Name, i: nat)
    requires Inv(s) && i < |QueueOf(s.queues, n)|
    ensures QueueOf(s.queues, n)[i].slot in SlotsOf(s, n)
  {
    QueuedIsLive(s, n, i);
    var queue := QueueOf(s.queues, n);
    assert QueueLoansOk(s.slots, n, queue);
    OccursAt(queue, queue[i].slot, i);
    LentIsLooked(s, queue[i].slot);
    hide SlotsOf, Occurs;
  }

  /** What is out under a name: leases, and entries of its queue. */
  ghost function LeasesOf(s: Store, n: Name): set<nat> {
    set l | l in s.leases && s.leases[l].name == n
  }

  lemma SlotsHaveName(s: Store, n: Name)
    requires Inv(s)
    ensures forall x :: x in SlotsOf(s, n) ==> x in s.slots && s.slots[x].name == n
  {
  }

  /**
   In every store, the active borrows that Status reports for a name are the leases and named borrows of the name
   that have not been returned.
   */
  lemma StatusCountsLoans(s: Store, n: Name)
    requires Inv(s)
    ensures StatusBorrows(s, n) == |LeasesOf(s, n)| + |QueueOf(s.queues, n)|
  {
    var xs := SlotsOf(s, n);
    SlotsHaveName(s, n);
    LeasesMatch(s, n);
    forall i | 0 <= i < |QueueOf(s.queues, n)| ensures QueueOf(s.queues, n)[i].slot in xs { EntryIsLooked(s, n, i); }
    hide SlotsOf, Inv, LeasesAmong, LeasesOf, QueueOf;
    AllEntries(QueueOf(s.queues, n), xs);
    InvCounts(s);
    BorrowsByLoans(s, xs, n);
  }

  lemma InvCounts(s: Store)
    requires Inv(s)
    ensures CountsOk(s)
  {
  }

  lemma LeasesMatch(s: Store, n: Name)
    requires Inv(s)
    ensures LeasesAmong(s.leases, SlotsOf(s, n)) == LeasesOf(s, n)
  {
    SlotsHaveName(s, n);
    forall l | l in s.leases ensures s.leases[l].slot in SlotsOf(s, n) <==> s.leases[l].name == n {
      LeaseIsLooked(s, l);
      LeaseNamed(s, l);
    }
    hide SlotsOf, Inv;
  }

  lemma LeaseNamed(s: Store, l: nat)
    requires Inv(s) && l in s.leases
    ensures s.leases[l].slot in s.slots && s.slots[s.leases[l].slot].name == s.leases[l].name
  {
  }

  // ---------- over all names

  ghost function LeasesOfAll(s: Store, names: seq<Name>): set<nat> {
    set l | l in s.leases && s.leases[l].name in names
  }

  ghost function QueuedOfAll(s: Store, names: seq<Name>): nat {
    if names == [] then 0 else
    QueuedOfAll(s, names[..|names| - 1]) + |QueueOf(s.queues, names[|names| - 1])|
  }

  lemma {:induction false} SumCountsLoans(s: Store, names: seq<Name>)
    requires Inv(s) && Distinct(names)
    ensures SumStatus(s, names) == |LeasesOfAll(s, names)| + QueuedOfAll(s, names)
  {
    if names == [] {
      assert LeasesOfAll(s, []) == {};
    } else {
      hide Inv, StatusBorrows, QueueOf;
      var front, last := names[..|names| - 1], names[|names| - 1];
      assert names == front + [last] && last !in front;
      SumCountsLoans(s, front);
      StatusCountsLoans(s, last);
      assert LeasesOfAll(s, names) == LeasesOfAll(s, front) + LeasesOf(s, last);
    }
  }

  /** In every reachable store, the total that Stats reports is the number of all loans that are out. */
  lemma StatsCountLoans(ops: seq<Op>, names: seq<Name>)
    requires Covers(Reached(ops), names)
    ensures StatsBorrows(Reached(ops)) == |Reached(ops).leases| + QueuedOfAll(Reached(ops), names)
  {
    var s := Reached(ops);
    StatusesAddUp(ops, names);
    SumCountsLoans(s, names);
    forall l | l in s.leases ensures s.leases[l].name in names { LentName(s, l, names); }
    assert LeasesOfAll(s, names) == s.leases.Keys;
    hide Inv, Reached, Covers;
  }

  lemma LentName(s: Store, l: nat, names: seq<Name>)
    requires Inv(s) && l in s.leases && Covers(s, names)
    ensures s.leases[l].name in names
  {
    LentIsLive(s, l);
  }

  // ---------- names without a buffer

  /** A name that was freed is reported as released; one that was published again, or never freed, is not. */
  lemma MissingSays(s: Store, name: Name)
    requires Inv(s)
    ensures name in s.current && name.text != "" ==> Missing(Apply(s, Op.Free(name)).tombs, name) == WasReleased
    ensures name in s.current ==> Missing(s.tombs, name) == NotFound
    ensures Missing(EMPTY.tombs, name) == NotFound
  {
    if name in s.current && name.text != "" { FreedNameIsRemembered(s, name); }
    hide Apply;
  }
}
