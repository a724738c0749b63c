/** The borrow totals that the store reports, per name and over all names. */
module StoreSums {
  import opened Ascending
  import opened Options
  import opened Sequences
  import opened StoreInv
  import opened StoreRuns
  import opened StoreSpec

  /** The sum of the outstanding borrows of a set of slots. */
  ghost function Borrows(slots: map<SlotID, Slot>, xs: set<SlotID>): int {
    if xs == {} then 0 else
    var x := Least(xs);
    Borrows(slots, xs - {x}) + if x in slots then slots[x].borrowRefs else 0
  }

  lemma {:induction false} BorrowsWithout(slots: map<SlotID, Slot>, xs: set<SlotID>, y: SlotID)
    requires y in xs && y in slots
    ensures Borrows(slots, xs) == Borrows(slots, xs - {y}) + slots[y].borrowRefs
  {
    var x := Least(xs);
    if x != y {
      BorrowsWithout(slots, xs - {x}, y);
      BorrowsLeast(slots, xs, x, y);
    }
  }

  lemma BorrowsLeast(slots: map<SlotID, Slot>, xs: set<SlotID>, x: SlotID, y: SlotID)
    requires x in xs && y in xs && x != y && x == Least(xs)
    ensures Borrows(slots, xs - {y}) == Borrows(slots, xs - {y} - {x}) + if x in slots then slots[x].borrowRefs else 0
    ensures xs - {x} - {y} == xs - {y} - {x}
  {
    assert x in xs - {y};
    assert Least(xs - {y}) == x;
  }

  /** Disjoint sets of slots add up. */
  lemma {:induction false} BorrowsUnion(slots: map<SlotID, Slot>, a: set<SlotID>, b: set<SlotID>)
    requires a !! b && b <= slots.Keys
    ensures Borrows(slots, a + b) == Borrows(slots, a) + Borrows(slots, b)
    decreases |b|
  {
    if b == {} {
      assert a + b == a;
    } else {
      var y := Least(b);
      BorrowsUnion(slots, a, b - {y});
      BorrowsWithout(slots, a + b, y);
      assert (a + b) - {y} == a + (b - {y});
    }
  }

  ghost function CurrentSlots(s: Store, names: set<Name>): set<SlotID> {
    set n | n in names && n in s.current :: s.current[n]
  }

  predicate Selected(name: Name, only: Option<Name>) {
    only == None || only == Some(name)
  }

  ghost function DetachedSlots(s: Store, only: Option<Name>): set<SlotID> {
    set x | x in s.detached && x in s.slots && Selected(s.slots[x].name, only)
  }

  lemma Apart(s: Store, names: set<Name>, only: Option<Name>)
    requires PlacesOk(s)
    ensures CurrentSlots(s, names) !! DetachedSlots(s, only) && DetachedSlots(s, only) <= s.slots.Keys
  {
  }

  /** The slots that the diagnostics of one name look at: its current one, and the detached ones of that name. */
  ghost function SlotsOf(s: Store, name: Name): set<SlotID> {
    CurrentSlots(s, {name}) + DetachedSlots(s, Some(name))
  }

  /** The active borrows that Status reports for a name. */
  ghost function StatusBorrows(s: Store, name: Name): int {
    Borrows(s.slots, SlotsOf(s, name))
  }

  /** The active borrows that Stats reports. */
  ghost function StatsBorrows(s: Store): int {
    Borrows(s.slots, CurrentSlots(s, s.current.Keys) + DetachedSlots(s, None))
  }

  ghost function SumStatus(s: Store, names: seq<Name>): int
  {
    if names == [] then 0 else SumStatus(s, names[..|names| - 1]) + StatusBorrows(s, names[|names| - 1])
  }

  ghost function SlotsOfAll(s: Store, names: seq<Name>): set<SlotID>
  {
    if names == [] then {} else SlotsOfAll(s, names[..|names| - 1]) + SlotsOf(s, names[|names| - 1])
  }

  lemma {:induction false} SlotsOfAllNamed(s: Store, names: seq<Name>)
    requires PlacesOk(s)
    ensures forall x :: x in SlotsOfAll(s, names) <==>
              x in s.slots && s.slots[x].name in names && (x in s.detached || s.slots[x].owner)
  {
    if names != [] {
      var front, last := names[..|names| - 1], names[|names| - 1];
      assert names == front + [last];
      SlotsOfAllNamed(s, front);
      assert forall x :: x in SlotsOf(s, last) <==>
                           x in s.slots && s.slots[x].name == last && (x in s.detached || s.slots[x].owner);
    }
  }

  lemma NamesApart(s: Store, front: seq<Name>, last: Name)
    requires PlacesOk(s) && last !in front
    ensures SlotsOfAll(s, front) !! SlotsOf(s, last) && SlotsOf(s, last) <= s.slots.Keys
  {
    SlotsOfAllNamed(s, front);
  }

  lemma {:induction false} SumIsUnion(s: Store, names: seq<Name>)
    requires PlacesOk(s) && Distinct(names)
    ensures SumStatus(s, names) == Borrows(s.slots, SlotsOfAll(s, names))
  {
    if names != [] {
      hide Borrows, SlotsOf;
      var front, last := names[..|names| - 1], names[|names| - 1];
      SumIsUnion(s, front);
      NamesApart(s, front, last);
      BorrowsUnion(s.slots, SlotsOfAll(s, front), SlotsOf(s, last));
    }
  }

  /** Every name under which a referenced buffer exists is listed. */
  ghost predicate Covers(s: Store, names: seq<Name>) {
    Distinct(names) && forall x :: x in s.slots && s.slots[x].refs > 0 ==> s.slots[x].name in names
  }

  /**
   In every reachable store the borrows reported name by name add up to the borrows reported overall: no
   buffer is counted twice or missed.
   */
  lemma StatusesAddUp(ops: seq<Op>, names: seq<Name>)
    requires Covers(Reached(ops), names)
    ensures var s := Reached(ops);
            SumStatus(s, names) == StatsBorrows(s)
  {
    var s := Reached(ops);
    hide Reached;
    SumIsUnion(s, names);
    SlotsOfAllNamed(s, names);
    forall x | x in s.slots && (x in s.detached || s.slots[x].owner) ensures s.slots[x].refs > 0 {
      assert SlotOk(s, x, 0);
    }
    AllSlots(s, names);
  }

  lemma AllSlots(s: Store, names: seq<Name>)
    requires PlacesOk(s) && Covers(s, names)
    requires forall x :: x in s.slots && (x in s.detached || s.slots[x].owner) ==> s.slots[x].refs > 0
    ensures SlotsOfAll(s, names) == CurrentSlots(s, s.current.Keys) + DetachedSlots(s, None)
  {
    SlotsOfAllNamed(s, names);
  }
}
