/** The borrow totals of the diagnostics, computed over the buffer objects. */
module StoreStats {
  import opened Options
  import opened SharedStore
  import opened StoreInv
  import opened StoreSpec
  import opened StoreSums

  lemma BorrowsOfOne(slots: map<SlotID, Slot>, done: set<SlotID>, x: SlotID)
    requires x !in done && x in slots
    ensures Borrows(slots, done + {x}) == Borrows(slots, done) + slots[x].borrowRefs
  {
    BorrowsWithout(slots, done + {x}, x);
    assert done + {x} - {x} == done;
  }

  lemma BorrowsOfNone(slots: map<SlotID, Slot>)
    ensures Borrows(slots, {}) == 0
  {
  }

  lemma OneMoreName(s: Store, names: set<Name>, n: Name)
    requires PlacesOk(s) && n in s.current && n !in names
    ensures CurrentSlots(s, names + {n}) == CurrentSlots(s, names) + {s.current[n]}
    ensures s.current[n] !in CurrentSlots(s, names)
  {
    var more := CurrentSlots(s, names + {n});
    assert forall m :: m in names && m in s.current ==> s.current[m] in more;
    assert s.current[n] in more;
  }

  lemma BorrowsOfName(store: SharedStore, n: Name)
    requires store.Valid() && Inv(store.model) && n in store.buffers
    ensures n in store.model.current && store.model.current[n] in store.model.slots
    ensures store.buffers[n].borrowRefs == store.model.slots[store.model.current[n]].borrowRefs >= 0
    ensures PlacesOk(store.model)
  {
    store.NamedIsKnown(n);
    assert SlotOk(store.model, store.model.current[n], 0);
    hide Loaned;
  }

  lemma BorrowsOfDetached(store: SharedStore, b: Buffer)
    requires store.Valid() && Inv(store.model) && b in store.detached
    ensures b.id in store.model.detached && b.id in store.model.slots && store.Known(b)
    ensures b.borrowRefs == store.model.slots[b.id].borrowRefs && b.refs > 0
  {
    store.KnownSnap(b);
  }

  lemma NoNames(s: Store)
    ensures CurrentSlots(s, {}) == {}
  {
  }

  /** Sums the borrows of the current buffers. */
  method CurrentBorrows(store: SharedStore) returns (total: int)
    requires store.Valid() && Inv(store.model)
    ensures total == Borrows(store.model.slots, CurrentSlots(store.model, store.model.current.Keys))
  {
    hide Borrows, CurrentSlots, Inv, PlacesOk;
    total := 0;
    var rest := store.buffers.Keys;
    var all := rest;
    BorrowsOfNone(store.model.slots);
    NoNames(store.model);
    assert all - rest == {};
    while rest != {}
      invariant rest <= all == store.buffers.Keys
      invariant total == Borrows(store.model.slots, CurrentSlots(store.model, all - rest))
      decreases rest
    {
      var n :| n in rest;
      var buf := store.buffers[n];
      BorrowsOfName(store, n);
      OneMoreName(store.model, all - rest, n);
      BorrowsOfOne(store.model.slots, CurrentSlots(store.model, all - rest), store.model.current[n]);
      assert all - (rest - {n}) == (all - rest) + {n};
      if buf.borrowRefs > 0 {
        total := total + buf.borrowRefs;
      }
      rest := rest - {n};
    }
    assert all - rest == all == store.model.current.Keys;
  }

  ghost function Ids(buffers: set<Buffer>): set<SlotID> {
    set b | b in buffers :: b.id
  }

  ghost function Chosen(buffers: set<Buffer>, only: Option<Name>): set<Buffer> {
    set b | b in buffers && Selected(b.name, only)
  }

  lemma OneMoreBuffer(store: SharedStore, done: set<Buffer>, b: Buffer)
    requires store.DetachedOk(store.model.detached) && done <= store.detached && b in store.detached && b !in done
    ensures Ids(done + {b}) == Ids(done) + {b.id} && b.id !in Ids(done)
  {
    assert forall c :: c in done ==> c.id in Ids(done + {b});
    assert b.id in Ids(done + {b});
  }

  /** Choosing among one more buffer. */
  lemma OneMoreChosen(buffers: set<Buffer>, b: Buffer, only: Option<Name>)
    requires b !in buffers
    ensures Chosen(buffers + {b}, only) == Chosen(buffers, only) + if Selected(b.name, only) then {b} else {}
    ensures b !in Chosen(buffers, only) && Chosen(buffers, only) <= buffers
  {
  }

  lemma NoBuffers(only: Option<Name>)
    ensures Ids(Chosen({}, only)) == {}
  {
  }

  /** Sums the borrows of those detached buffers that are selected. */
  method DetachedBorrows(store: SharedStore, only: Option<Name>) returns (total: int)
    requires store.Valid() && Inv(store.model)
    ensures total == Borrows(store.model.slots, DetachedSlots(store.model, only))
  {
    hide Borrows, Ids, Chosen, Inv, DetachedSlots;
    total := 0;
    var rest := store.detached;
    var all := rest;
    BorrowsOfNone(store.model.slots);
    NoBuffers(only);
    assert all - rest == {};
    while rest != {}
      invariant rest <= all == store.detached
      invariant total == Borrows(store.model.slots, Ids(Chosen(all - rest, only)))
      decreases rest
    {
      var b :| b in rest;
      BorrowsOfDetached(store, b);
      OneMoreChosen(all - rest, b, only);
      assert all - (rest - {b}) == (all - rest) + {b};
      if b.refs > 0 && Selected(b.name, only) {
        OneMoreBuffer(store, Chosen(all - rest, only), b);
        BorrowsOfOne(store.model.slots, Ids(Chosen(all - rest, only)), b.id);
        total := total + b.borrowRefs;
      } else {
        assert Chosen(all - rest, only) + {} == Chosen(all - rest, only);
      }
      rest := rest - {b};
    }
    assert all - rest == store.detached;
    SelectedIds(store, only);
  }

  lemma SelectedIds(store: SharedStore, only: Option<Name>)
    requires store.Valid()
    ensures Ids(Chosen(store.detached, only)) == DetachedSlots(store.model, only)
  {
    var chosen := Chosen(store.detached, only);
    forall x | x in DetachedSlots(store.model, only) ensures x in Ids(chosen) {
      assert store.objects[x] in chosen;
    }
  }

  /** The active borrows over all names. */
  method ActiveBorrows(store: SharedStore) returns (total: int)
    requires store.Valid() && Inv(store.model)
    ensures total == StatsBorrows(store.model)
  {
    hide Borrows, CurrentSlots, DetachedSlots;
    var current := CurrentBorrows(store);
    var others := DetachedBorrows(store, None);
    Apart(store.model, store.model.current.Keys, None);
    BorrowsUnion(store.model.slots, CurrentSlots(store.model, store.model.current.Keys),
      DetachedSlots(store.model, None));
    total := current + others;
  }

  /** The active borrows of one name. */
  method ActiveBorrowsOf(store: SharedStore, name: Name) returns (total: int)
    requires store.Valid() && Inv(store.model)
    ensures total == StatusBorrows(store.model, name)
  {
    hide Borrows, CurrentSlots, DetachedSlots;
    total := 0;
    OnlyName(store, name);
    if name in store.buffers {
      if store.buffers[name].borrowRefs > 0 {
        total := store.buffers[name].borrowRefs;
      }
    }
    var others := DetachedBorrows(store, Some(name));
    Apart(store.model, {name}, Some(name));
    BorrowsUnion(store.model.slots, CurrentSlots(store.model, {name}), DetachedSlots(store.model, Some(name)));
    total := total + others;
  }

  lemma OnlyName(store: SharedStore, name: Name)
    requires store.Valid() && Inv(store.model)
    ensures Borrows(store.model.slots, CurrentSlots(store.model, {name}))
         == if name in store.buffers then store.buffers[name].borrowRefs else 0
    ensures name in store.buffers ==> store.buffers[name].borrowRefs >= 0
  {
    BorrowsOfNone(store.model.slots);
    NoNames(store.model);
    hide Borrows;
    if name in store.buffers {
      BorrowsOfName(store, name);
      OneMoreName(store.model, {}, name);
      assert {} + {name} == {name};
      BorrowsOfOne(store.model.slots, {}, store.model.current[name]);
    } else {
      store.NameKnown(name);
      assert CurrentSlots(store.model, {name}) == {};
    }
  }
}
