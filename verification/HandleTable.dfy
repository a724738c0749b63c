/** The handle table in place: entries are objects that the table's methods update. */
module HandleTable {
  import opened Ascending
  import opened HandleSpec
  import opened Options
  import opened SpillQueues

  const FINALIZER_QUEUE_CAPACITY := 4096
  const FINALIZER_SPILL_HANDLE_LIMIT := 4096

  class Entry {
    const id: ID
    const scope: nat
    const release: ReleaseFunc
    var refs: int
    var finalizers: nat
    var escaped: bool
    var references: map<ID, string>

    constructor (id: ID, scope: nat, release: ReleaseFunc)
      ensures this.id == id && Snap() == Handle(scope, release, 1, 0, false, map[])
    {
      this.id, this.scope, this.release := id, scope, release;
      refs, finalizers, escaped, references := 1, 0, false, map[];
    }

    ghost function Snap(): Handle
      reads this
    {
      Handle(scope, release, refs, finalizers, escaped, references)
    }
  }

  /**
   The table. `model` is its abstract value; Consistent(model) is kept by every operation on the value
   (ApplyInv), so it holds over every run that starts with a new table.
   */
  class HandleTable {
    var nextID: ID
    var entries: map<ID, Entry>
    var released: int
    var releaseErrors: int
    var finalizerReleases: int
    var scopeReleases: int
    var explicitReleases: int
    ghost var log: seq<ID>
    ghost var model: Table

    const finalizers: SpillQueue<ID>
    var finalizerQueued: int
    var finalizerDrains: int
    var finalizerDrops: int

    constructor ()
      ensures Valid() && model == EMPTY
      ensures QueueValid() && fresh(finalizers) && finalizers.View() == Queue([], map[], [], 0)
    {
      nextID, entries := 1, map[];
      finalizers := new SpillQueue(FINALIZER_QUEUE_CAPACITY, FINALIZER_SPILL_HANDLE_LIMIT);
      released, releaseErrors, finalizerReleases, scopeReleases, explicitReleases := 0, 0, 0, 0, 0;
      finalizerQueued, finalizerDrains, finalizerDrops := 0, 0, 0;
      log, model := [], EMPTY;
    }

    /** The fields of the table are those of the model, and every entry object holds what the model says. */
    ghost predicate Valid()
      reads `nextID, `entries, `released, `releaseErrors, `finalizerReleases, `scopeReleases, `explicitReleases
      reads `log, `model, entries.Values
    {
      nextID == model.nextID && CountersMatch(model) && EntriesMatch(model.entries)
    }

    ghost predicate CountersMatch(t: Table)
      reads `released, `releaseErrors, `finalizerReleases, `scopeReleases, `explicitReleases, `log
    {
      && log == t.log && released == t.released && releaseErrors == t.releaseErrors
      && finalizerReleases == t.finalizerReleases && scopeReleases == t.scopeReleases
      && explicitReleases == t.explicitReleases
    }

    ghost predicate EntriesMatch(handles: map<ID, Handle>)
      reads `entries, entries.Values
    {
      && entries.Keys == handles.Keys
      && forall id :: id in entries ==> entries[id].id == id && entries[id].Snap() == handles[id]
    }

    lemma EntryKnown(id: ID)
      requires Valid()
      ensures id in entries <==> id in model.entries
      ensures id in entries ==>
                entries[id].id == id && entries[id].Snap() == model.entries[id] && entries[id] in entries.Values
    {
    }

    /** Only the entry of `id` has changed. */
    twostate lemma OneChanged(new id: ID, new handles: map<ID, Handle>)
      requires old(EntriesMatch(handles)) && entries == old(entries) && id in entries
      requires forall e :: e in entries.Values && e != entries[id] ==> e.Snap() == old(e.Snap())
      ensures EntriesMatch(handles[id := entries[id].Snap()])
    {
    }

    /** The finalizer queue has its declared bounds, and the counters account for what it holds. */
    ghost predicate QueueValid()
      reads `finalizerQueued, `finalizerDrains, finalizers
    {
      && finalizers.Valid()
      && finalizers.capacity == FINALIZER_QUEUE_CAPACITY && finalizers.keyLimit == FINALIZER_SPILL_HANDLE_LIMIT
      && finalizerQueued - finalizerDrains == |Contents(finalizers.View())|
    }

    method Register(runtime: string, kind: string, scope: nat, release: ReleaseFunc)
      returns (id: ID, err: Option<Error>)
      requires Valid()
      modifies `nextID, `entries, `model
      ensures Valid()
      ensures runtime == "" ==> err == Some(RuntimeRequired)
      ensures runtime != "" && kind == "" ==> err == Some(KindRequired)
      ensures runtime != "" && kind != "" ==> err == None && id == old(nextID)
      ensures model == if err == None then Registered(old(model), scope, release) else old(model)
    {
      if runtime == "" {
        return 0, Some(RuntimeRequired);
      }
      if kind == "" {
        return 0, Some(KindRequired);
      }
      id := nextID;
      nextID := nextID + 1;
      var entry := new Entry(id, scope, release);
      entries := entries[id := entry];
      model := Registered(model, scope, release);
      err := None;
    }

    method Retain(id: ID) returns (err: Option<Error>)
      requires Valid()
      modifies `model, entries.Values
      ensures Valid()
      ensures model == Retained(old(model), id) && err == (if id in entries then None else Some(UnknownHandle(id)))
      ensures id in entries ==> entries[id].refs == old(entries[id].refs) + 1
    {
      hide EntriesMatch;
      EntryKnown(id);
      if id !in entries {
        return Some(UnknownHandle(id));
      }
      entries[id].refs := entries[id].refs + 1;
      OneChanged(id, model.entries);
      model := Retained(model, id);
      return None;
    }

    method Escape(id: ID) returns (err: Option<Error>)
      requires Valid()
      modifies `model, entries.Values
      ensures Valid()
      ensures model == Escaped(old(model), id) && err == (if id in entries then None else Some(UnknownHandle(id)))
      ensures id in entries ==> entries[id].escaped
    {
      hide EntriesMatch;
      EntryKnown(id);
      if id !in entries {
        return Some(UnknownHandle(id));
      }
      entries[id].escaped := true;
      OneChanged(id, model.entries);
      model := Escaped(model, id);
      return None;
    }

    method RecordReference(from: ID, to: ID, kind: string) returns (err: Option<Error>)
      requires Valid()
      modifies `model, entries.Values
      ensures Valid() && model == Referenced(old(model), from, to, kind)
      ensures err == if from !in entries then Some(UnknownHandle(from))
                     else if to !in entries then Some(UnknownHandle(to)) else None
      ensures err == None ==>
                var edge := if kind == "" then "reference" else kind;
                entries[from].references == old(entries[from].references)[to := edge]
    {
      hide EntriesMatch;
      EntryKnown(from);
      EntryKnown(to);
      var edge := if kind == "" then "reference" else kind;
      if from !in entries {
        return Some(UnknownHandle(from));
      }
      if to !in entries {
        return Some(UnknownHandle(to));
      }
      entries[from].references := entries[from].references[to := edge];
      OneChanged(from, model.entries);
      model := Referenced(model, from, to, kind);
      return None;
    }

    method DropReference(from: ID, to: ID)
      requires Valid()
      modifies `model, entries.Values
      ensures Valid() && model == Unreferenced(old(model), from, to)
      ensures from in entries ==> entries[from].references == old(entries[from].references) - {to}
    {
      hide EntriesMatch;
      EntryKnown(from);
      if from in entries {
        entries[from].references := entries[from].references - {to};
        OneChanged(from, model.entries);
        model := Unreferenced(model, from, to);
      }
    }

    /** Removes every edge into `id`. */
    method DropReferences(id: ID)
      requires forall k :: k in entries ==> entries[k].id == k
      modifies entries.Values
      ensures forall k :: k in entries ==>
                entries[k].Snap() == old(entries[k].Snap()).(references := old(entries[k].references) - {id})
    {
      var todo := entries.Keys;
      while todo != {}
        invariant todo <= entries.Keys
        invariant forall k :: k in todo ==> entries[k].Snap() == old(entries[k].Snap())
        invariant forall k :: k in entries && k !in todo ==>
                    entries[k].Snap() == old(entries[k].Snap()).(references := old(entries[k].references) - {id})
        decreases todo
      {
        var k :| k in todo;
        var entry := entries[k];
        entry.references := entry.references - {id};
        todo := todo - {k};
      }
    }

    method RecordRelease(cause: Cause)
      modifies `released, `finalizerReleases, `scopeReleases, `explicitReleases
      ensures released == old(released) + 1
      ensures explicitReleases == old(explicitReleases) + if cause.Explicit? then 1 else 0
      ensures finalizerReleases == old(finalizerReleases) + if cause.Finalizer? then 1 else 0
      ensures scopeReleases == old(scopeReleases) + if cause.Scope? then 1 else 0
    {
      released := released + 1;
      match cause
      case Finalizer => finalizerReleases := finalizerReleases + 1;
      case Scope => scopeReleases := scopeReleases + 1;
      case Explicit => explicitReleases := explicitReleases + 1;
    }

    /** Invokes the release callback of an entry that has left the table. `log` records every invocation. */
    method CallRelease(entry: Entry, cause: Cause) returns (err: Option<Error>)
      modifies `releaseErrors, `log
      ensures log == old(log) + if entry.release.Calls? then [entry.id] else []
      ensures releaseErrors == old(releaseErrors) + if entry.release == Calls(true) then 1 else 0
      ensures err == if entry.release == Calls(true) then Some(ReleaseFailed(entry.id, cause)) else None
    {
      if entry.release.NoRelease? {
        return None;
      }
      err := Invoke(entry, cause);
      if err.Some? {
        releaseErrors := releaseErrors + 1;
      }
    }

    /** The callback itself: it returns nil or an error. */
    method Invoke(entry: Entry, cause: Cause) returns (err: Option<Error>)
      requires entry.release.Calls?
      modifies `log
      ensures log == old(log) + [entry.id]
      ensures err == if entry.release.fails then Some(ReleaseFailed(entry.id, cause)) else None
    {
      log := log + [entry.id];
      return if entry.release.fails then Some(ReleaseFailed(entry.id, cause)) else None;
    }

    /** Takes an entry out of the table, with all edges into it. */
    method Unlink(id: ID) returns (entry: Entry)
      requires Valid() && id in entries
      modifies `entries, entries.Values
      ensures entries == old(entries) - {id} && entry == old(entries)[id]
      ensures entry.id == id && entry.release == model.entries[id].release
      ensures EntriesMatch(Survivors(model.entries, {id}))
    {
      entry := entries[id];
      DropReferences(id);
      entries := entries - {id};
    }

    /** Counts a release and invokes the callback. */
    method Settle(entry: Entry, cause: Cause, ghost t: Table) returns (err: Option<Error>)
      requires CountersMatch(t) && entry.id in t.entries && t.entries[entry.id].release == entry.release
      modifies `released, `releaseErrors, `finalizerReleases, `scopeReleases, `explicitReleases, `log
      ensures CountersMatch(Dropped(t, entry.id, cause))
      ensures err == if Fails(t.entries[entry.id]) then Some(ReleaseFailed(entry.id, cause)) else None
    {
      hide Survivors;
      RecordRelease(cause);
      err := CallRelease(entry, cause);
    }

    /** The way out of the table that all releases share. */
    method Drop(id: ID, cause: Cause) returns (err: Option<Error>)
      requires Valid() && id in entries
      modifies `entries, `released, `releaseErrors, `finalizerReleases, `scopeReleases, `explicitReleases
      modifies `log, `model, entries.Values
      ensures Valid() && model == Dropped(old(model), id, cause) && entries == old(entries) - {id}
      ensures err == if Fails(old(model).entries[id]) then Some(ReleaseFailed(id, cause)) else None
    {
      hide EntriesMatch, CountersMatch, Dropped, Survivors;
      EntryKnown(id);
      DroppedParts(model, id, cause);
      var entry := Unlink(id);
      err := Settle(entry, cause, model);
      model := Dropped(model, id, cause);
    }

    /** Releases one strong reference. */
    method ReleaseRef(id: ID, cause: Cause) returns (err: Option<Error>)
      requires Valid()
      modifies `entries, `released, `releaseErrors, `finalizerReleases, `scopeReleases, `explicitReleases
      modifies `log, `model, entries.Values
      ensures Valid() && model == Released(old(model), id, cause) && err == ReleaseError(old(model), id, cause)
      ensures id in old(entries) ==> (id in entries <==> old(entries[id].refs) > 1)
      ensures id in entries ==> entries[id].refs == old(entries[id].refs) - 1 && log == old(log) && err == None
      ensures entries.Values <= old(entries.Values)
    {
      EntryKnown(id);
      if id !in entries {
        return None;
      }
      DroppedWithLess(model, id, cause);
      var refs := Lower(id);
      hide Update, Dropped, Survivors;
      if refs > 0 {
        return None;
      }
      err := Drop(id, cause);
    }

    method Lower(id: ID) returns (refs: int)
      requires Valid() && id in entries
      modifies `model, entries[id]
      ensures Valid() && refs == old(model).entries[id].refs - 1 && refs == entries[id].refs
      ensures model == Update(old(model), id, old(model).entries[id].(refs := refs))
    {
      hide EntriesMatch;
      EntryKnown(id);
      entries[id].refs := entries[id].refs - 1;
      refs := entries[id].refs;
      OneChanged(id, model.entries);
      model := Update(model, id, model.entries[id].(refs := refs));
    }

    /** Releases all strong references. */
    method ReleaseEvery(id: ID, cause: Cause) returns (err: Option<Error>)
      requires Valid()
      modifies `entries, `released, `releaseErrors, `finalizerReleases, `scopeReleases, `explicitReleases
      modifies `log, `model, entries.Values
      ensures Valid() && model == ReleasedAll(old(model), id, cause) && err == ReleaseAllError(old(model), id, cause)
      ensures entries.Values <= old(entries.Values)
    {
      if id !in entries {
        return None;
      }
      err := Drop(id, cause);
    }

    method Release(id: ID) returns (err: Option<Error>)
      requires Valid()
      modifies `entries, `released, `releaseErrors, `finalizerReleases, `scopeReleases, `explicitReleases
      modifies `log, `model, entries.Values
      ensures Valid() && model == Apply(old(model), Op.Release(id)) && err == ReleaseError(old(model), id, Explicit)
      ensures id in old(entries) ==> (id in entries <==> old(entries[id].refs) > 1)
      ensures id in entries ==> entries[id].refs == old(entries[id].refs) - 1 && log == old(log) && err == None
    {
      err := ReleaseRef(id, Explicit);
    }

    method ReleaseAllRefs(id: ID) returns (err: Option<Error>)
      requires Valid()
      modifies `entries, `released, `releaseErrors, `finalizerReleases, `scopeReleases, `explicitReleases
      modifies `log, `model, entries.Values
      ensures Valid() && model == Apply(old(model), Op.ReleaseAllRefs(id))
      ensures err == ReleaseAllError(old(model), id, Explicit)
    {
      err := ReleaseEvery(id, Explicit);
    }

    /** Counts a finalizer that has run for a live handle. */
    method NoteFinalizer(id: ID)
      requires Valid() && id in entries
      modifies `model, entries[id]
      ensures Valid() && model == Finalized(old(model), id) && entries[id].refs == old(entries[id].refs)
    {
      hide EntriesMatch;
      EntryKnown(id);
      entries[id].finalizers := entries[id].finalizers + 1;
      OneChanged(id, model.entries);
      model := Finalized(model, id);
    }

    method ReleaseFromFinalizer(id: ID) returns (err: Option<Error>)
      requires Valid()
      modifies `entries, `released, `releaseErrors, `finalizerReleases, `scopeReleases, `explicitReleases
      modifies `log, `model, entries.Values
      ensures Valid() && model == Apply(old(model), Op.ReleaseFromFinalizer(id))
      ensures err == ReleaseError(old(model), id, Finalizer)
      ensures id in old(entries) ==> (id in entries <==> old(entries[id].refs) > 1)
    {
      if id in entries {
        NoteFinalizer(id);
      }
      err := ReleaseRef(id, Finalizer);
    }

    /** Queues a release for a safe thread; false when the handle is unknown or the spill is full. */
    method QueueReleaseFromFinalizer(id: ID) returns (queued: bool)
      requires Valid() && QueueValid()
      modifies `model, `finalizerQueued, `finalizerDrops, entries.Values, finalizers
      ensures Valid() && QueueValid() && model == Finalized(old(model), id)
      ensures queued <==> id in entries && Accepts(old(finalizers.View()), id, finalizers.capacity, finalizers.keyLimit)
      ensures finalizers.View()
                == if queued then Offered(old(finalizers.View()), id, finalizers.capacity) else old(finalizers.View())
      ensures finalizerDrops == old(finalizerDrops) + if id in entries && !queued then 1 else 0
    {
      hide Valid, QueueValid, Accepts, Offered, Finalized;
      EntryKnown(id);
      assert id !in entries ==> Finalized(model, id) == model by { NotFinalized(model, id); }
      if id !in entries {
        return false;
      }
      NoteFinalizer(id);
      queued := Enqueue(id);
    }

    method Enqueue(id: ID) returns (queued: bool)
      requires QueueValid()
      modifies `finalizerQueued, `finalizerDrops, finalizers
      ensures QueueValid()
      ensures queued <==> Accepts(old(finalizers.View()), id, finalizers.capacity, finalizers.keyLimit)
      ensures finalizers.View()
                == if queued then Offered(old(finalizers.View()), id, finalizers.capacity) else old(finalizers.View())
      ensures finalizerDrops == old(finalizerDrops) + if queued then 0 else 1
    {
      OfferGrows(finalizers.View(), id, finalizers.capacity, finalizers.keyLimit);
      hide Contents, Accepts, Offered;
      queued := finalizers.Offer(id);
      if queued {
        finalizerQueued := finalizerQueued + 1;
      } else {
        finalizerDrops := finalizerDrops + 1;
      }
    }

    /** Takes the next queued release, if there is one. */
    method NextQueued() returns (next: Option<ID>)
      requires QueueValid()
      modifies `finalizerDrains, finalizers
      ensures QueueValid() && (next == None <==> IsEmpty(old(finalizers.View())))
      ensures next == None ==> finalizers.View() == old(finalizers.View()) && finalizerDrains == old(finalizerDrains)
      ensures next.Some? ==> Contents(old(finalizers.View())) == [next.value] + Contents(finalizers.View())
      ensures next.Some? ==> finalizerDrains == old(finalizerDrains) + 1
    {
      hide Contents, QueueOk, IsEmpty;
      next := finalizers.Take();
      if next.Some? {
        finalizerDrains := finalizerDrains + 1;
      }
    }

    /** Applies queued releases, at most `max` of them if that is positive, in the order of the queue. */
    method DrainFinalizerReleases(max: int) returns (err: Option<Error>, ghost ids: seq<ID>)
      requires Valid() && QueueValid()
      modifies `entries, `released, `releaseErrors, `finalizerReleases, `scopeReleases, `explicitReleases
      modifies `log, `model, `finalizerDrains, entries.Values, finalizers
      ensures Valid() && QueueValid()
      ensures old(Contents(finalizers.View())) == ids + Contents(finalizers.View())
      ensures if max <= 0 then IsEmpty(finalizers.View())
              else |ids| == max || (|ids| < max && IsEmpty(finalizers.View()))
      ensures model == Drained(old(model), ids) && err == DrainError(old(model), ids)
      ensures finalizerDrains == old(finalizerDrains) + |ids|
    {
      hide Contents, QueueValid, IsEmpty, Valid, Released, ReleaseError;
      var drained := 0;
      err, ids := None, [];
      while max <= 0 || drained < max
        invariant Valid() && QueueValid() && drained == |ids| && (max > 0 ==> drained <= max)
        invariant entries.Values <= old(entries.Values)
        invariant old(Contents(finalizers.View())) == ids + Contents(finalizers.View())
        invariant model == Drained(old(model), ids) && err == DrainError(old(model), ids)
        invariant finalizerDrains == old(finalizerDrains) + |ids|
        decreases |Contents(finalizers.View())|
      {
        var next := NextQueued();
        if next == None {
          return;
        }
        var e := ReleaseRef(next.value, Finalizer);
        DrainedSnoc(old(model), ids, next.value);
        if e.Some? && err == None {
          err := e;
        }
        ids := ids + [next.value];
        drained := drained + 1;
      }
    }

    /** Releases every non-escaped handle of a scope, in ascending id order, and returns the first error. */
    method ReleaseScope(scope: nat) returns (err: Option<Error>)
      requires Valid()
      modifies `entries, `released, `releaseErrors, `finalizerReleases, `scopeReleases, `explicitReleases
      modifies `log, `model, entries.Values
      ensures Valid() && model == Apply(old(model), Op.ReleaseScope(scope))
      ensures err == BulkError(old(model), Listing(InScope(old(model), scope)))
    {
      ScopeKnown(scope);
      EntriesKnown();
      hide Valid;
      var ids := SortedListing(set id | id in entries && entries[id].scope == scope && !entries[id].escaped);
      ListingUnique(ids, Listing(InScope(model, scope)), InScope(model, scope));
      err := ReleaseBulk(ids);
    }

    lemma ScopeKnown(scope: nat)
      requires Valid()
      ensures (set id | id in entries && entries[id].scope == scope && !entries[id].escaped) == InScope(model, scope)
    {
    }

    /** Releases every live handle, escaped ones included. */
    method ReleaseAll() returns (err: Option<Error>)
      requires Valid()
      modifies `entries, `released, `releaseErrors, `finalizerReleases, `scopeReleases, `explicitReleases
      modifies `log, `model, entries.Values
      ensures Valid() && model == Apply(old(model), Op.ReleaseAll) && entries == map[]
      ensures err == BulkError(old(model), Listing(old(model).entries.Keys))
    {
      var ids := SortedListing(entries.Keys);
      ListingUnique(ids, Listing(model.entries.Keys), model.entries.Keys);
      err := ReleaseBulk(ids);
      assert entries.Keys == {};
    }

    /** The loop of the two bulk releases. */
    method ReleaseBulk(ids: seq<ID>) returns (err: Option<Error>)
      requires Valid() && Ascends(ids) && forall id :: id in ids ==> id in entries
      modifies `entries, `released, `releaseErrors, `finalizerReleases, `scopeReleases, `explicitReleases
      modifies `log, `model, entries.Values
      ensures Valid() && model == BulkReleased(old(model), ids) && err == BulkError(old(model), ids)
    {
      hide Valid, Ascends, BulkReleased, BulkError, ReleasedAll, ReleaseAllError;
      EntriesKnown();
      err := None;
      BulkOfNothing(model);
      assert ids[..0] == [];
      for i := 0 to |ids|
        invariant Valid() && entries.Values <= old(entries.Values)
        invariant model == BulkReleased(old(model), ids[..i]) && err == BulkError(old(model), ids[..i])
      {
        BulkNext(old(model), ids, i);
        var e := ReleaseEvery(ids[i], Scope);
        if e.Some? && err == None {
          err := e;
        }
      }
      assert ids[..|ids|] == ids;
    }

    lemma EntriesKnown()
      requires Valid()
      ensures entries.Keys == model.entries.Keys
    {
    }
  }

  lemma BulkNext(t: Table, ids: seq<ID>, i: nat)
    requires Ascends(ids) && i < |ids| && forall id :: id in ids ==> id in t.entries
    ensures BulkReleased(t, ids[..i + 1]) == ReleasedAll(BulkReleased(t, ids[..i]), ids[i], Scope)
    ensures BulkError(t, ids[..i + 1])
         == if BulkError(t, ids[..i]).Some? then BulkError(t, ids[..i])
            else ReleaseAllError(BulkReleased(t, ids[..i]), ids[i], Scope)
  {
    assert ids[i] in ids && ids[i] !in ids[..i];
    assert ids[..i + 1] == ids[..i] + [ids[i]];
    hide BulkReleased, BulkError, ReleasedAll, ReleaseAllError;
    BulkStep(t, ids[..i], ids[i]);
  }

  /** Lowering the count first makes no difference to what dropping does. */
  lemma DroppedWithLess(t: Table, id: ID, cause: Cause)
    requires id in t.entries
    ensures var h := t.entries[id];
            Dropped(Update(t, id, h.(refs := h.refs - 1)), id, cause) == Dropped(t, id, cause)
  {
    var h := t.entries[id];
    assert Survivors(Update(t, id, h.(refs := h.refs - 1)).entries, {id}) == Survivors(t.entries, {id});
  }

  lemma DroppedParts(t: Table, id: ID, cause: Cause)
    requires id in t.entries
    ensures var t' := Dropped(t, id, cause); t'.entries == Survivors(t.entries, {id}) && t'.nextID == t.nextID
  {
  }

  lemma NotFinalized(t: Table, id: ID)
    ensures id !in t.entries ==> Finalized(t, id) == t
  {
  }

  lemma DrainedSnoc(t: Table, ids: seq<ID>, id: ID)
    ensures Drained(t, ids + [id]) == Released(Drained(t, ids), id, Finalizer)
    ensures DrainError(t, ids + [id])
         == if DrainError(t, ids).Some? then DrainError(t, ids) else ReleaseError(Drained(t, ids), id, Finalizer)
  {
    assert (ids + [id])[..|ids + [id]| - 1] == ids;
  }

  lemma OfferGrows(q: Queue<ID>, x: ID, capacity: nat, keyLimit: nat)
    requires QueueOk(q, capacity, keyLimit)
    ensures Accepts(q, x, capacity, keyLimit) ==> |Contents(Offered(q, x, capacity))| == |Contents(q)| + 1
  {
    if Accepts(q, x, capacity, keyLimit) {
      OfferConserves(q, x, capacity, keyLimit);
      SameSize(Contents(q), x, Contents(Offered(q, x, capacity)));
    }
  }

  lemma SameSize(before: seq<ID>, x: ID, after: seq<ID>)
    requires multiset(after) == multiset(before) + multiset{x}
    ensures |after| == |before| + 1
  {
    assert |multiset(after)| == |after| && |multiset(before)| == |before|;
  }
}
