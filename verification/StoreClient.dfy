/**
 What runtimes do with the store: named borrows that are returned by name, from finalizer threads, through the
 deferred queue.
 */
module StoreClient {
  import opened Buffers
  import opened Deferred
  import opened Options
  import opened SharedStore
  import opened SpillQueues
  import opened StoreInv
  import opened StoreRuns
  import opened StoreSpec

  /** Where a caller wants a result. */
  class Out<T> {
    var value: T

    constructor (value: T)
      ensures this.value == value
    {
      this.value := value;
    }
  }

  class Client {
    const store: SharedStore
    const pending: SpillQueue<Name>
    var deferredDrops: int

    constructor ()
      ensures Valid() && fresh(store) && fresh(pending) && store.model == EMPTY
      ensures pending.View() == Queue([], map[], [], 0) && deferredDrops == 0
    {
      store := new SharedStore();
      pending := new SpillQueue(DEFERRED_CAPACITY, MAX_OVERFLOW_NAMES);
      deferredDrops := 0;
    }

    ghost predicate Valid()
      reads store, store.tombs, store.objects.Values, store.issued.Values, store.closures.Values, pending
    {
      && store.Valid() && Inv(store.model) && pending.Valid()
      && pending.capacity == DEFERRED_CAPACITY && pending.keyLimit == MAX_OVERFLOW_NAMES
    }

    /**
     Exposes the buffer of a name, and records the borrow under the name. The outputs are cleared first; without
     all of the first three, nothing is borrowed.
     */
    method BufGet(name: Name, dataOut: Out?<Region>, lenOut: Out?<int>, dtypeOut: Out?<int>, readOnlyOut: Out?<bool>)
      returns (rc: int)
      requires Valid() && (lenOut != null ==> lenOut != dtypeOut)
      modifies store, store.objects.Values, dataOut, lenOut, dtypeOut, readOnlyOut
      ensures Valid() && rc == if CanBorrow(old(store.buffers.Keys), name, dataOut, lenOut, dtypeOut) then 0 else -1
      ensures store.model == if dataOut == null || lenOut == null || dtypeOut == null then old(store.model)
                             else Apply(old(store.model), BorrowNamed(name))
      ensures rc == 0 ==>
                var x := Expose(old(store.buffers[name].view));
                && dataOut.value == x.data && lenOut.value == x.len && dtypeOut.value == x.meta.dtype
                && (readOnlyOut != null ==> readOnlyOut.value == x.meta.readOnly)
      ensures rc != 0 ==>
                && (dataOut != null ==> dataOut.value == Absent) && (lenOut != null ==> lenOut.value == 0)
                && (dtypeOut != null ==> dtypeOut.value == 0) && (readOnlyOut != null ==> readOnlyOut.value == false)
    {
      hide Valid, Inv, Apply, Expose;
      assert Inv(store.model) by { ValidInv(); }
      ClearOutputs(dataOut, lenOut, dtypeOut, readOnlyOut);
      if dataOut == null || lenOut == null || dtypeOut == null {
        return -1;
      }
      var exposed := BorrowByName(name);
      if exposed == None {
        return -1;
      }
      WriteOutputs(exposed.value, dataOut, lenOut, dtypeOut, readOnlyOut);
      return 0;
    }

    method BorrowByName(name: Name) returns (exposed: Option<Exposed>)
      requires Valid()
      modifies store, store.objects.Values
      ensures Valid() && Inv(old(store.model)) && store.model == Apply(old(store.model), BorrowNamed(name))
      ensures exposed == if name in old(store.buffers) then Some(Expose(old(store.buffers[name].view))) else None
    {
      hide Inv, QueueOk, Apply, SharedStore.Valid;
      var err;
      exposed, err := store.BorrowNamed(name);
    }

    method WriteOutputs(x: Exposed, dataOut: Out<Region>, lenOut: Out<int>, dtypeOut: Out<int>, readOnlyOut: Out?<bool>)
      requires lenOut != dtypeOut
      modifies dataOut, lenOut, dtypeOut, readOnlyOut
      ensures dataOut.value == x.data && lenOut.value == x.len && dtypeOut.value == x.meta.dtype
      ensures readOnlyOut != null ==> readOnlyOut.value == x.meta.readOnly
    {
      dataOut.value, lenOut.value, dtypeOut.value := x.data, x.len, x.meta.dtype;
      if readOnlyOut != null {
        readOnlyOut.value := x.meta.readOnly;
      }
    }

    ghost predicate CanBorrow(names: set<Name>, name: Name, dataOut: Out?<Region>, lenOut: Out?<int>,
      dtypeOut: Out?<int>) {
      dataOut != null && lenOut != null && dtypeOut != null && name in names
    }

    method ClearOutputs(dataOut: Out?<Region>, lenOut: Out?<int>, dtypeOut: Out?<int>, readOnlyOut: Out?<bool>)
      modifies dataOut, lenOut, dtypeOut, readOnlyOut
      ensures (dataOut != null ==> dataOut.value == Absent) && (lenOut != null ==> lenOut.value == 0)
      ensures (dtypeOut != null ==> dtypeOut.value == 0) && (readOnlyOut != null ==> readOnlyOut.value == false)
    {
      if dataOut != null { dataOut.value := Absent; }
      if lenOut != null { lenOut.value := 0; }
      if dtypeOut != null { dtypeOut.value := 0; }
      if readOnlyOut != null { readOnlyOut.value := false; }
    }

    /** Schedules the return of a named borrow. Only a new name that overflows a full queue is dropped. */
    method BufRelease(name: Name)
      requires Valid()
      modifies `deferredDrops, pending
      ensures Valid() && store.model == old(store.model)
      ensures var accepted := Accepts(old(pending.View()), name, DEFERRED_CAPACITY, MAX_OVERFLOW_NAMES);
              && pending.View()
                == (if accepted then Offered(old(pending.View()), name, DEFERRED_CAPACITY) else old(pending.View()))
              && deferredDrops == old(deferredDrops) + if accepted then 0 else 1
    {
      hide Inv, QueueOk, Accepts, Offered;
      var queued := pending.Offer(name);
      if !queued {
        deferredDrops := deferredDrops + 1;
      }
    }

    /** Releases the owner reference of a name at once. */
    method BufFree(name: Name) returns (err: Option<StoreError>)
      requires Valid()
      modifies store, store.tombs, store.objects.Values, store.closures.Values
      ensures Valid() && store.model == Apply(old(store.model), Op.Free(name))
      ensures err == if name !in old(store.model).current then Some(Missing(old(store.model).tombs, name))
                     else if FreeFails(old(store.model), name) then Some(ReleaseFailed) else None
    {
      hide Inv, QueueOk, Apply, SharedStore.Valid, FreeFails;
      err := store.Free(name);
    }

    /** Applies the next pending release, if there is one. */
    method DrainNext() returns (next: Option<Name>)
      requires Valid()
      modifies store, store.tombs, store.objects.Values, store.closures.Values, pending
      ensures Valid() && store.objects == old(store.objects) && store.closures == old(store.closures)
      ensures next == None ==> old(Contents(pending.View())) == [] && store.model == old(store.model)
      ensures next == None ==> IsEmpty(pending.View())
      ensures next.Some? ==> old(Contents(pending.View())) == [next.value] + Contents(pending.View())
      ensures next.Some? ==> store.model == Apply(old(store.model), Op.ReleaseNamed(next.value))
    {
      hide Inv, QueueOk, Contents, IsEmpty, Apply, QueueOf, EndFails;
      hide store.ObjectsOk, store.NamesOk, store.DetachedOk, store.QueuesOk, store.LeasesOk, store.ClosuresOk;
      EmptyContents(pending.View(), DEFERRED_CAPACITY, MAX_OVERFLOW_NAMES);
      next := pending.Take();
      if next.Some? {
        var err := store.ReleaseNamed(next.value);
      }
    }

    /** Applies everything that is pending: the channel first, then the overflow. */
    method DrainDeferred()
      requires Valid()
      modifies store, store.tombs, store.objects.Values, store.closures.Values, pending
      ensures Valid() && IsEmpty(pending.View())
      ensures store.model == ReleaseMany(old(store.model), old(Contents(pending.View())))
    {
      hide Valid, Inv, QueueOk, Contents, IsEmpty, Apply;
      assert Inv(store.model) by { ValidInv(); }
      ghost var names: seq<Name> := [];
      while true
        invariant Valid() && store.objects == old(store.objects) && store.closures == old(store.closures)
        invariant old(Contents(pending.View())) == names + Contents(pending.View())
        invariant store.model == ReleaseMany(old(store.model), names)
        decreases |Contents(pending.View())|
      {
        var next := DrainNext();
        if next == None {
          assert names + [] == names;
          return;
        }
        ReleaseManySnoc(old(store.model), names, next.value);
        names := names + [next.value];
      }
    }

    lemma ValidInv()
      requires Valid()
      ensures Inv(store.model)
    {
    }
  }
}
