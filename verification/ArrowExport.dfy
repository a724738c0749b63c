/** Exporting a buffer of the store as an Arrow C Data array. */
module ArrowExport {
  import opened ArrowData
  import opened Buffers
  import opened Descriptors
  import opened Layout
  import opened Options
  import opened RowMajor
  import opened SharedStore
  import opened StoreInv
  import opened StoreRuns
  import opened StoreSpec

  /** Buffers that have the layout of a flat primitive array. */
  predicate Exportable(x: Exposed)
    requires 0 <= x.len <= MAX
  {
    var format := PrimitiveFormat(x.meta.dtype, x.meta.format);
    && format.Some? && x.len % ElementSize(format.value) == 0
    && (x.meta.nullCount > 0 ==> !x.validity.Absent?)
    && Viewable(x.meta.offset, x.meta.shape, x.meta.strides, x.len, ElementSize(format.value))
  }

  lemma FormatsHaveSizes(dtype: int, recorded: string)
    ensures var format := PrimitiveFormat(dtype, recorded); format.Some? ==> 1 <= ElementSize(format.value) <= 8
  {
  }

  /** The array that such a buffer is exported as. */
  function ExportOf(x: Exposed): ArrayInfo
    requires 0 <= x.len <= MAX && Exportable(x)
  {
    FormatsHaveSizes(x.meta.dtype, x.meta.format);
    var size := ElementSize(PrimitiveFormat(x.meta.dtype, x.meta.format).value);
    ViewLengthFits(x.meta.offset, x.meta.shape, x.meta.strides, x.len, size);
    ArrayInfo(ViewLength(x.meta.offset, x.meta.shape, x.len, size), x.meta.nullCount, x.meta.offset / size, 2, 0, false,
              if x.meta.nullCount > 0 then x.validity else Absent, x.data)
  }

  lemma ViewLengthFits(offset: int64, shape: seq<int64>, strides: seq<int64>, byteLen: int64, size: int64)
    requires size > 0 && Viewable(offset, shape, strides, byteLen, size)
    ensures 0 <= ViewLength(offset, shape, byteLen, size) <= MAX
    ensures 0 <= offset / size <= MAX
  {
    QuotientFits(offset, size);
    if shape == [] {
      QuotientFits(byteLen - offset, size);
    } else {
      ProductBeforeZero(shape);
      ProductPositive(BeforeZero(shape));
    }
  }

  lemma QuotientFits(n: int, size: int)
    requires 0 <= n && size > 0
    ensures 0 <= n / size <= n
  {
    var q := n / size;
    assert q * size <= n;
    if q > 0 { MulAtLeast(q, size); }
  }

  // ---------- exporting

  /** What a schema descriptor owns: its strings, and how often they were freed. */
  class SchemaState {
    const format: string
    const name: string
    var held: bool
    ghost var frees: nat

    constructor (format: string, name: string)
      ensures this.format == format && this.name == name && held && frees == 0
    {
      this.format, this.name, held, frees := format, name, true, 0;
    }

    method Free()
      modifies this
      ensures !held && frees == old(frees) + if old(held) then 1 else 0
    {
      if held {
        held := false;
        frees := frees + 1;
      }
    }
  }

  /** A schema descriptor: live while it holds the strings that its release callback frees. */
  class ExportedSchema {
    var state: SchemaState?

    constructor ()
      ensures state == null
    {
      state := null;
    }

    /** The release callback of a schema: it frees the strings, and marks the descriptor as released. */
    method ReleaseIfLive()
      modifies this, state
      ensures state == null
      ensures old(state) != null ==>
                !old(state).held && old(state).frees == old(state.frees) + if old(state.held) then 1 else 0
    {
      if state != null {
        var strings := state;
        state := null;
        strings.Free();
      }
    }
  }

  /** An array descriptor: live while it holds the lease that its release callback ends. */
  class ExportedArray {
    var info: Option<ArrayInfo>
    var lease: Lease?

    constructor ()
      ensures info == None && lease == null
    {
      info, lease := None, null;
    }

    /** The lease behind a descriptor was issued by the store. */
    ghost predicate Backed(store: SharedStore)
      reads this, store, store.tombs, store.objects.Values, store.issued.Values, store.closures.Values
    {
      && store.Valid() && Inv(store.model)
      && (lease != null ==> lease.id in store.issued && store.issued[lease.id] == lease)
    }

    /** The release callback of an array: it ends the lease, and marks the descriptor as released. */
    method ReleaseIfLive(store: SharedStore)
      requires Backed(store)
      modifies `lease, lease, store, store.tombs, store.objects.Values, store.closures.Values
      ensures Backed(store) && lease == null
      ensures store.model == if old(lease) == null then old(store.model)
                             else Apply(old(store.model), Op.ReleaseLease(old(lease).id))
    {
      hide Inv, Apply, SharedStore.ObjectsOk, SharedStore.NamesOk, SharedStore.DetachedOk;
      hide SharedStore.QueuesOk, SharedStore.LeasesOk, SharedStore.ClosuresOk;
      if lease != null {
        var held := lease;
        lease := null;
        var err := store.ReleaseLease(held);
      }
    }
  }

  /** An exported pair of descriptors, and the store it was lent from; both are null once released or detached. */
  class ArrowCData {
    const store: SharedStore
    var schema: ExportedSchema?
    var arr: ExportedArray?
    var done: bool

    constructor (store: SharedStore, schema: ExportedSchema, arr: ExportedArray)
      ensures this.store == store && this.schema == schema && this.arr == arr && !done
    {
      this.store, this.schema, this.arr, done := store, schema, arr, false;
    }

    ghost predicate Valid()
      reads this, arr, store, store.tombs, store.objects.Values, store.issued.Values, store.closures.Values
    {
      && (schema == null <==> arr == null) && (done ==> arr == null)
      && (arr != null ==> arr.Backed(store))
    }

    /** Frees the strings and ends the lease, unless that has been done or was handed on. */
    method Release()
      requires Valid()
      modifies this, schema, arr, store, store.tombs, store.objects.Values, store.closures.Values
      modifies if schema == null then null else schema.state
      modifies if arr == null then null else arr.lease
      ensures Valid() && done && schema == null && arr == null
      ensures old(schema) != null ==> old(schema).state == null && old(arr).lease == null
      ensures old(schema) != null && old(schema.state) != null ==>
                && !old(schema.state).held
                && old(schema.state).frees == old(schema.state.frees) + if old(schema.state.held) then 1 else 0
      ensures store.model == if old(arr) == null || old(arr.lease) == null then old(store.model)
                             else Apply(old(store.model), Op.ReleaseLease(old(arr.lease).id))
    {
      hide Inv, Apply, SharedStore.Valid, ExportedArray.Backed;
      if done {
        return;
      }
      done := true;
      ReleaseSchema();
      ReleaseArray();
    }

    method ReleaseSchema()
      modifies `schema, schema
      modifies if schema == null then null else schema.state
      ensures schema == null && (old(schema) != null ==> old(schema).state == null)
      ensures old(schema) != null && old(schema.state) != null ==>
                && !old(schema.state).held
                && old(schema.state).frees == old(schema.state.frees) + if old(schema.state.held) then 1 else 0
    {
      if schema != null {
        schema.ReleaseIfLive();
        schema := null;
      }
    }

    method ReleaseArray()
      requires arr != null ==> arr.Backed(store)
      modifies `arr, arr, store, store.tombs, store.objects.Values, store.closures.Values
      modifies if arr == null then null else arr.lease
      ensures arr == null && (old(arr) != null ==> old(arr).lease == null)
      ensures store.model == if old(arr) == null || old(arr.lease) == null then old(store.model)
                             else Apply(old(store.model), Op.ReleaseLease(old(arr.lease).id))
    {
      hide Inv, Apply, ExportedArray.Backed;
      if arr != null {
        arr.ReleaseIfLive(store);
        arr := null;
      }
    }

    /** Hands the descriptors on: from now on it is the receivers whose release frees the strings and ends the lease. */
    method DetachTo(schemaOut: ExportedSchema?, arrayOut: ExportedArray?) returns (err: bool)
      requires Valid() && (schemaOut != null ==> schemaOut != schema) && (arrayOut != null ==> arrayOut != arr)
      modifies this, schemaOut, arrayOut
      ensures Valid() && done == old(done)
      ensures err <==> old(schema) == null || old(arr) == null || schemaOut == null || arrayOut == null
      ensures err ==> schema == old(schema) && arr == old(arr)
      ensures err && schemaOut != null ==> schemaOut.state == old(schemaOut.state)
      ensures err && arrayOut != null ==> arrayOut.info == old(arrayOut.info) && arrayOut.lease == old(arrayOut.lease)
      ensures !err ==> schema == null && arr == null && schemaOut.state == old(schema.state)
      ensures !err ==> arrayOut.info == old(arr.info) && arrayOut.lease == old(arr.lease) && arrayOut.Backed(store)
    {
      hide Inv, SharedStore.Valid;
      if schema == null || arr == null {
        return true;
      }
      if schemaOut == null || arrayOut == null {
        return true;
      }
      schemaOut.state := schema.state;
      arrayOut.info, arrayOut.lease := arr.info, arr.lease;
      schema, arr := null, null;
      return false;
    }
  }

  /** Whether a buffer can be exported, decided as the program does it. */
  method CheckExport(x: Exposed) returns (info: Option<ArrayInfo>, formatName: string)
    requires 0 <= x.len <= MAX
    ensures info.Some? <==> Exportable(x)
    ensures info.Some? ==> info.value == ExportOf(x) && PrimitiveFormat(x.meta.dtype, x.meta.format) == Some(formatName)
  {
    var format := PrimitiveFormat(x.meta.dtype, x.meta.format);
    if format == None {
      return None, "";
    }
    FormatsHaveSizes(x.meta.dtype, x.meta.format);
    var size := ElementSize(format.value);
    if size <= 0 || x.len % size != 0 {
      return None, "";
    }
    if x.meta.nullCount > 0 && x.validity.Absent? {
      return None, "";
    }
    var length, offset, ok := LogicalPrimitiveView(x.meta.offset, x.meta.shape, x.meta.strides, x.len, size);
    if !ok {
      return None, "";
    }
    hide Viewable;
    ViewLengthFits(x.meta.offset, x.meta.shape, x.meta.strides, x.len, size);
    return Some(ArrayInfo(length, x.meta.nullCount, offset / size, 2, 0, false,
                          if !x.validity.Absent? && x.meta.nullCount > 0 then x.validity else Absent, x.data)),
           format.value;
  }

  ghost function BorrowedAndReturned(s: Store, name: Name): Store
    requires Inv(s)
  {
    ApplyInv(s, Op.Borrow(name));
    Apply(Apply(s, Op.Borrow(name)), Op.ReleaseLease(s.nextLease))
  }

  lemma LoweredAgain(slot: Slot)
    requires slot.refs >= 1 && slot.borrowRefs >= 0
    ensures var low := LowerBorrow(slot.(refs := slot.refs + 1, borrowRefs := slot.borrowRefs + 1));
            low == slot && Settle(low) == slot && low.refs > 0
  {
  }

  /** A borrow that is returned at once leaves every buffer, name, loan and callback as it was. */
  lemma ReturnedBorrowLeavesNoTrace(s: Store, name: Name)
    requires Inv(s) && name in s.current
    ensures BorrowedAndReturned(s, name)
              == s.(counters := BorrowedAndReturned(s, name).counters, nextLease := s.nextLease + 1)
  {
    CurrentIsLive(s, name);
    RefsNotNegative(s, s.current[name]);
    assert s.nextLease !in s.leases;
    ApplyInv(s, Op.Borrow(name));
    hide Inv, Apply, StoreSpec.Borrow, EndBorrow;
    ApplyBorrow(s, name);
    LeaseBegins(s, name);
    ApplyReleaseLease(StoreSpec.Borrow(s, name), s.nextLease);
    BorrowThenEnd(s, name, StoreSpec.Borrow(s, name));
  }

  lemma LeaseBegins(s: Store, name: Name)
    requires name in s.current && s.current[name] in s.slots
    ensures var lent := StoreSpec.Borrow(s, name);
            s.nextLease in lent.leases && lent.leases[s.nextLease].name == name
              && lent.leases[s.nextLease].slot == s.current[name]
  {
  }

  lemma BorrowThenEnd(s: Store, name: Name, lent: Store)
    requires name in s.current && s.current[name] in s.slots
    requires s.nextLease !in s.leases && lent == StoreSpec.Borrow(s, name)
    requires s.slots[s.current[name]].refs >= 1 && s.slots[s.current[name]].borrowRefs >= 0
    ensures var s' := EndBorrow(lent.(leases := lent.leases - {s.nextLease}), name, s.current[name]);
            s' == s.(counters := s'.counters, nextLease := s.nextLease + 1)
  {
    var x := s.current[name];
    LoweredAgain(s.slots[x]);
    hide LowerBorrow, Settle, Fire;
    assert lent.leases - {s.nextLease} == s.leases;
    assert lent.slots[x := s.slots[x]] == s.slots;
  }

  /**
   Borrows a buffer as an array. Success leaves one lease outstanding, owned by the descriptor; a buffer that
   cannot be exported is not left borrowed.
   */
  method BorrowCArrowArray(store: SharedStore, name: Name, allocationFails: bool) returns (data: Option<ArrowCData>)
    requires store.Valid() && Inv(store.model)
    requires name in store.buffers ==> 0 <= store.buffers[name].view.len <= MAX
    modifies store, store.tombs, store.objects.Values, store.closures.Values
    ensures store.Valid() && Inv(store.model)
    ensures name !in old(store.buffers) ==> data == None && store.model == old(store.model)
    ensures name in old(store.buffers) ==>
              var x := Expose(old(store.buffers[name].view));
              && (data.Some? <==> Exportable(x) && !allocationFails)
              && (data.Some? ==> store.model == Apply(old(store.model), Op.Borrow(name)) && data.value.store == store)
              && (data.Some? ==> data.value.arr != null && data.value.arr.info == Some(ExportOf(x)))
              && (data.Some? ==> data.value.Valid() && !data.value.done && fresh(data.value) && fresh(data.value.arr))
              && (data.Some? ==> data.value.schema != null && Describes(data.value.schema, x, name))
              && (data.Some? ==> data.value.arr.lease != null && store.Outstanding(data.value.arr.lease))
              && (data == None ==> store.model == BorrowedAndReturned(old(store.model), name))
  {
    hide Inv, Apply, Exportable, ExportOf, SharedStore.Valid;
    store.NameKnown(name);
    NothingToBorrow(store.model, name);
    var lease, err := store.Borrow(name);
    if lease == None {
      return None;
    }
    var info, format := CheckExport(lease.value.exposed);
    data := FinishExport(store, lease.value, if allocationFails then None else info, format);
  }

  /** A fresh schema descriptor that owns the format of the exported array, and its name. */
  ghost predicate Describes(schema: ExportedSchema, x: Exposed, name: Name)
    reads schema, schema.state
  {
    && schema.state != null && schema.state.held && schema.state.frees == 0 && schema.state.name == name.text
    && PrimitiveFormat(x.meta.dtype, x.meta.format) == Some(schema.state.format)
  }

  lemma NothingToBorrow(s: Store, name: Name)
    requires Inv(s)
    ensures name !in s.current ==> Apply(s, Op.Borrow(name)) == s
  {
  }

  method FinishExport(store: SharedStore, lease: Lease, info: Option<ArrayInfo>, format: string)
    returns (data: Option<ArrowCData>)
    requires store.Valid() && Inv(store.model) && store.Outstanding(lease)
    requires info.Some? ==> PrimitiveFormat(lease.exposed.meta.dtype, lease.exposed.meta.format) == Some(format)
    modifies store, store.tombs, store.objects.Values, store.closures.Values, lease
    ensures store.Valid() && Inv(store.model)
    ensures data.Some? <==> info.Some?
    ensures data.Some? ==>
              && store.model == old(store.model) && fresh(data.value) && data.value.store == store && !data.value.done
              && data.value.arr != null && fresh(data.value.arr) && data.value.schema != null && data.value.Valid()
              && data.value.arr.info == info && data.value.arr.lease == lease && store.Outstanding(lease)
              && Describes(data.value.schema, lease.exposed, lease.name)
    ensures data == None ==> store.model == Apply(old(store.model), Op.ReleaseLease(lease.id))
  {
    hide Inv, Apply, SharedStore.Valid, PrimitiveFormat;
    if info == None {
      var err := store.ReleaseLease(lease);
      return None;
    }
    var schema := new ExportedSchema();
    schema.state := new SchemaState(format, lease.name.text);
    var arr := new ExportedArray();
    arr.info, arr.lease := info, lease;
    var cdata := new ArrowCData(store, schema, arr);
    return Some(cdata);
  }
}
