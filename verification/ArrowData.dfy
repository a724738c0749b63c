/**
 Arrow C Data descriptors: importing an array takes over the duty to release it, or fulfils that duty at once;
 exporting lends a buffer of the store.
 */
module ArrowData {
  import opened Buffers
  import opened Descriptors
  import opened Layout
  import opened Options
  import opened RowMajor
  import opened SharedStore
  import opened StoreInv
  import opened StoreRuns
  import opened StoreSpec

  // ---------- formats

  /** Element sizes of the primitive formats; 0 for all others. */
  function ElementSize(format: string): (size: int64) {
    if format in ["c", "C"] then 1 else if format in ["s", "S"] then 2
    else if format in ["i", "I", "f"] then 4 else if format in ["l", "L", "g"] then 8 else 0
  }

  function DtypeOf(format: string): int {
    if format == "c" then 10 else if format == "C" then 11 else if format == "s" then 6 else if format == "S" then 7
    else if format == "i" then 1 else if format == "I" then 8 else if format == "l" then 2 else if format == "L" then 9
    else if format == "f" then 3 else if format == "g" then 4 else 0
  }

  /** The format under which a buffer is exported: the recorded one, or that of its dtype. */
  function PrimitiveFormat(dtype: int, recorded: string): Option<string> {
    if recorded != "" then (if ElementSize(recorded) > 0 then Some(recorded) else None)
    else if dtype == 0 then Some("C") else if dtype == 10 then Some("c") else if dtype == 11 then Some("C")
    else if dtype == 6 then Some("s") else if dtype == 7 then Some("S") else if dtype == 1 then Some("i")
    else if dtype == 8 then Some("I") else if dtype == 2 then Some("l") else if dtype == 9 then Some("L")
    else if dtype == 3 then Some("f") else if dtype == 4 then Some("g") else None
  }

  // ---------- what can be imported

  /** Flat primitive arrays whose byte sizes fit an int64. */
  predicate Importable(s: SchemaInfo, a: Produced) {
    && s.format.Some? && ElementSize(s.format.value) > 0
    && s.nChildren == 0 && !s.dictionary && a.nChildren == 0 && !a.dictionary
    && a.length >= 0 && a.offset >= 0 && a.nBuffers >= 2 && a.nullCount >= 0
    && (a.nullCount > 0 ==> !a.validity.Absent?) && (a.length > 0 ==> !a.values.Absent?)
    && a.length * ElementSize(s.format.value) <= MAX && a.offset * ElementSize(s.format.value) <= MAX
    && (a.nullCount > 0 ==> a.offset + a.length <= MAX)
  }

  /** The checks of an import, in the form in which the program makes them. */
  method CheckImport(s: SchemaInfo, a: Produced) returns (ok: bool)
    ensures ok <==> Importable(s, a)
  {
    if s.format == None {
      return false;
    }
    var elemSize := ElementSize(s.format.value);
    if elemSize <= 0 {
      return false;
    }
    if s.nChildren != 0 || s.dictionary || a.nChildren != 0 || a.dictionary {
      return false;
    }
    if a.length < 0 || a.offset < 0 || a.nBuffers < 2 || a.nullCount < 0 {
      return false;
    }
    if a.nullCount > 0 && a.validity.Absent? {
      return false;
    }
    if a.values.Absent? && a.length > 0 {
      return false;
    }
    QuotientTest(a.length, elemSize);
    QuotientTest(a.offset, elemSize);
    if a.length > MAX / elemSize || a.offset > MAX / elemSize {
      return false;
    }
    if a.nullCount > 0 && a.offset > MAX - a.length {
      return false;
    }
    return true;
  }

  lemma QuotientTest(n: int, size: int)
    requires n >= 0 && 1 <= size <= MAX
    ensures n > MAX / size <==> n * size > MAX
  {
    if n == 0 {
      assert 0 * size == 0;
    } else if n <= MAX {
      DivisionTest(size, n);
      assert n * size == size * n;
    } else {
      MulAtLeast(n, size);
    }
  }

  function ByteLen(s: SchemaInfo, a: Produced): int64
    requires Importable(s, a)
  {
    a.length * ElementSize(s.format.value)
  }

  function ByteOffset(s: SchemaInfo, a: Produced): int64
    requires Importable(s, a)
  {
    a.offset * ElementSize(s.format.value)
  }

  function BitmapLen(a: Produced): int64 {
    ValidityByteLen(a.offset, a.length, a.nullCount)
  }

  function MetaOf(s: SchemaInfo, a: Produced, ownership: string): Metadata
    requires Importable(s, a)
  {
    Metadata(DtypeOf(s.format.value), s.format.value, [], [], 0, a.nullCount, BitmapLen(a), a.offset, false,
             ownership, "")
  }

  /** The address of the first element of the window. */
  function WindowStart(s: SchemaInfo, a: Produced): Region
    requires Importable(s, a)
  {
    var base := if a.values.Foreign? then a.values.address else 0;
    if ByteOffset(s, a) > 0 then Foreign(base + ByteOffset(s, a)) else a.values
  }

  function TransferOf(name: Name, s: SchemaInfo, a: Produced, token: nat): Op
    requires Importable(s, a)
  {
    Op.SetExternal(name, WindowStart(s, a), ByteLen(s, a), a.validity, BitmapLen(a), MetaOf(s, a, "external"),
                   Some(Callback(token, false)))
  }

  /** The bitmap length of the array wraps around. */
  predicate BitmapWraps(a: Produced) {
    a.nullCount > 0 && a.length > 0 && a.offset + a.length > MAX - 7
  }

  /**
   Of the importable arrays the store takes all but those whose bitmap length has wrapped around: a nullable,
   non-empty array is refused if and only if its span of bits exceeds 2^63 - 8.
   */
  lemma TakenUnlessBitmapWraps(name: Name, s: SchemaInfo, a: Produced, token: nat)
    requires Importable(s, a)
    ensures var op := TransferOf(name, s, a, token);
            ImportOk(op.data, op.len, op.validity, op.validityLen, op.meta)
            <==> !BitmapWraps(a)
  {
    if a.nullCount > 0 && a.length > 0 { ValidityByteLenExact(a.offset, a.length, a.nullCount); }
    assert ByteLen(s, a) >= 0 by { SizeNotNegative(a.length, ElementSize(s.format.value)); }
    assert a.length == 0 ==> ByteLen(s, a) == 0;
    assert Admissible([]);
  }

  lemma SizeNotNegative(n: int, size: int)
    requires n >= 0 && size >= 0
    ensures n * size >= 0
  {
  }

  /** The bytes of the window, read from foreign memory. */
  function CopiedWindow(s: SchemaInfo, a: Produced, memory: nat -> bv8): (bytes: seq<bv8>)
    requires Importable(s, a)
    ensures |bytes| == ByteLen(s, a)
  {
    SizeNotNegative(a.length, ElementSize(s.format.value));
    SizeNotNegative(a.offset, ElementSize(s.format.value));
    var start := (if a.values.Foreign? then a.values.address else 0) + ByteOffset(s, a);
    seq(ByteLen(s, a), i requires i >= 0 => memory(start + i))
  }

  /** The bytes of the bitmap, from its first bit on. */
  function CopiedBitmap(a: Produced, memory: nat -> bv8): (bytes: seq<bv8>)
    ensures |bytes| == if BitmapLen(a) > 0 then BitmapLen(a) else 0
  {
    var start := if a.validity.Foreign? then a.validity.address else 0;
    if BitmapLen(a) > 0 then seq(BitmapLen(a), i requires i >= 0 => memory(start + i)) else []
  }

  function CopyOf(name: Name, s: SchemaInfo, a: Produced, memory: nat -> bv8): Op
    requires Importable(s, a)
  {
    Op.Set(name, CopiedWindow(s, a, memory), CopiedBitmap(a, memory), MetaOf(s, a, "omnivm"))
  }

  lemma CopiedUnlessBitmapWraps(s: SchemaInfo, a: Produced)
    requires Importable(s, a)
    ensures MetadataOk(MetaOf(s, a, "omnivm")) <==> !BitmapWraps(a)
  {
    if a.nullCount > 0 && a.length > 0 { ValidityByteLenExact(a.offset, a.length, a.nullCount); }
    assert Admissible([]);
  }

  /** An array that passes every check of an import and is refused by the store, moved or copied. */
  lemma AcceptedThenRefused(name: Name, token: nat)
    ensures var s, a := SchemaInfo(Some("c"), 0, false), ArrayInfo(1, 1, MAX - 1, 2, 0, false, Foreign(8), Foreign(16));
            && Importable(s, a) && !MetadataOk(MetaOf(s, a, "omnivm"))
            && var op := TransferOf(name, s, a, token); !ImportOk(op.data, op.len, op.validity, op.validityLen, op.meta)
  {
    var s, a := SchemaInfo(Some("c"), 0, false), ArrayInfo(1, 1, MAX - 1, 2, 0, false, Foreign(8), Foreign(16));
    assert ElementSize("c") == 1;
    TakenUnlessBitmapWraps(name, s, a, token);
    CopiedUnlessBitmapWraps(s, a);
  }

  // ---------- importing

  /**
   Who releases the producer's descriptors: nobody yet (the call was refused), the import itself, or the store,
   which runs the closure `moved`: at once if it rejects the array, and later otherwise.
   */
  datatype Outcome = Refused | ReleasedNow | Moved(moved: MovedArray)

  class Importer {
    const store: SharedStore

    constructor (store: SharedStore)
      ensures this.store == store
    {
      this.store := store;
    }

    ghost predicate Valid()
      reads store, store.tombs, store.objects.Values, store.issued.Values, store.closures.Values
    {
      store.Valid() && Inv(store.model)
    }

    /** Gives up on descriptors that still belong to the caller. */
    method ReleaseOriginals(schema: ArrowSchema, arr: ArrowArray)
      modifies schema, arr
      ensures !schema.live && schema.released == old(schema.released) + if old(schema.live) then 1 else 0
      ensures !arr.live && arr.released == old(arr.released) + if old(arr.live) then 1 else 0
    {
      arr.ReleaseIfLive();
      schema.ReleaseIfLive();
    }

    /**
     Moves a releasable array into the store, with a closure over copies of the descriptors; the originals are
     marked as released. A rejected array is released before the call returns, through the closure.
     */
    method MoveIn(name: Name, schema: ArrowSchema, arr: ArrowArray, token: nat)
      returns (moved: MovedArray, err: Option<StoreError>)
      requires Valid() && Importable(schema.info, arr.info) && arr.live && token !in store.model.fates
      modifies schema, arr, store, store.tombs, store.objects.Values, store.closures.Values
      ensures Valid() && !schema.live && !arr.live
      ensures schema.released == old(schema.released) && arr.released == old(arr.released)
      ensures fresh(moved) && moved.token == token && moved.hadArray && moved.hadSchema == old(schema.live)
      ensures moved.HasRun(if BitmapWraps(arr.info) then 1 else 0)
      ensures store.closures == old(store.closures)[token := moved]
      ensures store.model == Apply(old(store.model), TransferOf(name, schema.info, arr.info, token))
      ensures err == if BitmapWraps(arr.info) then Some(Invalid)
                     else if PublishFails(old(store.model), name) then Some(ReleaseFailed) else None
    {
      hide Inv, Apply, ImportOk, Importable, BitmapWraps, ValidityByteLen, SharedStore.Valid, PublishFails;
      hide MovedArray.HasRun;
      moved := new MovedArray(schema.live, arr.live, token);
      arr.live := false;
      schema.live := false;
      var op := TransferOf(name, schema.info, arr.info, token);
      TakenUnlessBitmapWraps(name, schema.info, arr.info, token);
      err := store.SetExternal(name, op.data, op.len, op.validity, op.validityLen, op.meta, op.release, moved);
    }

    /** Copies an array whose descriptor owns nothing. */
    method CopyIn(name: Name, s: SchemaInfo, a: Produced, memory: nat -> bv8) returns (err: Option<StoreError>)
      requires Valid() && Importable(s, a)
      modifies store, store.tombs, store.objects.Values, store.closures.Values
      ensures Valid() && store.closures == old(store.closures)
      ensures store.model == Apply(old(store.model), CopyOf(name, s, a, memory))
      ensures err == if BitmapWraps(a) then Some(Invalid)
                     else if PublishFails(old(store.model), name) then Some(ReleaseFailed) else None
    {
      hide Inv, Apply, MetadataOk, Importable, ValidityByteLen, SharedStore.Valid, PublishFails;
      var op := CopyOf(name, s, a, memory);
      CopiedUnlessBitmapWraps(s, a);
      err := store.Set(name, op.bytes, op.bitmap, op.meta);
    }

    /**
     Imports an array. With a name and two descriptors, the descriptors end up released in every case; each
     callback of the producer has run once, or is left to the closure that the store holds for it.
     */
    method ImportCArrowArray(name: Name, schema: ArrowSchema?, arr: ArrowArray?, token: nat, memory: nat -> bv8,
                             copiesFail: bool)
      returns (err: bool, ghost outcome: Outcome)
      requires Valid() && token !in store.model.fates
      modifies store, store.tombs, store.objects.Values, store.closures.Values, schema, arr
      ensures Valid()
      ensures name.text == "" || schema == null || arr == null <==> outcome == Refused
      ensures outcome == Refused ==> err && store.model == old(store.model)
      ensures outcome == Refused && schema != null ==>
                schema.live == old(schema.live) && schema.released == old(schema.released)
      ensures outcome == Refused && arr != null ==> arr.live == old(arr.live) && arr.released == old(arr.released)
      ensures outcome != Refused ==> !schema.live && !arr.live
      ensures outcome == ReleasedNow ==>
                && arr.released == old(arr.released) + (if old(arr.live) then 1 else 0)
                && schema.released == old(schema.released) + (if old(schema.live) then 1 else 0)
      ensures !outcome.Moved? ==> store.closures == old(store.closures)
      ensures outcome.Moved? ==>
                && Importable(schema.info, arr.info) && old(arr.live)
                && arr.released == old(arr.released) && schema.released == old(schema.released)
                && outcome.moved.token == token && store.closures == old(store.closures)[token := outcome.moved]
                && outcome.moved.hadArray && outcome.moved.hadSchema == old(schema.live)
                && outcome.moved.HasRun(if BitmapWraps(arr.info) then 1 else 0)
                && store.model == Apply(old(store.model), TransferOf(name, schema.info, arr.info, token))
                && (err <==> BitmapWraps(arr.info) || PublishFails(old(store.model), name))
      ensures outcome.Moved? <==>
                outcome != Refused && Importable(schema.info, arr.info) && old(arr.live) && !copiesFail
      ensures outcome == ReleasedNow && (!Importable(schema.info, arr.info) || old(arr.live)) ==>
                err && store.model == old(store.model)
      ensures outcome == ReleasedNow && Importable(schema.info, arr.info) && !old(arr.live) ==>
                && store.model == Apply(old(store.model), CopyOf(name, schema.info, arr.info, memory))
                && (err <==> BitmapWraps(arr.info) || PublishFails(old(store.model), name))
    {
      hide Inv, Apply, Importable, TransferOf, CopyOf, SharedStore.Valid, PublishFails, BitmapWraps, MovedArray.HasRun;
      if name.text == "" || schema == null || arr == null {
        return true, Refused;
      }
      var ok := CheckImport(schema.info, arr.info);
      if !ok || (arr.live && copiesFail) {
        ReleaseOriginals(schema, arr);
        return true, ReleasedNow;
      }
      var problem;
      if arr.live {
        var moved;
        moved, problem := MoveIn(name, schema, arr, token);
        return problem.Some?, Moved(moved);
      }
      problem := CopyIn(name, schema.info, arr.info, memory);
      ReleaseOriginals(schema, arr);
      return problem.Some?, ReleasedNow;
    }
  }

  /** The callback of a transfer that the store refuses runs at once. */
  lemma RefusedTransferIsReleased(s: Store, name: Name, si: SchemaInfo, a: Produced, token: nat)
    requires Inv(s) && token !in s.fates && Importable(si, a) && BitmapWraps(a)
    ensures Times(Apply(s, TransferOf(name, si, a, token)), token) == 1
  {
    var op := TransferOf(name, si, a, token);
    TakenUnlessBitmapWraps(name, si, a, token);
    hide Inv, ImportOk, Publish, Importable, Described, BitmapWraps, TransferOf;
    TransferRelease(name, si, a, token);
    assert op.release == Some(Callback(token, false)) && Fresh(s, op.release);
    assert Apply(s, op) == Reject(s, op.release);
  }

  lemma TransferRelease(name: Name, si: SchemaInfo, a: Produced, token: nat)
    requires Importable(si, a)
    ensures TransferOf(name, si, a, token).SetExternal? && TransferOf(name, si, a, token).name == name
    ensures TransferOf(name, si, a, token).release == Some(Callback(token, false))
  {
  }

  /**
   What becomes of a moved array, over every later run: the store runs the closure that holds the copied
   descriptors exactly once; at once if it rejects the array, and otherwise as soon as no owner, borrow or
   direct reference holds the buffer.
   */
  lemma MovedArrayIsReleasedOnce(s: Store, name: Name, si: SchemaInfo, a: Produced, token: nat, ops: seq<Op>)
    requires Inv(s) && token !in s.fates && Importable(si, a)
    ensures var taken := Apply(s, TransferOf(name, si, a, token));
            && Inv(taken) && token in Run(taken, ops).fates
            && Times(Run(taken, ops), token) == (if Guarded(Run(taken, ops), token) then 0 else 1)
            && (BitmapWraps(a) ==> Times(taken, token) == 1)
  {
    hide Inv, Run, Guarded, TransferOf, Importable, Apply, BitmapWraps, Times;
    var op := TransferOf(name, si, a, token);
    TransferRelease(name, si, a, token);
    ApplyInv(s, op);
    PublishOpFates(s, op);
    CallbackStaysExactlyOnce(Apply(s, op), ops, token);
    if BitmapWraps(a) { RefusedTransferIsReleased(s, name, si, a, token); }
  }
}
