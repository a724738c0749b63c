/** What an import of an Arrow C Data array followed by an export preserves. */
module ArrowRoundTrip {
  import opened ArrowData
  import opened ArrowExport
  import opened Buffers
  import opened Descriptors
  import opened Layout
  import opened Options
  import opened RowMajor
  import opened StoreInv
  import opened StoreRuns
  import opened StoreSpec

  // ---------- what the store holds after an import

  /** How an array gets into the store: moved under a release callback, or copied out of foreign memory. */
  datatype Import = Moving(token: nat) | Copying

  ghost function ImportOf(name: Name, s: SchemaInfo, a: Produced, how: Import, memory: nat -> bv8): Op
    requires Importable(s, a)
  {
    match how
    case Moving(token) => TransferOf(name, s, a, token)
    case Copying => CopyOf(name, s, a, memory)
  }

  ghost function Imported(s: SchemaInfo, a: Produced, how: Import, memory: nat -> bv8): View
    requires Importable(s, a)
  {
    match how
    case Moving(_) => Described(WindowStart(s, a), ByteLen(s, a), a.validity, BitmapLen(a), MetaOf(s, a, "external"))
    case Copying =>
      var bitmap := CopiedBitmap(a, memory);
      Described(Bytes(CopiedWindow(s, a, memory)), ByteLen(s, a), Bytes(bitmap), |bitmap|, MetaOf(s, a, "omnivm"))
  }

  lemma PublishedView(s: Store, name: Name, view: View, release: Option<Callback>)
    requires name in s.current ==> s.current[name] in s.slots
    ensures var s' := Publish(s, name, view, release);
            name in s'.current && s'.current[name] in s'.slots && s'.slots[s'.current[name]].view == view
  {
    hide Forget, Fire;
    forall t, cb ensures Fire(t, name, cb).slots == t.slots && Fire(t, name, cb).current == t.current {
      FireKeepsSlots(t, name, cb);
      FireTombs(t, name, cb);
    }
  }

  lemma MoveStores(s: Store, name: Name, si: SchemaInfo, a: Produced, token: nat, memory: nat -> bv8)
    requires Inv(s) && Importable(si, a) && !BitmapWraps(a) && token !in s.fates
    ensures Stores(Apply(s, TransferOf(name, si, a, token)), name, Imported(si, a, Moving(token), memory))
  {
    hide Inv, Publish, Described, Importable, ImportOk, BitmapWraps, WindowStart, ByteLen, BitmapLen, MetaOf;
    var op := TransferOf(name, si, a, token);
    TakenUnlessBitmapWraps(name, si, a, token);
    CurrentExists(s, name);
    PublishedView(s, name, Imported(si, a, Moving(token), memory), op.release);
  }

  lemma CopyStores(s: Store, name: Name, si: SchemaInfo, a: Produced, memory: nat -> bv8)
    requires Inv(s) && Importable(si, a) && !BitmapWraps(a)
    ensures Stores(Apply(s, CopyOf(name, si, a, memory)), name, Imported(si, a, Copying, memory))
  {
    hide Inv, Publish, Described, Importable, MetadataOk, BitmapWraps, CopiedWindow, CopiedBitmap, BitmapLen, MetaOf;
    CopiedUnlessBitmapWraps(si, a);
    CurrentExists(s, name);
    PublishedView(s, name, Imported(si, a, Copying, memory), None);
  }

  /** The current buffer of the name holds the view. */
  ghost predicate Stores(s: Store, name: Name, view: View) {
    name in s.current && s.current[name] in s.slots && s.slots[s.current[name]].view == view
  }

  /** An import that the store does not refuse leaves exactly the imported view under the name. */
  lemma ImportStores(s: Store, name: Name, si: SchemaInfo, a: Produced, how: Import, memory: nat -> bv8)
    requires Inv(s) && Importable(si, a) && !BitmapWraps(a) && (how.Moving? ==> how.token !in s.fates)
    ensures Stores(Apply(s, ImportOf(name, si, a, how, memory)), name, Imported(si, a, how, memory))
  {
    hide Inv, Apply, Imported, Importable, BitmapWraps, Stores, TransferOf, CopyOf;
    if how.Moving? {
      MoveStores(s, name, si, a, how.token, memory);
    } else {
      CopyStores(s, name, si, a, memory);
    }
  }

  // ---------- what an array says about its elements

  /** A byte of a region; foreign regions are read from memory. */
  function ByteAt(memory: nat -> bv8, r: Region, k: nat): bv8 {
    match r
    case Absent => 0
    case Bytes(bytes) => if k < |bytes| then bytes[k] else 0
    case Foreign(address) => memory(address + k)
  }

  function Mask(p: nat): bv8 {
    if p == 0 then 1 else if p == 1 then 2 else if p == 2 then 4 else if p == 3 then 8
    else if p == 4 then 16 else if p == 5 then 32 else if p == 6 then 64 else 128
  }

  /** Byte `k` of element `i`. */
  function ElementByte(memory: nat -> bv8, a: ArrayInfo, size: nat, i: nat, k: nat): bv8
    requires a.offset >= 0
  {
    ByteAt(memory, a.values, Position(a.offset + i, size, k))
  }

  /** Where byte `k` of element `i` is. */
  function Position(i: nat, size: nat, k: nat): nat {
    SizeNotNegative(i, size);
    i * size + k
  }

  /** Element `i` is not null: there are no nulls, or its bit is set. */
  predicate IsValid(memory: nat -> bv8, a: ArrayInfo, i: nat)
    requires a.offset >= 0
  {
    a.nullCount <= 0 || BitSet(memory, a.validity, a.offset + i)
  }

  predicate BitSet(memory: nat -> bv8, r: Region, p: nat) {
    ByteAt(memory, r, p / 8) & Mask(p % 8) != 0
  }

  // ---------- round trip

  lemma Basics(s: SchemaInfo, a: Produced)
    requires Importable(s, a)
    ensures s.format.Some? && a.length >= 0 && a.offset >= 0 && a.nullCount >= 0
    ensures a.nullCount > 0 ==> a.validity.Foreign?
  {
    hide ElementSize;
  }

  lemma WindowIsWhole(s: SchemaInfo, a: Produced)
    requires Importable(s, a)
    ensures var size := ElementSize(s.format.value);
            && 0 <= ByteLen(s, a) <= MAX && ByteLen(s, a) % size == 0 && ByteLen(s, a) / size == a.length
            && (a.length > 0 ==> ByteLen(s, a) > 0)
            && Viewable(0, [], [], ByteLen(s, a), size)
  {
    var size := ElementSize(s.format.value);
    SizeNotNegative(a.length, size);
    QuotientOfProduct(size, a.length);
    assert a.length * size == size * a.length;
    if a.length > 0 { MulAtLeast(a.length, size); }
  }

  lemma NonEmptyFormat(format: string)
    requires ElementSize(format) > 0
    ensures format != "" && forall dtype :: PrimitiveFormat(dtype, format) == Some(format)
  {
  }

  /** What is exposed of an imported array. */
  lemma ImportExposes(s: SchemaInfo, a: Produced, how: Import, memory: nat -> bv8)
    requires Importable(s, a) && !BitmapWraps(a)
    ensures var x := Expose(Imported(s, a, how, memory));
            && x.len == ByteLen(s, a) && x.meta.shape == [] && x.meta.strides == [] && x.meta.offset == 0
            && x.meta.nullCount == a.nullCount && x.meta.format == s.format.value
            && (a.length > 0 ==> x.data == if how.Moving? then WindowStart(s, a) else Bytes(CopiedWindow(s, a, memory)))
            && (a.nullCount > 0 ==>
                  x.validity == if a.length == 0 then Absent
                                else if how.Moving? then a.validity else Bytes(CopiedBitmap(a, memory)))
  {
    WindowIsWhole(s, a);
    if a.nullCount > 0 && a.length > 0 { ValidityByteLenExact(a.offset, a.length, a.nullCount); }
    hide Importable, ElementSize, Viewable, ByteLen, CopiedWindow, CopiedBitmap;
  }

  /**
   An imported array can be exported again unless it claims nulls but has no elements; it comes back with the
   same length, null count and format.
   */
  lemma ImportThenExport(s: SchemaInfo, a: Produced, how: Import, memory: nat -> bv8)
    requires Importable(s, a) && !BitmapWraps(a)
    ensures var x := Expose(Imported(s, a, how, memory));
            && 0 <= x.len <= MAX && PrimitiveFormat(x.meta.dtype, x.meta.format) == s.format
            && (Exportable(x) <==> a.nullCount == 0 || a.length > 0)
            && (Exportable(x) ==>
                  var b := ExportOf(x);
                  b.length == a.length && b.nullCount == a.nullCount && b.offset == 0 && b.values == x.data
                  && (a.nullCount > 0 ==> b.validity == x.validity))
  {
    ImportExposes(s, a, how, memory);
    WindowIsWhole(s, a);
    NonEmptyFormat(s.format.value);
    hide Importable, Viewable, ElementSize, Expose, Imported, ByteLen, WindowStart, CopiedWindow, CopiedBitmap;
  }

  lemma PositionInWindow(offset: nat, length: nat, i: nat, size: nat, k: nat)
    requires i < length && k < size
    ensures offset * size >= 0 && Position(offset + i, size, k) == offset * size + Position(i, size, k)
    ensures Position(i, size, k) < length * size
  {
    SizeNotNegative(offset, size);
    assert (offset + i) * size == offset * size + i * size;
    assert (i + 1) * size <= length * size by { SizeNotNegative(length - i - 1, size); }
  }

  /** A byte of the window, moved or copied, is that of the foreign memory. */
  lemma WindowByte(s: SchemaInfo, a: Produced, how: Import, memory: nat -> bv8, p: nat)
    requires Importable(s, a) && a.length > 0 && ByteOffset(s, a) >= 0 && p < ByteLen(s, a)
    ensures ByteAt(memory, if how.Moving? then WindowStart(s, a) else Bytes(CopiedWindow(s, a, memory)), p)
         == ByteAt(memory, a.values, ByteOffset(s, a) + p)
  {
    hide ElementSize;
  }

  /** Every byte of every element survives the round trip. */
  lemma ElementsSurvive(s: SchemaInfo, a: Produced, how: Import, memory: nat -> bv8, i: nat, k: nat)
    requires Importable(s, a) && !BitmapWraps(a) && (a.nullCount == 0 || a.length > 0)
    requires i < a.length && k < ElementSize(s.format.value)
    ensures var x := Expose(Imported(s, a, how, memory));
            && 0 <= x.len <= MAX && Exportable(x)
            && ElementByte(memory, ExportOf(x), ElementSize(s.format.value), i, k)
            == ElementByte(memory, a, ElementSize(s.format.value), i, k)
  {
    hide Importable, Exportable, ExportOf, Expose, Imported, ElementSize;
    hide PrimitiveFormat, BitmapWraps, Position, ByteAt;
    hide WindowStart, CopiedWindow;
    Basics(s, a);
    var size := ElementSize(s.format.value);
    ImportThenExport(s, a, how, memory);
    ImportExposes(s, a, how, memory);
    PositionInWindow(a.offset, a.length, i, size, k);
    hide ByteOffset, ByteLen;
    WindowByte(s, a, how, memory, Position(i, size, k));
  }

  /** A memory in which the bit at position `p` behind an address is set, and no other. */
  function OneBit(address: nat, p: nat): nat -> bv8 {
    k => if k == address + p / 8 then Mask(p % 8) else 0
  }

  lemma OneBitIsSet(address: nat, p: nat)
    ensures BitSet(OneBit(address, p), Foreign(address), p)
    ensures p > 0 ==> !BitSet(OneBit(address, p), Foreign(address), 0)
  {
    var memory := OneBit(address, p);
    assert memory(address + p / 8) == Mask(p % 8);
    if p > 0 {
      assert memory(address + 0) & Mask(0) == 0;
    }
  }

  /** The copied bitmap reads as the foreign one, up to the last bit of the window. */
  lemma CopiedBit(s: SchemaInfo, a: Produced, memory: nat -> bv8, p: nat)
    requires Importable(s, a) && !BitmapWraps(a) && a.nullCount > 0 && p < a.offset + a.length && a.length > 0
    ensures BitSet(memory, Bytes(CopiedBitmap(a, memory)), p) <==> BitSet(memory, a.validity, p)
  {
    hide Importable, ValidityByteLen, Mask;
    Basics(s, a);
    ValidityByteLenExact(a.offset, a.length, a.nullCount);
    InByte(p, a.offset + a.length, BitmapLen(a));
  }

  lemma InByte(p: nat, bits: nat, bytes: int)
    requires p < bits <= bytes * 8
    ensures 0 <= p / 8 < bytes
  {
  }

  /** The bit of an element after the round trip: no offset is handed on. */
  lemma BitAfter(s: SchemaInfo, a: Produced, how: Import, memory: nat -> bv8, i: nat)
    requires Importable(s, a) && !BitmapWraps(a) && (a.nullCount == 0 || a.length > 0) && i < a.length
    ensures var x := Expose(Imported(s, a, how, memory));
            && 0 <= x.len <= MAX && Exportable(x)
            && (IsValid(memory, ExportOf(x), i) <==> IsValid(memory, a.(offset := 0), i))
  {
    hide Importable, Exportable, ExportOf, Expose, Imported, BitmapWraps, ElementSize, BitSet;
    Basics(s, a);
    ImportThenExport(s, a, how, memory);
    ImportExposes(s, a, how, memory);
    if a.nullCount > 0 { CopiedBit(s, a, memory, i); }
  }

  /**
   The validity of the elements survives the round trip, whatever the bitmap says, exactly when there are no
   nulls or the window starts at the first element: an export does not hand on the bit offset of an import.
   */
  lemma ValiditySurvivesIff(s: SchemaInfo, a: Produced, how: Import)
    requires Importable(s, a) && !BitmapWraps(a) && (a.nullCount == 0 || a.length > 0)
    ensures (forall memory: nat -> bv8, i: nat | i < a.length ::
               ValidAfter(s, a, how, memory, i) <==> IsValid(memory, a, i))
            <==> a.nullCount == 0 || a.offset == 0
  {
    hide Importable, ValidAfter, BitmapWraps, OneBit, BitSet;
    Basics(s, a);
    forall memory: nat -> bv8, i: nat | i < a.length
      ensures ValidAfter(s, a, how, memory, i) <==> IsValid(memory, a.(offset := 0), i)
    {
      ValidAfterIs(s, a, how, memory, i);
    }
    if a.nullCount > 0 && a.offset > 0 {
      var memory := OneBit(a.validity.address, a.offset);
      OneBitIsSet(a.validity.address, a.offset);
      assert ValidAfter(s, a, how, memory, 0) != IsValid(memory, a, 0);
    }
  }

  lemma ValidAfterIs(s: SchemaInfo, a: Produced, how: Import, memory: nat -> bv8, i: nat)
    requires Importable(s, a) && !BitmapWraps(a) && (a.nullCount == 0 || a.length > 0) && i < a.length
    ensures ValidAfter(s, a, how, memory, i) <==> IsValid(memory, a.(offset := 0), i)
  {
    BitAfter(s, a, how, memory, i);
    hide IsValid, BitmapWraps, Importable, ExportOf, Expose, Imported;
  }

  /** Whether element `i` of the array that comes back is not null. */
  ghost predicate ValidAfter(s: SchemaInfo, a: Produced, how: Import, memory: nat -> bv8, i: nat)
    requires Importable(s, a) && !BitmapWraps(a) && (a.nullCount == 0 || a.length > 0)
  {
    ImportThenExport(s, a, how, memory);
    IsValid(memory, ExportOf(Expose(Imported(s, a, how, memory))), i)
  }

  // ---------- the two exceptions

  /** Three int32 from the second of a window on, one of them null: the bits that come back are others. */
  lemma OffsetLosesValidity(how: Import)
    ensures var s, a := SchemaInfo(Some("i"), 0, false), ArrayInfo(3, 1, 1, 2, 0, false, Foreign(8), Foreign(16));
            && Importable(s, a) && !BitmapWraps(a)
            && exists memory: nat -> bv8 :: ValidAfter(s, a, how, memory, 0) != IsValid(memory, a, 0)
  {
    var s, a := SchemaInfo(Some("i"), 0, false), ArrayInfo(3, 1, 1, 2, 0, false, Foreign(8), Foreign(16));
    assert ElementSize("i") == 4;
    var memory := OneBit(8, 1);
    BitAfter(s, a, how, memory, 0);
    assert ValidAfter(s, a, how, memory, 0) != IsValid(memory, a, 0);
  }

  /** An empty int32 array that claims nulls is imported, and cannot be exported again. */
  lemma NullsWithoutElements(how: Import, memory: nat -> bv8)
    ensures var s, a := SchemaInfo(Some("i"), 0, false), ArrayInfo(0, 5, 0, 2, 0, false, Foreign(8), Foreign(16));
            && Importable(s, a) && !BitmapWraps(a)
            && var x := Expose(Imported(s, a, how, memory)); 0 <= x.len <= MAX && !Exportable(x)
  {
    var s, a := SchemaInfo(Some("i"), 0, false), ArrayInfo(0, 5, 0, 2, 0, false, Foreign(8), Foreign(16));
    assert ElementSize("i") == 4;
    ImportThenExport(s, a, how, memory);
  }
}
