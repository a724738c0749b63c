/** What the formats, windows and metadata of imported and exported arrays mean, in terms of bytes and elements. */
module ArrowLaws {
  import opened ArrowData
  import opened ArrowExport
  import opened ArrowRoundTrip
  import opened Buffers
  import opened Descriptors
  import opened Layout
  import opened Options
  import opened RowMajor

  // ---------- formats

  /** A primitive type of the Arrow C Data Interface: its format string, the code of the store, and its width. */
  datatype Primitive = Primitive(format: string, dtype: int, bits: int)

  /** The signed and unsigned integers and the floating-point types, by width. */
  const PRIMITIVES := [
    Primitive("c", 10, 8), Primitive("C", 11, 8), Primitive("s", 6, 16), Primitive("S", 7, 16), Primitive("i", 1, 32),
    Primitive("I", 8, 32), Primitive("l", 2, 64), Primitive("L", 9, 64), Primitive("f", 3, 32), Primitive("g", 4, 64)]

  /** An element takes its width in bytes, and the code stands for its format, if none is recorded. */
  predicate Agrees(p: Primitive) {
    ElementSize(p.format) * 8 == p.bits && DtypeOf(p.format) == p.dtype
      && PrimitiveFormat(p.dtype, "") == Some(p.format)
  }

  lemma FormatAt(i: nat)
    requires i < |PRIMITIVES|
    ensures Agrees(PRIMITIVES[i])
  {
    if i < 4 {
    } else if i < 7 {
    } else {
    }
  }

  /** The position of a primitive format in the table. */
  lemma Listed(format: string) returns (i: nat)
    ensures ElementSize(format) != 0 || DtypeOf(format) != 0 ==> i < |PRIMITIVES| && PRIMITIVES[i].format == format
  {
    i := if format == "c" then 0 else if format == "C" then 1 else if format == "s" then 2 else if format == "S" then 3
         else if format == "i" then 4 else if format == "I" then 5 else if format == "l" then 6
         else if format == "L" then 7 else if format == "f" then 8 else 9;
  }

  lemma ListedCode(dtype: int) returns (i: nat)
    ensures dtype != 0 && PrimitiveFormat(dtype, "").Some? ==> i < |PRIMITIVES| && PRIMITIVES[i].dtype == dtype
  {
    i := if dtype == 10 then 0 else if dtype == 11 then 1 else if dtype == 6 then 2 else if dtype == 7 then 3
         else if dtype == 1 then 4 else if dtype == 8 then 5 else if dtype == 2 then 6
         else if dtype == 9 then 7 else if dtype == 3 then 8 else 9;
  }

  /**
   Formats, type codes and sizes agree with the table, and no other format or code is primitive. Untyped bytes are
   exported as unsigned bytes, and a recorded format counts more than the code.
   */
  lemma FormatsAgree(format: string, dtype: int)
    ensures forall p :: p in PRIMITIVES ==> Agrees(p)
    ensures (forall p :: p in PRIMITIVES ==> p.format != format) ==> ElementSize(format) == 0 && DtypeOf(format) == 0
    ensures PrimitiveFormat(0, "") == Some("C")
    ensures dtype != 0 && (forall p :: p in PRIMITIVES ==> p.dtype != dtype) ==> PrimitiveFormat(dtype, "") == None
    ensures format != "" ==> PrimitiveFormat(dtype, format) == if ElementSize(format) > 0 then Some(format) else None
  {
    assert PrimitiveFormat(0, "") == Some("C");
    assert format != "" ==> PrimitiveFormat(dtype, format) == if ElementSize(format) > 0 then Some(format) else None;
    hide ElementSize, DtypeOf, PrimitiveFormat, PRIMITIVES, Agrees;
    forall p | p in PRIMITIVES ensures Agrees(p) {
      var i: nat :| i < |PRIMITIVES| && PRIMITIVES[i] == p;
      FormatAt(i);
    }
    var i := Listed(format);
    var j := ListedCode(dtype);
  }

  // ---------- windows

  /** The element size of a buffer that can be exported. */
  function SizeOf(x: Exposed): int64
    requires 0 <= x.len <= MAX && Exportable(x)
  {
    ElementSize(PrimitiveFormat(x.meta.dtype, x.meta.format).value)
  }

  lemma ElementInside(offset: nat, n: nat, size: nat, len: nat, i: nat, k: nat)
    requires offset + n * size <= len && i < n && k < size
    ensures offset + Position(i, size, k) < len
  {
    PositionInWindow(0, n, i, size, k);
  }

  lemma OffsetInElements(offset: nat, size: nat, i: nat, k: nat)
    requires size > 0 && offset % size == 0
    ensures (offset / size) * size == offset && Position(offset / size + i, size, k) == offset + Position(i, size, k)
  {
    var q := offset / size;
    assert offset == q * size + offset % size;
    assert (q + i) * size == q * size + i * size;
  }

  lemma ViewFits(x: Exposed)
    requires 0 <= x.len <= MAX && Exportable(x)
    ensures 1 <= SizeOf(x) <= 8 && 0 <= x.meta.offset && x.meta.offset % SizeOf(x) == 0
    ensures ExportOf(x).length >= 0 && x.meta.offset + ExportOf(x).length * SizeOf(x) <= x.len
    ensures x.meta.shape == [] ==> x.meta.offset + ExportOf(x).length * SizeOf(x) == x.len
  {
    FormatsHaveSizes(x.meta.dtype, x.meta.format);
    var size := SizeOf(x);
    ViewLengthFits(x.meta.offset, x.meta.shape, x.meta.strides, x.len, size);
    if x.meta.shape == [] {
      var rest := x.len - x.meta.offset;
      assert rest == (rest / size) * size + rest % size;
    }
    hide PrimitiveFormat, ElementSize;
  }

  /**
   An exported array is the window of the buffer that its metadata describes: element `i` is read at the offset plus
   `i` elements, inside the buffer; without a shape the window reaches to the end.
   */
  lemma ExportedWindow(x: Exposed, memory: nat -> bv8, i: nat, k: nat)
    requires 0 <= x.len <= MAX && Exportable(x)
    ensures var b, size := ExportOf(x), SizeOf(x);
            && 1 <= size <= 8 && b.offset * size == x.meta.offset && b.offset >= 0 && b.values == x.data
            && (k < size ==> ElementByte(memory, b, size, i, k) == ByteAt(memory, x.data, x.meta.offset + i * size + k))
            && (i < b.length && k < size ==> x.meta.offset + i * size + k < x.len)
            && (x.meta.shape == [] ==> (b.offset + b.length) * size == x.len)
  {
    ViewFits(x);
    var b, size := ExportOf(x), SizeOf(x);
    OffsetInElements(x.meta.offset, size, i, k);
    OffsetInElements(x.meta.offset, size, b.length, 0);
    if i < b.length && k < size { ElementInside(x.meta.offset, b.length, size, x.len, i, k); }
    hide Exportable, PrimitiveFormat, ElementSize, ByteAt;
  }

  /** How many elements: all dimensions multiplied, none if one of them is zero; the null count and bits go along. */
  lemma ExportedElements(x: Exposed, memory: nat -> bv8, i: nat)
    requires 0 <= x.len <= MAX && Exportable(x)
    ensures var b := ExportOf(x);
            && (x.meta.shape != [] && Positive(x.meta.shape) ==> b.length == Product(x.meta.shape))
            && (0 in x.meta.shape ==> b.length == 0)
            && b.nullCount == x.meta.nullCount && b.offset >= 0
            && (IsValid(memory, b, i) <==> x.meta.nullCount <= 0 || BitSet(memory, x.validity, b.offset + i))
            && b.nBuffers == 2 && b.nChildren == 0 && !b.dictionary
  {
    ViewFits(x);
    ExportedWindow(x, memory, 0, 0);
    if 0 in x.meta.shape { ZeroDimension(x.meta.shape); }
    hide PrimitiveFormat, ElementSize, BitSet, Viewable;
  }

  lemma {:induction false} ZeroDimension(shape: seq<int64>)
    requires 0 in shape
    ensures Product(shape) == 0
  {
    if shape[0] != 0 {
      ZeroDimension(shape[1..]);
    }
  }

  /** Without a shape, a window of whole elements at an element offset can be viewed, and nothing else. */
  lemma FlatViewIff(offset: int64, byteLen: int64, e: int64)
    requires e > 0
    ensures Viewable(offset, [], [], byteLen, e) <==> exists m: nat, n: nat :: Window(offset, byteLen, e, m, n)
  {
    if Viewable(offset, [], [], byteLen, e) {
      OffsetInElements(offset, e, 0, 0);
      OffsetInElements(byteLen - offset, e, 0, 0);
      assert Window(offset, byteLen, e, offset / e, (byteLen - offset) / e);
    }
    if m: nat, n: nat :| Window(offset, byteLen, e, m, n) {
      SizeNotNegative(m, e);
      SizeNotNegative(n, e);
      QuotientOfProduct(e, m);
      QuotientOfProduct(e, n);
    }
  }

  /** `m` elements before the window, `n` in it, and nothing behind it. */
  predicate Window(offset: int, byteLen: int, e: int, m: nat, n: nat) {
    offset == m * e && byteLen == offset + n * e
  }

  /** With a positive shape, the elements of an aligned window must fit, in row-major order. */
  lemma ShapedViewIff(offset: int64, shape: seq<int64>, strides: seq<int64>, byteLen: int64, e: int64)
    requires e > 0 && shape != [] && Positive(shape)
    ensures Viewable(offset, shape, strides, byteLen, e) <==>
              && offset >= 0 && offset % e == 0 && offset <= byteLen && Product(shape) <= MAX
              && offset + Product(shape) * e <= byteLen
              && (strides == [] || (|strides| == |shape| && forall j :: 0 <= j < |shape| ==>
                strides[j] == e * Product(shape[j + 1..])))
  {
    BeforeZeroPrefix(shape, |shape|);
    assert shape[..|shape|] == shape;
  }

  // ---------- what an import records

  /** The metadata of an imported array: its type, its nulls and the position of its first bit. */
  lemma ImportedMetadata(s: SchemaInfo, a: Produced, how: Import, memory: nat -> bv8)
    requires Importable(s, a) && !BitmapWraps(a)
    ensures var x := Expose(Imported(s, a, how, memory));
            && x.meta.format == s.format.value && x.meta.dtype == DtypeOf(s.format.value)
            && x.meta.nullCount == a.nullCount && x.meta.validityBitOffset == a.offset
            && x.meta.ownership == (if how.Moving? then "external" else "omnivm") && x.meta.memorySpace == "host"
            && !x.meta.readOnly
            && (a.nullCount > 0 && a.length > 0 ==> x.validityLen * 8 - 8 < a.offset + a.length <= x.validityLen * 8)
  {
    if a.nullCount > 0 && a.length > 0 { ValidityByteLenExact(a.offset, a.length, a.nullCount); }
    hide Importable, ElementSize, DtypeOf;
  }

  // ---------- what an import refuses

  /** An array of three int32 with a null, and what makes it unfit for an import: each defect alone suffices. */
  lemma Refusals()
    ensures var s := SchemaInfo(Some("i"), 0, false);
            var a := ArrayInfo(3, 1, 1, 2, 0, false, Foreign(8), Foreign(16));
            && Importable(s, a)
            && !Importable(s.(format := None), a) && !Importable(s.(format := Some("u")), a)
            && !Importable(s.(nChildren := 1), a) && !Importable(s.(dictionary := true), a)
            && !Importable(s, a.(nChildren := 1)) && !Importable(s, a.(dictionary := true))
            && !Importable(s, a.(length := -1)) && !Importable(s, a.(offset := -1))
            && !Importable(s, a.(nBuffers := 1)) && !Importable(s, a.(nullCount := -1))
            && !Importable(s, a.(validity := Absent)) && Importable(s, a.(validity := Absent, nullCount := 0))
            && !Importable(s, a.(values := Absent)) && Importable(s, a.(values := Absent, length := 0))
            && !Importable(s, a.(length := MAX / 4 + 1)) && !Importable(s, a.(offset := MAX / 4 + 1))
            && !Importable(SchemaInfo(Some("c"), 0, false), a.(length := 2, offset := MAX - 1))
  {
    assert ElementSize("i") == 4 && ElementSize("c") == 1 && ElementSize("u") == 0;
  }

  /** An importable array has elements of a supported width, all of whose addresses and bits an int64 can count. */
  lemma ImportableMeans(s: SchemaInfo, a: Produced, i: nat, k: nat)
    requires Importable(s, a) && i < a.length && k < ElementSize(s.format.value)
    ensures Position(i, ElementSize(s.format.value), k) < ByteLen(s, a) <= MAX && 0 <= ByteOffset(s, a) <= MAX
    ensures !a.values.Absent? && (a.nullCount > 0 ==> !a.validity.Absent? && a.offset + i < MAX)
  {
    Basics(s, a);
    SizeNotNegative(a.offset, ElementSize(s.format.value));
    PositionInWindow(0, a.length, i, ElementSize(s.format.value), k);
  }
}
