/** Row-major strides: what the stride check accepts, and where an accepted layout puts each element. */
module RowMajor {
  import opened Layout

  /** Every stride is the element size times the product of the later dimensions. */
  predicate IsRowMajor(shape: seq<int64>, strides: seq<int64>, e: int) {
    |strides| == |shape| && forall i :: 0 <= i < |shape| ==> strides[i] == e * Product(shape[i + 1..])
  }

  /** A zero dimension comes before any negative one. */
  predicate EmptyFirst(shape: seq<int64>) {
    |BeforeZero(shape)| < |shape| && Positive(BeforeZero(shape))
  }

  /** The layouts that cArrowStridesAreContiguous accepts. */
  predicate Contiguous(shape: seq<int64>, strides: seq<int64>, elemSize: int) {
    && |strides| == |shape| && elemSize > 0
    && (EmptyFirst(shape) || (Positive(shape) && IsRowMajor(shape, strides, elemSize)))
  }

  lemma ProductCons(shape: seq<int64>, i: nat)
    requires i < |shape|
    ensures Product(shape[i..]) == shape[i] * Product(shape[i + 1..])
  {
    assert shape[i..][1..] == shape[i + 1..];
  }

  /** One step of the running stride: the check before the multiplication is exact. */
  lemma StrideStep(e: int, d: int, p: int, stride: int64)
    requires stride == e * p && stride > 0 && 1 <= d <= MAX
    ensures d > MAX / stride <==> e * (d * p) > MAX
    ensures d <= MAX / stride ==> Wrap(stride * d) == e * (d * p) > 0
  {
    DivisionTest(stride, d);
    MulAtLeast(stride, d);
    assert stride * d == e * (d * p) by { assert (e * p) * d == e * (d * p); }
  }

  /**
   The stride check: it walks the dimensions from the last to the first with a running stride. Acceptance
   is stated over mathematical products, so no wrapped stride ever decides the answer.
   */
  method StridesAreContiguous(shape: seq<int64>, strides: seq<int64>, elemSize: int64) returns (ok: bool)
    ensures ok <==> Contiguous(shape, strides, elemSize)
  {
    if |strides| != |shape| || elemSize <= 0 {
      return false;
    }
    for i := 0 to |shape|
      invariant Positive(shape[..i])
    {
      if shape[i] < 0 {
        LeadKept(shape, i + 1);
        assert BeforeZero(shape)[i] == shape[..i + 1][i];
        return false;
      }
      if shape[i] == 0 {
        BeforeZeroPrefix(shape, i);
        return true;
      }
    }
    assert shape[..|shape|] == shape;
    BeforeZeroPrefix(shape, |shape|);
    ok := MatchRowMajor(shape, strides, elemSize);
  }

  /** The backward loop of the stride check, over positive dimensions. */
  method MatchRowMajor(shape: seq<int64>, strides: seq<int64>, elemSize: int64) returns (ok: bool)
    requires |strides| == |shape| && elemSize > 0 && Positive(shape)
    ensures ok <==> IsRowMajor(shape, strides, elemSize)
  {
    var stride: int64 := elemSize;
    assert shape[|shape|..] == [];
    for i := |shape| downto 0
      invariant i > 0 ==> stride == elemSize * Product(shape[i..]) && stride > 0
      invariant forall k :: i <= k < |shape| ==> strides[k] == elemSize * Product(shape[k + 1..])
    {
      if strides[i] != stride {
        return false;
      }
      StrideStep(elemSize, shape[i], Product(shape[i + 1..]), stride);
      ProductCons(shape, i);
      if i > 0 && shape[i] > MAX / stride {
        assert shape[i - 1 + 1..] == shape[i..];
        assert strides[i - 1] <= MAX;
        return false;
      }
      stride := Wrap(stride * shape[i]);
    }
    return true;
  }

  // ---------- index vectors and addresses

  predicate IsIndex(shape: seq<int64>, idx: seq<int>) {
    |idx| == |shape| && forall k :: 0 <= k < |idx| ==> 0 <= idx[k] < shape[k]
  }

  /** The byte displacement of an element: the sum of index times stride. */
  function Address(idx: seq<int>, strides: seq<int64>): int
    requires |idx| == |strides|
  {
    if idx == [] then 0 else idx[0] * strides[0] + Address(idx[1..], strides[1..])
  }

  /** The position of an index vector in lexicographic order. */
  function Rank(shape: seq<int64>, idx: seq<int>): int
    requires |idx| == |shape|
  {
    if idx == [] then 0 else idx[0] * Product(shape[1..]) + Rank(shape[1..], idx[1..])
  }

  /** The index vector at a position. */
  function Unrank(shape: seq<int64>, r: int): (idx: seq<int>)
    requires Positive(shape)
    ensures |idx| == |shape|
  {
    if shape == [] then [] else
    ProductPositive(shape[1..]);
    var p := Product(shape[1..]);
    [r / p] + Unrank(shape[1..], r % p)
  }

  lemma {:induction false} RankInRange(shape: seq<int64>, idx: seq<int>)
    requires Positive(shape) && IsIndex(shape, idx)
    ensures 0 <= Rank(shape, idx) < Product(shape)
  {
    if shape != [] {
      RankInRange(shape[1..], idx[1..]);
      var p, i, r := Product(shape[1..]), idx[0], Rank(shape[1..], idx[1..]);
      ProductPositive(shape[1..]);
      assert 0 <= i * p;
      assert (i + 1) * p <= shape[0] * p;
      assert (i + 1) * p == i * p + p;
    }
  }

  lemma DivModUnique(x: int, p: int, q: int, r: int)
    requires p > 0 && x == q * p + r && 0 <= r < p
    ensures x / p == q && x % p == r
  {
    var q', r' := x / p, x % p;
    assert x == q' * p + r';
    assert p * (q' - q) == r - r' by { assert p * (q' - q) == q' * p - q * p; }
    if q' != q { NonZeroMultiple(p, q' - q); }
  }

  lemma DivBound(r: int, p: int, n: int)
    requires p > 0 && 0 <= r < n * p
    ensures 0 <= r / p < n
  {
    var q := r / p;
    assert q * p <= r < n * p;
    assert (n - q) * p > 0 by { assert (n - q) * p == n * p - q * p; }
  }

  /** Reading the position of an index vector back gives the vector. */
  lemma {:induction false} UnrankRank(shape: seq<int64>, idx: seq<int>)
    requires Positive(shape) && IsIndex(shape, idx)
    ensures Unrank(shape, Rank(shape, idx)) == idx
  {
    if shape != [] {
      RankInRange(shape[1..], idx[1..]);
      DivModUnique(Rank(shape, idx), Product(shape[1..]), idx[0], Rank(shape[1..], idx[1..]));
      UnrankRank(shape[1..], idx[1..]);
      assert idx == [idx[0]] + idx[1..];
    }
  }

  /** Every position below the element count is the position of an index vector. */
  lemma {:induction false} RankUnrank(shape: seq<int64>, r: int)
    requires Positive(shape) && 0 <= r < Product(shape)
    ensures IsIndex(shape, Unrank(shape, r)) && Rank(shape, Unrank(shape, r)) == r
  {
    if shape != [] {
      var p := Product(shape[1..]);
      ProductPositive(shape[1..]);
      var q := r / p;
      assert r == q * p + r % p;
      DivBound(r, p, shape[0]);
      RankUnrank(shape[1..], r % p);
      assert Unrank(shape, r)[1..] == Unrank(shape[1..], r % p);
    }
  }

  lemma {:induction false} AddressIsRank(shape: seq<int64>, strides: seq<int64>, e: int, idx: seq<int>)
    requires IsRowMajor(shape, strides, e) && |idx| == |shape|
    ensures Address(idx, strides) == e * Rank(shape, idx)
  {
    if shape != [] {
      forall i | 0 <= i < |shape| - 1
        ensures strides[1..][i] == e * Product(shape[1..][i + 1..])
      {
        assert shape[1..][i + 1..] == shape[i + 1 + 1..];
      }
      AddressIsRank(shape[1..], strides[1..], e, idx[1..]);
      var p := Product(shape[1..]);
      assert idx[0] * (e * p) == e * (idx[0] * p);
      assert e * (idx[0] * p + Rank(shape[1..], idx[1..])) == e * (idx[0] * p) + e * Rank(shape[1..], idx[1..]);
    }
  }

  lemma MultipleInRange(e: int, r: int, n: int)
    requires e > 0 && 0 <= r < n
    ensures (e * r) % e == 0 && (e * r) / e == r && 0 <= e * r <= (n - 1) * e
  {
    QuotientOfProduct(e, r);
    assert e * (n - 1 - r) >= 0;
    assert e * (n - 1 - r) == (n - 1) * e - e * r;
  }

  lemma AlignedSum(e: int, a: int, b: int)
    requires e > 0 && a >= 0 && b >= 0 && a % e == 0 && b % e == 0
    ensures (a + b) % e == 0
  {
    assert a == e * (a / e) && b == e * (b / e);
    assert e * (a / e + b / e) == a + b;
    QuotientOfProduct(e, a / e + b / e);
  }

  lemma AddressInRange(shape: seq<int64>, strides: seq<int64>, e: int, idx: seq<int>)
    requires e > 0 && Positive(shape) && IsRowMajor(shape, strides, e) && IsIndex(shape, idx)
    ensures Address(idx, strides) % e == 0 && 0 <= Address(idx, strides) <= (Product(shape) - 1) * e
    ensures Unrank(shape, Address(idx, strides) / e) == idx
  {
    AddressIsRank(shape, strides, e, idx);
    RankInRange(shape, idx);
    UnrankRank(shape, idx);
    MultipleInRange(e, Rank(shape, idx), Product(shape));
  }

  lemma AddressOnto(shape: seq<int64>, strides: seq<int64>, e: int, n: int)
    requires Positive(shape) && IsRowMajor(shape, strides, e) && 0 <= n < Product(shape)
    ensures IsIndex(shape, Unrank(shape, n)) && Address(Unrank(shape, n), strides) == e * n
  {
    RankUnrank(shape, n);
    AddressIsRank(shape, strides, e, Unrank(shape, n));
  }

  lemma AcceptedIsRowMajor(shape: seq<int64>, strides: seq<int64>, e: int)
    requires Contiguous(shape, strides, e) && Positive(shape)
    ensures e > 0 && IsRowMajor(shape, strides, e)
  {
    BeforeZeroPrefix(shape, |shape|);
  }

  /**
   An accepted layout without zero dimensions is a bijection: index vectors are sent, one to one, onto the
   multiples 0, e, 2e, ..., (n - 1)e of the element size, where n is the number of elements.
   */
  lemma AcceptedLayoutIsBijective(shape: seq<int64>, strides: seq<int64>, e: int)
    requires Contiguous(shape, strides, e) && Positive(shape)
    ensures forall idx :: IsIndex(shape, idx) ==>
              Address(idx, strides) % e == 0 && 0 <= Address(idx, strides) <= (Product(shape) - 1) * e
    ensures forall a, b :: IsIndex(shape, a) && IsIndex(shape, b) && Address(a, strides) == Address(b, strides) ==>
              a == b
    ensures forall n :: 0 <= n < Product(shape) ==>
              IsIndex(shape, Unrank(shape, n)) && Address(Unrank(shape, n), strides) == e * n
  {
    AcceptedIsRowMajor(shape, strides, e);
    hide Contiguous, IsRowMajor, Product, Address, Unrank, Positive;
    forall idx | IsIndex(shape, idx)
      ensures Address(idx, strides) % e == 0 && 0 <= Address(idx, strides) <= (Product(shape) - 1) * e
    {
      AddressInRange(shape, strides, e, idx);
    }
    forall a, b | IsIndex(shape, a) && IsIndex(shape, b) && Address(a, strides) == Address(b, strides)
      ensures a == b
    {
      AddressInRange(shape, strides, e, a);
      AddressInRange(shape, strides, e, b);
    }
    forall n | 0 <= n < Product(shape)
      ensures IsIndex(shape, Unrank(shape, n)) && Address(Unrank(shape, n), strides) == e * n
    {
      AddressOnto(shape, strides, e, n);
    }
  }

  // ---------- the logical view

  /** The exact condition under which a buffer of `byteLen` bytes has a flat primitive view. */
  predicate Viewable(offset: int64, shape: seq<int64>, strides: seq<int64>, byteLen: int64, e: int64) {
    && e > 0 && offset >= 0 && offset % e == 0 && offset <= byteLen
    && if shape == [] then strides == [] && (byteLen - offset) % e == 0
       else Evaluates(shape) && Product(shape) * e <= byteLen - offset
            && (strides == [] || Contiguous(shape, strides, e))
  }

  /** The number of elements of a view. */
  function ViewLength(offset: int64, shape: seq<int64>, byteLen: int64, e: int64): int
    requires e > 0
  {
    if shape == [] then (byteLen - offset) / e else Product(shape)
  }

  method LogicalPrimitiveView(offset: int64, shape: seq<int64>, strides: seq<int64>, byteLen: int64, e: int64)
    returns (length: int64, start: int64, ok: bool)
    ensures ok <==> Viewable(offset, shape, strides, byteLen, e)
    ensures ok ==> start == offset && length == ViewLength(offset, shape, byteLen, e)
  {
    if e <= 0 || offset < 0 || offset % e != 0 || offset > byteLen {
      return 0, 0, false;
    }
    if |shape| == 0 {
      var remaining := byteLen - offset;
      if remaining % e != 0 || |strides| != 0 {
        return 0, 0, false;
      }
      return remaining / e, offset, true;
    }
    var product, evaluated := ShapeProduct(shape);
    if !evaluated {
      return 0, 0, false;
    }
    AdmittedIsEvaluated(shape);
    ProductBeforeZero(shape);
    if Positive(BeforeZero(shape)) { ProductPositive(BeforeZero(shape)); }
    var required := Wrap(product * e);
    if product != 0 {
      OverflowCheckExact(product, e);
      MulAtLeast(product, e);
    }
    if product != 0 && Quot(required, product) != e {
      return 0, 0, false;
    }
    if offset > byteLen || required > byteLen - offset {
      return 0, 0, false;
    }
    if |strides| > 0 {
      var contiguous := StridesAreContiguous(shape, strides, e);
      if !contiguous {
        return 0, 0, false;
      }
    }
    return product, offset, true;
  }

  lemma LastElementFits(offset: int, a: int, n: int, e: int, byteLen: int)
    requires a <= (n - 1) * e && n * e <= byteLen - offset
    ensures offset + a + e <= byteLen
  {
    assert (n - 1) * e + e == n * e;
  }

  /** Every element of an accepted strided view lies inside the bytes of the buffer. */
  lemma ViewStaysInBounds(offset: int64, shape: seq<int64>, strides: seq<int64>, byteLen: int64, e: int64,
    idx: seq<int>)
    requires Viewable(offset, shape, strides, byteLen, e) && strides != [] && Positive(shape) && IsIndex(shape, idx)
    ensures offset <= offset + Address(idx, strides)
    ensures offset + Address(idx, strides) + e <= byteLen
    ensures (offset + Address(idx, strides)) % e == 0
  {
    AcceptedIsRowMajor(shape, strides, e);
    AddressInRange(shape, strides, e, idx);
    AlignedSum(e, offset, Address(idx, strides));
    LastElementFits(offset, Address(idx, strides), Product(shape), e, byteLen);
  }

  // ---------- validity bitmaps

  /** The bytes of a validity bitmap, computed as the program does, in int64. */
  function ValidityByteLen(offset: int64, length: int64, nullCount: int64): int64 {
    if nullCount <= 0 || length <= 0 then 0 else
    var bits := Wrap(offset + length);
    if bits <= 0 then 0 else Quot(Wrap(bits + 7), 8)
  }

  /**
   Import guards the sum of offset and length against overflow, but not the rounding up to whole bytes: the
   result covers every bit if and only if the sum is at most 2^63 - 8. Beyond that it is negative.
   */
  lemma ValidityByteLenExact(offset: int64, length: int64, nullCount: int64)
    requires nullCount > 0 && length > 0 && 0 <= offset <= MAX - length
    ensures var bytes := ValidityByteLen(offset, length, nullCount);
            && (bytes == (offset + length + 7) / 8 <==> offset + length <= MAX - 7)
            && (bytes < 0 <==> offset + length > MAX - 7)
            && (bytes >= 0 ==> bytes * 8 - 8 < offset + length <= bytes * 8)
  {
  }

  /** One array inside the guard of import whose bitmap length comes out negative. */
  lemma ValidityByteLenWraps()
    ensures ValidityByteLen(MAX - 1, 1, 1) == -0x0FFF_FFFF_FFFF_FFFF
  {
  }
}
