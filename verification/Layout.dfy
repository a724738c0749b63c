/**
 The int64 arithmetic on buffer layouts: shape products, the overflow checks around them, row-major strides
 and validity bitmap sizes. Machine integers are the subset type int64; additions and products that may leave
 its range are wrapped explicitly.
 */
module Layout {
  const MAX: int := 0x7FFF_FFFF_FFFF_FFFF
  const TWO_TO_THE_63: int := 0x8000_0000_0000_0000
  const TWO_TO_THE_64: int := 0x1_0000_0000_0000_0000

  type int64 = x: int | -0x8000_0000_0000_0000 <= x <= 0x7FFF_FFFF_FFFF_FFFF

  /** Two's complement wrap-around. */
  function Wrap(x: int): (w: int64)
    ensures -TWO_TO_THE_63 <= x <= MAX ==> w == x
    ensures MAX < x <= MAX + TWO_TO_THE_64 ==> w == x - TWO_TO_THE_64
  {
    (x + TWO_TO_THE_63) % TWO_TO_THE_64 - TWO_TO_THE_63
  }

  /** Division that truncates toward zero. */
  function Quot(a: int, b: int): int
    requires b > 0
  {
    if a >= 0 then a / b else -((-a) / b)
  }

  // ---------- shapes

  /** The mathematical number of elements. */
  function Product(shape: seq<int64>): int {
    if shape == [] then 1 else shape[0] * Product(shape[1..])
  }

  /** The dimensions before the first zero. */
  function BeforeZero(shape: seq<int64>): seq<int64> {
    if shape == [] || shape[0] == 0 then [] else [shape[0]] + BeforeZero(shape[1..])
  }

  predicate Positive(shape: seq<int64>) {
    forall i :: 0 <= i < |shape| ==> shape[i] > 0
  }

  predicate NonNegative(shape: seq<int64>) {
    forall i :: 0 <= i < |shape| ==> shape[i] >= 0
  }

  /** Shapes whose product cArrowShapeProduct computes. */
  predicate Evaluates(shape: seq<int64>) {
    Positive(BeforeZero(shape)) && Product(BeforeZero(shape)) <= MAX
  }

  /** Shapes that buffer validation lets through. */
  predicate Admissible(shape: seq<int64>) {
    NonNegative(shape) && Product(BeforeZero(shape)) <= MAX
  }

  lemma {:induction false} ProductSnoc(a: seq<int64>, d: int64)
    ensures Product(a + [d]) == Product(a) * d
  {
    if a == [] {
      assert [d][1..] == [];
    } else {
      assert (a + [d])[1..] == a[1..] + [d];
      ProductSnoc(a[1..], d);
      assert a[0] * (Product(a[1..]) * d) == (a[0] * Product(a[1..])) * d;
    }
  }

  lemma {:induction false} ProductPositive(shape: seq<int64>)
    requires Positive(shape)
    ensures Product(shape) >= 1
  {
    if shape != [] {
      ProductPositive(shape[1..]);
      MulAtLeast(shape[0], Product(shape[1..]));
    }
  }

  lemma MulAtLeast(a: int, b: int)
    requires a >= 1 && b >= 1
    ensures a * b >= a && a * b >= b
  {
  }

  /** A larger positive prefix has a larger product. */
  lemma {:induction false} ProductGrows(a: seq<int64>, b: seq<int64>)
    requires Positive(a) && Positive(b)
    ensures Product(a) <= Product(a + b)
  {
    if b == [] {
      assert a + b == a;
    } else {
      var front, last := b[..|b| - 1], b[|b| - 1];
      assert a + b == (a + front) + [last];
      assert b == front + [last];
      ProductGrows(a, front);
      ProductSnoc(a + front, last);
      ProductPositive(a + front);
      MulAtLeast(Product(a + front), last);
    }
  }

  lemma {:induction false} BeforeZeroPrefix(shape: seq<int64>, n: nat)
    requires n <= |shape| && (forall i :: 0 <= i < n ==> shape[i] != 0)
    requires n < |shape| ==> shape[n] == 0
    ensures BeforeZero(shape) == shape[..n]
  {
    if n > 0 {
      BeforeZeroPrefix(shape[1..], n - 1);
      assert shape[..n] == [shape[0]] + shape[1..][..n - 1];
    }
  }

  lemma {:induction false} BeforeZeroPositive(shape: seq<int64>)
    requires NonNegative(shape)
    ensures Positive(BeforeZero(shape))
  {
    if shape != [] && shape[0] != 0 { BeforeZeroPositive(shape[1..]); }
  }

  lemma {:induction false} ProductBeforeZero(shape: seq<int64>)
    ensures Product(shape) == if BeforeZero(shape) == shape then Product(BeforeZero(shape)) else 0
    ensures |BeforeZero(shape)| <= |shape|
  {
    if shape != [] && shape[0] != 0 {
      ProductBeforeZero(shape[1..]);
      assert BeforeZero(shape)[1..] == BeforeZero(shape[1..]);
      assert BeforeZero(shape) == shape <==> BeforeZero(shape[1..]) == shape[1..] by {
        assert shape == [shape[0]] + shape[1..];
      }
    }
  }

  /** The exact overflow test used by both shape loops. */
  lemma DivisionTest(a: int, b: int)
    requires 1 <= a <= MAX && 1 <= b <= MAX
    ensures b > MAX / a <==> a * b > MAX
  {
    var q := MAX / a;
    assert q * a <= MAX < (q + 1) * a;
    if b > q { assert b * a >= (q + 1) * a; }
    if b <= q { assert b * a <= q * a; }
  }

  /** The running product of buffer validation: it accepts exactly the admissible shapes. */
  method ValidateShape(shape: seq<int64>) returns (ok: bool)
    ensures ok <==> Admissible(shape)
  {
    var product: int64 := 1;
    ghost var zeroAt: nat := |shape|;
    for i := 0 to |shape|
      invariant NonNegative(shape[..i])
      invariant zeroAt <= |shape|
      invariant if zeroAt < i then product == 0 && shape[zeroAt] == 0 && BeforeZero(shape) == shape[..zeroAt]
                                   && Product(shape[..zeroAt]) <= MAX
                else zeroAt == |shape| && Positive(shape[..i]) && product == Product(shape[..i]) >= 1
    {
      var dim := shape[i];
      if dim < 0 {
        return false;
      }
      if dim == 0 {
        if zeroAt == |shape| {
          zeroAt := i;
          BeforeZeroPrefix(shape, i);
        }
        product := 0;
        continue;
      }
      if product != 0 && dim > MAX / product {
        DivisionTest(product, dim);
        Overflowing(shape, i);
        return false;
      }
      if product != 0 {
        DivisionTest(product, dim);
        ProductSnoc(shape[..i], dim);
        assert shape[..i + 1] == shape[..i] + [dim];
        MulAtLeast(product, dim);
      }
      product := product * dim;
    }
    assert shape[..|shape|] == shape;
    if zeroAt == |shape| { BeforeZeroPrefix(shape, |shape|); }
    return true;
  }

  /** Once the product of the positive leading dimensions overflows, no later dimension can help. */
  lemma Overflowing(shape: seq<int64>, i: nat)
    requires i < |shape| && Positive(shape[..i]) && shape[i] > 0 && Product(shape[..i]) * shape[i] > MAX
    ensures !Admissible(shape) && !Evaluates(shape)
  {
    var lead := shape[..i] + [shape[i]];
    ProductSnoc(shape[..i], shape[i]);
    LeadKept(shape, i + 1);
    assert shape[..i + 1] == lead;
    var rest := BeforeZero(shape)[i + 1..];
    assert BeforeZero(shape) == lead + rest;
    if Positive(BeforeZero(shape)) {
      assert Positive(rest);
      ProductGrows(lead, rest);
    }
    if NonNegative(shape) { BeforeZeroPositive(shape); }
  }

  lemma {:induction false} LeadKept(shape: seq<int64>, n: nat)
    requires n <= |shape| && forall i :: 0 <= i < n ==> shape[i] != 0
    ensures n <= |BeforeZero(shape)| && BeforeZero(shape)[..n] == shape[..n]
  {
    if n > 0 {
      LeadKept(shape[1..], n - 1);
      assert shape[..n] == [shape[0]] + shape[1..][..n - 1];
    }
  }

  /** The product of a shape, with an overflow check before each multiplication. */
  method ShapeProduct(shape: seq<int64>) returns (product: int64, ok: bool)
    ensures ok <==> Evaluates(shape)
    ensures ok ==> product == Product(shape)
  {
    product := 1;
    for i := 0 to |shape|
      invariant Positive(shape[..i]) && product == Product(shape[..i]) >= 1
    {
      var dim := shape[i];
      if dim < 0 {
        LeadKept(shape, i + 1);
        assert BeforeZero(shape)[i] == shape[..i + 1][i];
        return 0, false;
      }
      if dim == 0 {
        BeforeZeroPrefix(shape, i);
        ProductBeforeZero(shape);
        return 0, true;
      }
      DivisionTest(product, dim);
      if product > MAX / dim {
        DivisionTest(dim, product);
        Overflowing(shape, i);
        return 0, false;
      }
      DivisionTest(dim, product);
      ProductSnoc(shape[..i], dim);
      assert shape[..i + 1] == shape[..i] + [dim];
      MulAtLeast(product, dim);
      product := product * dim;
    }
    assert shape[..|shape|] == shape;
    BeforeZeroPrefix(shape, |shape|);
    return product, true;
  }

  /** Validation is the stricter of the two: what it admits is evaluated, to the exact product. */
  lemma AdmittedIsEvaluated(shape: seq<int64>)
    ensures Admissible(shape) <==> Evaluates(shape) && NonNegative(shape)
    ensures Admissible(shape) ==> 0 <= Product(shape) <= MAX
  {
    if NonNegative(shape) { BeforeZeroPositive(shape); }
    ProductBeforeZero(shape);
    if Positive(BeforeZero(shape)) { ProductPositive(BeforeZero(shape)); }
  }

  /** Recomputing a factor by division detects exactly the products that leave the int64 range. */
  lemma OverflowCheckExact(length: int64, elemBytes: int64)
    requires length > 0 && elemBytes > 0
    ensures Quot(Wrap(length * elemBytes), length) != elemBytes <==> length * elemBytes > MAX
  {
    var p := length * elemBytes;
    MulAtLeast(length, elemBytes);
    if p > MAX {
      var w := Wrap(p);
      if w >= 0 { QuotientBelow(w, length, elemBytes); }
    } else {
      assert p / length == elemBytes by { QuotientOfProduct(length, elemBytes); }
    }
  }

  lemma QuotientBelow(w: int, a: int, b: int)
    requires a > 0 && 0 <= w < a * b
    ensures w / a < b
  {
    SignOfMultiple(a, b - w / a);
    assert a * (b - w / a) == a * b - a * (w / a);
  }

  lemma SignOfMultiple(a: int, x: int)
    requires a > 0
    ensures a * x > 0 <==> x > 0
  {
    if x > 0 { assert a * x >= a * 1; } else { assert a * x <= a * 0; }
  }

  lemma QuotientOfProduct(a: int, b: int)
    requires a > 0 && b >= 0
    ensures (a * b) / a == b && (a * b) % a == 0
  {
    var q, r := (a * b) / a, (a * b) % a;
    assert a * b == a * q + r;
    assert a * (b - q) == r;
    if b != q { NonZeroMultiple(a, b - q); }
  }

  lemma NonZeroMultiple(a: int, x: int)
    requires a > 0 && x != 0
    ensures a * x >= a || a * x <= -a
  {
    if x >= 1 { assert a * x >= a * 1; } else { assert a * x <= a * -1; }
  }
}
