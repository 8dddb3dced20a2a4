/** Multiplication and squaring of field elements: schoolbook products of the limbs,
    folding the upper half down by 2^255 = 19, and carrying. */
module FieldProduct {
  import opened Arithmetic
  import opened Field25519

  // ---------------------------------------------------------------- machine integers

  function S32(x: int): int {
    var m := x % 0x1_0000_0000;
    if m >= 0x8000_0000 then m - 0x1_0000_0000 else m
  }

  /** The bound on the input limbs of a product. */
  const LIMIT: int := 0x800_0000

  predicate Fits64(x: int) {
    -0x8000_0000_0000_0000 <= x < 0x8000_0000_0000_0000
  }

  // ---------------------------------------------------------------- the product's limbs

  lemma ConvUnrolled(a: seq<int>, b: seq<int>, k: nat)
    ensures Conv(a, b, k, 10) ==
            Term(a, b, k, 0) + Term(a, b, k, 1) + Term(a, b, k, 2) + Term(a, b, k, 3) + Term(a, b, k, 4) +
            Term(a, b, k, 5) + Term(a, b, k, 6) + Term(a, b, k, 7) + Term(a, b, k, 8) + Term(a, b, k, 9)
  {
    hide Term;
    assert Conv(a, b, k, 2) == Term(a, b, k, 0) + Term(a, b, k, 1) by {
      assert Conv(a, b, k, 1) == Conv(a, b, k, 0) + Term(a, b, k, 0);
    }
    assert Conv(a, b, k, 4) == Conv(a, b, k, 2) + Term(a, b, k, 2) + Term(a, b, k, 3) by {
      assert Conv(a, b, k, 3) == Conv(a, b, k, 2) + Term(a, b, k, 2);
    }
    assert Conv(a, b, k, 6) == Conv(a, b, k, 4) + Term(a, b, k, 4) + Term(a, b, k, 5) by {
      assert Conv(a, b, k, 5) == Conv(a, b, k, 4) + Term(a, b, k, 4);
    }
    assert Conv(a, b, k, 8) == Conv(a, b, k, 6) + Term(a, b, k, 6) + Term(a, b, k, 7) by {
      assert Conv(a, b, k, 7) == Conv(a, b, k, 6) + Term(a, b, k, 6);
    }
    assert Conv(a, b, k, 10) == Conv(a, b, k, 8) + Term(a, b, k, 8) + Term(a, b, k, 9) by {
      assert Conv(a, b, k, 9) == Conv(a, b, k, 8) + Term(a, b, k, 8);
    }
  }

  /** The limbs as 32-bit integers. */
  function Narrowed(x: seq<int>): (y: seq<int>)
    requires |x| >= 10
    ensures |y| == 10 && forall i :: 0 <= i < 10 ==> y[i] == S32(x[i])
  {
    seq(10, i requires 0 <= i < 10 => S32(x[i]))
  }

  lemma NarrowSame(x: seq<int>)
    requires |x| >= 10 && Below(x[..10], 0x8000_0000)
    ensures Narrowed(x) == x[..10]
  {
    forall i | 0 <= i < 10
      ensures S32(x[i]) == x[i]
    {
      assert x[..10][i] == x[i];
    }
  }

  /** A 64-bit computation: its value, and whether it and everything it is computed from fit in 64 bits. */
  datatype Sum64 = Sum64(value: int, fits: bool) {
    function Plus(o: Sum64): Sum64 {
      Sum64(value + o.value, fits && o.fits && Fits64(value + o.value))
    }

    function Doubled(): Sum64 {
      Sum64(2 * value, fits && Fits64(2 * value))
    }
  }

  predicate Small(x: int) {
    -LIMIT < x < LIMIT
  }

  /** `c` times the first factor, and that times the second. */
  function Product(c: int, x: int, y: int): (s: Sum64)
    ensures s.value == c * Mul(x, y)
    ensures 1 <= c <= 4 && Small(x) && Small(y) ==> s.fits && -0x40_0000_0000_0000 < Mul(x, y) < 0x40_0000_0000_0000
  {
    ProductFacts(c, x, y);
    Sum64(c * x * y, Fits64(c * x) && Fits64(c * x * y))
  }

  /** What fits does so with everything it is computed from. */
  lemma FitsMeans(s: Sum64, o: Sum64, c: int, x: int, y: int)
    ensures s.Plus(o).fits ==> s.fits && o.fits && Fits64(s.value + o.value)
    ensures s.Doubled().fits ==> s.fits && Fits64(s.value + s.value)
    ensures Product(c, x, y).fits ==> Fits64(c * x) && Fits64(c * x * y)
  {
  }

  lemma ProductFacts(c: int, x: int, y: int)
    ensures c * x * y == c * Mul(x, y)
    ensures Small(x) && Small(y) ==> -0x40_0000_0000_0000 < Mul(x, y) < 0x40_0000_0000_0000
  {
    AbsMul(x, y);
    if Small(x) && Small(y) {
      MulMonotone(Abs(x), Abs(y), 0x7ff_ffff, 0x7ff_ffff);
    }
  }

  lemma MulCommutes()
    ensures forall x, y :: Mul(x, y) == Mul(y, x)
  {
  }

  /** Coefficient `k` of a product, in the order in which it is summed up. */
  function ProductSum(a: seq<int>, b: seq<int>, k: nat): Sum64
    requires |a| == 10 && |b| == 10 && k < 19
  {
    if k == 0 then Product(1, a[0], b[0])
    else if k == 1 then Product(1, a[0], b[1]).Plus(Product(1, a[1], b[0]))
    else if k == 2 then Product(2, a[1], b[1]).Plus(Product(1, a[0], b[2])).Plus(Product(1, a[2], b[0]))
    else if k == 3 then
      Product(1, a[1], b[2]).Plus(Product(1, a[2], b[1])).Plus(Product(1, a[0], b[3])).Plus(Product(1, a[3], b[0]))
    else if k == 4 then
      Product(1, a[2], b[2]).Plus(Product(1, a[1], b[3]).Plus(Product(1, a[3], b[1])).Doubled())
        .Plus(Product(1, a[0], b[4])).Plus(Product(1, a[4], b[0]))
    else if k == 5 then
      Product(1, a[2], b[3]).Plus(Product(1, a[3], b[2])).Plus(Product(1, a[1], b[4])).Plus(Product(1, a[4], b[1]))
        .Plus(Product(1, a[0], b[5])).Plus(Product(1, a[5], b[0]))
    else if k == 6 then
      Product(1, a[3], b[3]).Plus(Product(1, a[1], b[5])).Plus(Product(1, a[5], b[1])).Doubled()
        .Plus(Product(1, a[2], b[4])).Plus(Product(1, a[4], b[2])).Plus(Product(1, a[0], b[6]))
        .Plus(Product(1, a[6], b[0]))
    else if k == 7 then
      Product(1, a[3], b[4]).Plus(Product(1, a[4], b[3])).Plus(Product(1, a[2], b[5])).Plus(Product(1, a[5], b[2]))
        .Plus(Product(1, a[1], b[6])).Plus(Product(1, a[6], b[1])).Plus(Product(1, a[0], b[7]))
        .Plus(Product(1, a[7], b[0]))
    else if k == 8 then
      Product(1, a[4], b[4])
        .Plus(Product(1, a[3], b[5]).Plus(Product(1, a[5], b[3])).Plus(Product(1, a[1], b[7]))
              .Plus(Product(1, a[7], b[1])).Doubled())
        .Plus(Product(1, a[2], b[6])).Plus(Product(1, a[6], b[2])).Plus(Product(1, a[0], b[8]))
        .Plus(Product(1, a[8], b[0]))
    else if k == 9 then
      Product(1, a[4], b[5]).Plus(Product(1, a[5], b[4])).Plus(Product(1, a[3], b[6])).Plus(Product(1, a[6], b[3]))
        .Plus(Product(1, a[2], b[7])).Plus(Product(1, a[7], b[2])).Plus(Product(1, a[1], b[8]))
        .Plus(Product(1, a[8], b[1])).Plus(Product(1, a[0], b[9])).Plus(Product(1, a[9], b[0]))
    else if k == 10 then
      Product(1, a[5], b[5]).Plus(Product(1, a[3], b[7])).Plus(Product(1, a[7], b[3])).Plus(Product(1, a[1], b[9]))
        .Plus(Product(1, a[9], b[1])).Doubled().Plus(Product(1, a[4], b[6])).Plus(Product(1, a[6], b[4]))
        .Plus(Product(1, a[2], b[8])).Plus(Product(1, a[8], b[2]))
    else if k == 11 then
      Product(1, a[5], b[6]).Plus(Product(1, a[6], b[5])).Plus(Product(1, a[4], b[7])).Plus(Product(1, a[7], b[4]))
        .Plus(Product(1, a[3], b[8])).Plus(Product(1, a[8], b[3])).Plus(Product(1, a[2], b[9]))
        .Plus(Product(1, a[9], b[2]))
    else if k == 12 then
      Product(1, a[6], b[6])
        .Plus(Product(1, a[5], b[7]).Plus(Product(1, a[7], b[5])).Plus(Product(1, a[3], b[9]))
              .Plus(Product(1, a[9], b[3])).Doubled())
        .Plus(Product(1, a[4], b[8])).Plus(Product(1, a[8], b[4]))
    else if k == 13 then
      Product(1, a[6], b[7]).Plus(Product(1, a[7], b[6])).Plus(Product(1, a[5], b[8])).Plus(Product(1, a[8], b[5]))
        .Plus(Product(1, a[4], b[9])).Plus(Product(1, a[9], b[4]))
    else if k == 14 then
      Product(1, a[7], b[7]).Plus(Product(1, a[5], b[9])).Plus(Product(1, a[9], b[5])).Doubled()
        .Plus(Product(1, a[6], b[8])).Plus(Product(1, a[8], b[6]))
    else if k == 15 then
      Product(1, a[7], b[8]).Plus(Product(1, a[8], b[7])).Plus(Product(1, a[6], b[9])).Plus(Product(1, a[9], b[6]))
    else if k == 16 then Product(1, a[8], b[8]).Plus(Product(1, a[7], b[9]).Plus(Product(1, a[9], b[7])).Doubled())
    else if k == 17 then Product(1, a[8], b[9]).Plus(Product(1, a[9], b[8]))
    else Product(2, a[9], b[9])
  }

  /** Coefficient `k` of a square, with equal products taken together. */
  function SquareSum(a: seq<int>, k: nat): Sum64
    requires |a| == 10 && k < 19
  {
    if k == 0 then Product(1, a[0], a[0])
    else if k == 1 then Product(2, a[0], a[1])
    else if k == 2 then Product(1, a[1], a[1]).Plus(Product(1, a[0], a[2])).Doubled()
    else if k == 3 then Product(1, a[1], a[2]).Plus(Product(1, a[0], a[3])).Doubled()
    else if k == 4 then Product(1, a[2], a[2]).Plus(Product(4, a[1], a[3])).Plus(Product(2, a[0], a[4]))
    else if k == 5 then Product(1, a[2], a[3]).Plus(Product(1, a[1], a[4])).Plus(Product(1, a[0], a[5])).Doubled()
    else if k == 6 then
      Product(1, a[3], a[3]).Plus(Product(1, a[2], a[4])).Plus(Product(1, a[0], a[6]))
        .Plus(Product(2, a[1], a[5])).Doubled()
    else if k == 7 then
      Product(1, a[3], a[4]).Plus(Product(1, a[2], a[5])).Plus(Product(1, a[1], a[6]))
        .Plus(Product(1, a[0], a[7])).Doubled()
    else if k == 8 then
      Product(1, a[4], a[4])
        .Plus(Product(1, a[2], a[6]).Plus(Product(1, a[0], a[8]))
              .Plus(Product(1, a[1], a[7]).Plus(Product(1, a[3], a[5])).Doubled()).Doubled())
    else if k == 9 then
      Product(1, a[4], a[5]).Plus(Product(1, a[3], a[6])).Plus(Product(1, a[2], a[7])).Plus(Product(1, a[1], a[8]))
        .Plus(Product(1, a[0], a[9])).Doubled()
    else if k == 10 then
      Product(1, a[5], a[5]).Plus(Product(1, a[4], a[6])).Plus(Product(1, a[2], a[8]))
        .Plus(Product(1, a[3], a[7]).Plus(Product(1, a[1], a[9])).Doubled()).Doubled()
    else if k == 11 then
      Product(1, a[5], a[6]).Plus(Product(1, a[4], a[7])).Plus(Product(1, a[3], a[8]))
        .Plus(Product(1, a[2], a[9])).Doubled()
    else if k == 12 then
      Product(1, a[6], a[6])
        .Plus(Product(1, a[4], a[8]).Plus(Product(1, a[5], a[7]).Plus(Product(1, a[3], a[9])).Doubled()).Doubled())
    else if k == 13 then Product(1, a[6], a[7]).Plus(Product(1, a[5], a[8])).Plus(Product(1, a[4], a[9])).Doubled()
    else if k == 14 then Product(1, a[7], a[7]).Plus(Product(1, a[6], a[8])).Plus(Product(2, a[5], a[9])).Doubled()
    else if k == 15 then Product(1, a[7], a[8]).Plus(Product(1, a[6], a[9])).Doubled()
    else if k == 16 then Product(1, a[8], a[8]).Plus(Product(4, a[7], a[9]))
    else if k == 17 then Product(2, a[8], a[9])
    else Product(2, a[9], a[9])
  }

  /** The sum is the coefficient, and for limbs below 2^27 nothing on the way to it leaves 64 bits. */
  ghost predicate Right(a: seq<int>, b: seq<int>, k: nat)
    requires |a| == 10 && |b| == 10 && k < 19
  {
    && ProductSum(a, b, k).value == Conv(a, b, k, 10)
    && (Below(a, LIMIT) && Below(b, LIMIT) ==> ProductSum(a, b, k).fits)
  }

  lemma Limb0(a: seq<int>, b: seq<int>)
    requires |a| == 10 && |b| == 10
    ensures Right(a, b, 0)
  {
    hide Mul, Product;
    ConvUnrolled(a, b, 0);
    assert Below(a, LIMIT) && Below(b, LIMIT) ==> forall i :: 0 <= i < 10 ==> Small(a[i]) && Small(b[i]);
  }

  lemma Limb1(a: seq<int>, b: seq<int>)
    requires |a| == 10 && |b| == 10
    ensures Right(a, b, 1)
  {
    hide Mul, Product;
    ConvUnrolled(a, b, 1);
    assert Below(a, LIMIT) && Below(b, LIMIT) ==> forall i :: 0 <= i < 10 ==> Small(a[i]) && Small(b[i]);
  }

  lemma Limb2(a: seq<int>, b: seq<int>)
    requires |a| == 10 && |b| == 10
    ensures Right(a, b, 2)
  {
    hide Mul, Product;
    ConvUnrolled(a, b, 2);
    assert Below(a, LIMIT) && Below(b, LIMIT) ==> forall i :: 0 <= i < 10 ==> Small(a[i]) && Small(b[i]);
  }

  lemma Limb3(a: seq<int>, b: seq<int>)
    requires |a| == 10 && |b| == 10
    ensures Right(a, b, 3)
  {
    hide Mul, Product;
    ConvUnrolled(a, b, 3);
    assert Below(a, LIMIT) && Below(b, LIMIT) ==> forall i :: 0 <= i < 10 ==> Small(a[i]) && Small(b[i]);
  }

  lemma Limb4(a: seq<int>, b: seq<int>)
    requires |a| == 10 && |b| == 10
    ensures Right(a, b, 4)
  {
    hide Mul, Product;
    ConvUnrolled(a, b, 4);
    assert Below(a, LIMIT) && Below(b, LIMIT) ==> forall i :: 0 <= i < 10 ==> Small(a[i]) && Small(b[i]);
  }

  lemma Limb5(a: seq<int>, b: seq<int>)
    requires |a| == 10 && |b| == 10
    ensures Right(a, b, 5)
  {
    hide Mul, Product;
    ConvUnrolled(a, b, 5);
    assert Below(a, LIMIT) && Below(b, LIMIT) ==> forall i :: 0 <= i < 10 ==> Small(a[i]) && Small(b[i]);
  }

  lemma Limb6(a: seq<int>, b: seq<int>)
    requires |a| == 10 && |b| == 10
    ensures Right(a, b, 6)
  {
    hide Mul, Product;
    ConvUnrolled(a, b, 6);
    assert Below(a, LIMIT) && Below(b, LIMIT) ==> forall i :: 0 <= i < 10 ==> Small(a[i]) && Small(b[i]);
  }

  lemma Limb7(a: seq<int>, b: seq<int>)
    requires |a| == 10 && |b| == 10
    ensures Right(a, b, 7)
  {
    hide Mul, Product;
    ConvUnrolled(a, b, 7);
    assert Below(a, LIMIT) && Below(b, LIMIT) ==> forall i :: 0 <= i < 10 ==> Small(a[i]) && Small(b[i]);
  }

  lemma Limb8(a: seq<int>, b: seq<int>)
    requires |a| == 10 && |b| == 10
    ensures Right(a, b, 8)
  {
    hide Mul, Product;
    ConvUnrolled(a, b, 8);
    assert Below(a, LIMIT) && Below(b, LIMIT) ==> forall i :: 0 <= i < 10 ==> Small(a[i]) && Small(b[i]);
  }

  lemma Limb9(a: seq<int>, b: seq<int>)
    requires |a| == 10 && |b| == 10
    ensures Right(a, b, 9)
  {
    hide Mul, Product;
    ConvUnrolled(a, b, 9);
    assert Below(a, LIMIT) && Below(b, LIMIT) ==> forall i :: 0 <= i < 10 ==> Small(a[i]) && Small(b[i]);
  }

  lemma Limb10(a: seq<int>, b: seq<int>)
    requires |a| == 10 && |b| == 10
    ensures Right(a, b, 10)
  {
    hide Mul, Product;
    ConvUnrolled(a, b, 10);
    assert Below(a, LIMIT) && Below(b, LIMIT) ==> forall i :: 0 <= i < 10 ==> Small(a[i]) && Small(b[i]);
  }

  lemma Limb11(a: seq<int>, b: seq<int>)
    requires |a| == 10 && |b| == 10
    ensures Right(a, b, 11)
  {
    hide Mul, Product;
    ConvUnrolled(a, b, 11);
    assert Below(a, LIMIT) && Below(b, LIMIT) ==> forall i :: 0 <= i < 10 ==> Small(a[i]) && Small(b[i]);
  }

  lemma Limb12(a: seq<int>, b: seq<int>)
    requires |a| == 10 && |b| == 10
    ensures Right(a, b, 12)
  {
    hide Mul, Product;
    ConvUnrolled(a, b, 12);
    assert Below(a, LIMIT) && Below(b, LIMIT) ==> forall i :: 0 <= i < 10 ==> Small(a[i]) && Small(b[i]);
  }

  lemma Limb13(a: seq<int>, b: seq<int>)
    requires |a| == 10 && |b| == 10
    ensures Right(a, b, 13)
  {
    hide Mul, Product;
    ConvUnrolled(a, b, 13);
    assert Below(a, LIMIT) && Below(b, LIMIT) ==> forall i :: 0 <= i < 10 ==> Small(a[i]) && Small(b[i]);
  }

  lemma Limb14(a: seq<int>, b: seq<int>)
    requires |a| == 10 && |b| == 10
    ensures Right(a, b, 14)
  {
    hide Mul, Product;
    ConvUnrolled(a, b, 14);
    assert Below(a, LIMIT) && Below(b, LIMIT) ==> forall i :: 0 <= i < 10 ==> Small(a[i]) && Small(b[i]);
  }

  lemma Limb15(a: seq<int>, b: seq<int>)
    requires |a| == 10 && |b| == 10
    ensures Right(a, b, 15)
  {
    hide Mul, Product;
    ConvUnrolled(a, b, 15);
    assert Below(a, LIMIT) && Below(b, LIMIT) ==> forall i :: 0 <= i < 10 ==> Small(a[i]) && Small(b[i]);
  }

  lemma Limb16(a: seq<int>, b: seq<int>)
    requires |a| == 10 && |b| == 10
    ensures Right(a, b, 16)
  {
    hide Mul, Product;
    ConvUnrolled(a, b, 16);
    assert Below(a, LIMIT) && Below(b, LIMIT) ==> forall i :: 0 <= i < 10 ==> Small(a[i]) && Small(b[i]);
  }

  lemma Limb17(a: seq<int>, b: seq<int>)
    requires |a| == 10 && |b| == 10
    ensures Right(a, b, 17)
  {
    hide Mul, Product;
    ConvUnrolled(a, b, 17);
    assert Below(a, LIMIT) && Below(b, LIMIT) ==> forall i :: 0 <= i < 10 ==> Small(a[i]) && Small(b[i]);
  }

  lemma Limb18(a: seq<int>, b: seq<int>)
    requires |a| == 10 && |b| == 10
    ensures Right(a, b, 18)
  {
    hide Mul, Product;
    ConvUnrolled(a, b, 18);
    assert Below(a, LIMIT) && Below(b, LIMIT) ==> forall i :: 0 <= i < 10 ==> Small(a[i]) && Small(b[i]);
  }

  /** Every sum of a product is its coefficient, and fits if the limbs are below 2^27. */
  lemma ProductSumRight(a: seq<int>, b: seq<int>, k: nat)
    requires |a| == 10 && |b| == 10 && k < 19
    ensures Right(a, b, k)
  {
    hide Right;
    if k == 0 {
      Limb0(a, b);
    } else if k == 1 {
      Limb1(a, b);
    } else if k == 2 {
      Limb2(a, b);
    } else if k == 3 {
      Limb3(a, b);
    } else if k == 4 {
      Limb4(a, b);
    } else if k == 5 {
      Limb5(a, b);
    } else if k == 6 {
      Limb6(a, b);
    } else if k == 7 {
      Limb7(a, b);
    } else if k == 8 {
      Limb8(a, b);
    } else if k == 9 {
      Limb9(a, b);
    } else if k == 10 {
      Limb10(a, b);
    } else if k == 11 {
      Limb11(a, b);
    } else if k == 12 {
      Limb12(a, b);
    } else if k == 13 {
      Limb13(a, b);
    } else if k == 14 {
      Limb14(a, b);
    } else if k == 15 {
      Limb15(a, b);
    } else if k == 16 {
      Limb16(a, b);
    } else if k == 17 {
      Limb17(a, b);
    } else {
      Limb18(a, b);
    }
  }

  /** Squaring is multiplying by itself. */
  lemma SquareIsProduct(a: seq<int>, k: nat)
    requires |a| == 10 && k < 19
    ensures SquareSum(a, k).value == ProductSum(a, a, k).value
  {
    hide Mul, Product;
    MulCommutes();
  }

  /** For limbs below 2^27 nothing on the way to a square's coefficient leaves 64 bits. */
  lemma SquareFits(a: seq<int>, k: nat)
    requires |a| == 10 && k < 19 && Below(a, LIMIT)
    ensures SquareSum(a, k).fits
  {
    hide Mul, Product;
    assert forall i :: 0 <= i < 10 ==> Small(a[i]);
  }

  // ---------------------------------------------------------------- bounds of the product

  lemma ProductBounds(a: seq<int>, b: seq<int>, t: seq<int>)
    requires |a| == 10 && |b| == 10 && Below(a, LIMIT) && Below(b, LIMIT) && |t| == 19 && IsProduct(a, b, t)
    ensures Below(t, 14 * 0x40_0000_0000_0000)
    ensures forall k :: 0 <= k < 19 ==> Magnitude(a, b, k, 10) < 14 * 0x40_0000_0000_0000
  {
    hide Conv, Magnitude, Load;
    forall k | 0 <= k < 19
      ensures -14 * 0x40_0000_0000_0000 < t[k] < 14 * 0x40_0000_0000_0000
      ensures Magnitude(a, b, k, 10) < 14 * 0x40_0000_0000_0000
    {
      MagnitudeBound(a, b, k, 10, 0x7ff_ffff);
      ConvBelowMagnitude(a, b, k, 10);
      LoadAtMost14(k);
      MulMonotone(Load(k, 10), 0x7ff_ffff * 0x7ff_ffff, 14, 0x7ff_ffff * 0x7ff_ffff);
    }
  }

  // ---------------------------------------------------------------- the machine steps

  /** The coefficients of the product of two field elements taken as 32-bit limbs, not yet reduced. */
  method FProduct(output: array<int>, in2: array<int>, inn: array<int>)
    requires output.Length == 19 && in2.Length >= 10 && inn.Length >= 10 && output != in2 && output != inn
    modifies output
    ensures IsProduct(Narrowed(in2[..]), Narrowed(inn[..]), output[..])
  {
    hide ProductSum, Narrowed, Conv;
    var a, b := Narrowed(in2[..]), Narrowed(inn[..]);
    forall k | 0 <= k < 19
      ensures ProductSum(a, b, k).value == Conv(a, b, k, 10)
      ensures Below(a, LIMIT) && Below(b, LIMIT) ==> ProductSum(a, b, k).fits
    {
      ProductSumRight(a, b, k);
    }
    forall k | 0 <= k < 19 {
      output[k] := ProductSum(a, b, k).value;
    }
    assert in2[..] == old(in2[..]) && inn[..] == old(inn[..]);
  }

  /** The coefficients of the square, which are those of the product with itself. */
  method FSquareInner(output: array<int>, inn: array<int>)
    requires output.Length == 19 && inn.Length >= 10 && output != inn
    modifies output
    ensures IsProduct(Narrowed(inn[..]), Narrowed(inn[..]), output[..])
  {
    hide SquareSum, ProductSum, Narrowed, Conv;
    var a := Narrowed(inn[..]);
    forall k | 0 <= k < 19
      ensures SquareSum(a, k).value == Conv(a, a, k, 10)
      ensures Below(a, LIMIT) ==> SquareSum(a, k).fits
    {
      SquareIsProduct(a, k);
      ProductSumRight(a, a, k);
      if Below(a, LIMIT) {
        SquareFits(a, k);
      }
    }
    forall k | 0 <= k < 19 {
      output[k] := SquareSum(a, k).value;
    }
    assert inn[..] == old(inn[..]);
  }

  /** Limbs from `lo` on have been folded. */
  ghost predicate Folded(t: seq<int>, r: seq<int>, lo: nat) {
    && |t| == |r| == 19 && (forall k :: 9 <= k < 19 ==> r[k] == t[k])
    && (forall k :: lo <= k < 9 ==> r[k] == t[k] + 19 * t[k + 10])
    && (forall k :: 0 <= k < lo && k < 9 ==> r[k] == t[k])
  }

  /** Add nineteen times limb `i + 10` to limb `i`, by shifts. */
  method AddNineteenfold(output: array<int>, i: nat, ghost t: seq<int>)
    requires output.Length == 19 && i < 9 && Below(t, 14 * 0x40_0000_0000_0000) && Folded(t, output[..], i + 1)
    modifies output
    ensures Folded(t, output[..], i)
  {
    assert output[..][i] == t[i] && output[..][i + 10] == t[i + 10];
    ghost var r := output[..];
    assert Fits64(output[i + 10] * 16) && Fits64(output[i + 10] * 2);
    output[i] := output[i] + output[i + 10] * 16;
    assert Fits64(output[i]);
    output[i] := output[i] + output[i + 10] * 2;
    assert Fits64(output[i]);
    output[i] := output[i] + output[i + 10];
    assert Fits64(output[i]);
    assert output[..] == r[i := t[i] + 19 * t[i + 10]];
  }

  /** Fold the upper limbs down. */
  method FReduceDegree(output: array<int>)
    requires output.Length == 19 && Below(output[..], 14 * 0x40_0000_0000_0000)
    modifies output
    ensures Folded(old(output[..]), output[..], 0)
    ensures Below(output[..10], 280 * 0x40_0000_0000_0000)
  {
    ghost var t := output[..];
    AddNineteenfold(output, 8, t);
    AddNineteenfold(output, 7, t);
    AddNineteenfold(output, 6, t);
    AddNineteenfold(output, 5, t);
    AddNineteenfold(output, 4, t);
    AddNineteenfold(output, 3, t);
    AddNineteenfold(output, 2, t);
    AddNineteenfold(output, 1, t);
    AddNineteenfold(output, 0, t);
    FoldedBounds(t, output[..]);
    assert output[..10] == output[..][..10];
  }

  lemma FoldedBounds(t: seq<int>, r: seq<int>)
    requires Folded(t, r, 0) && Below(t, 14 * 0x40_0000_0000_0000)
    ensures Below(r[..10], 280 * 0x40_0000_0000_0000)
  {
    forall k | 0 <= k < 10
      ensures -280 * 0x40_0000_0000_0000 < r[k] < 280 * 0x40_0000_0000_0000
    {
      if k < 9 {
        assert r[k] == t[k] + 19 * t[k + 10];
      }
    }
  }

  lemma WeightFolds(k: nat)
    ensures Weight(k + 10) == Weight(k) * Pow2(255)
  {
    assert Off(k + 10) == Off(k) + 255;
    Pow2Add(Off(k), 255);
  }

  /** The limbs from 10 on, counted from weight 1. */
  ghost function Upper(t: seq<int>, n: nat): int
    requires n + 10 <= |t|
  {
    if n == 0 then 0 else Upper(t, n - 1) + Weight(n - 1) * t[n + 9]
  }

  lemma {:induction false} SumAbove(t: seq<int>, n: nat)
    requires n + 10 <= |t|
    ensures Sum(t, 10 + n) == Sum(t, 10) + Pow2(255) * Upper(t, n)
  {
    hide Weight, Pow2;
    if n > 0 {
      SumAbove(t, n - 1);
      WeightFolds(n - 1);
      var w, x, u, p := Weight(n - 1), t[n + 9], Upper(t, n - 1), Pow2(255);
      assert Sum(t, 10 + n) == Sum(t, 10 + (n - 1)) + Weight(n - 1 + 10) * x;
      assert (w * p) * x == p * (w * x) by {
        Assoc3(w, p, x);
      }
      Distribute(p, u, w * x);
    }
  }

  lemma Assoc3(w: int, p: int, x: int)
    ensures (w * p) * x == p * (w * x)
  {
  }

  lemma {:induction false} SumFolded(t: seq<int>, r: seq<int>, n: nat)
    requires Folded(t, r, 0) && n <= 9
    ensures Sum(r, n) == Sum(t, n) + 19 * Upper(t, n)
  {
    hide Weight;
    if n > 0 {
      SumFolded(t, r, n - 1);
      var w := Weight(n - 1);
      assert r[n - 1] == t[n - 1] + 19 * t[n + 9];
      assert w * (t[n - 1] + 19 * t[n + 9]) == w * t[n - 1] + 19 * (w * t[n + 9]) by {
        Distribute19(w, t[n - 1], t[n + 9]);
      }
    }
  }

  lemma MinusNineteen(p: int, u: int)
    ensures p * u - 19 * u == u * (p - 19)
  {
  }

  lemma Distribute19(w: int, x: int, y: int)
    ensures w * (x + 19 * y) == w * x + 19 * (w * y)
  {
  }

  /** Folding keeps the value modulo the prime. */
  lemma FoldedValue(t: seq<int>, r: seq<int>)
    requires Folded(t, r, 0)
    ensures Congruent(Sum(t, 19), Value(r))
  {
    hide Pow2, Weight, Upper;
    SumAbove(t, 9);
    SumFolded(t, r, 9);
    assert Sum(r, 10) == Sum(r, 9) + Weight(9) * r[9];
    assert Sum(t, 10) == Sum(t, 9) + Weight(9) * t[9];
    var u := Upper(t, 9);
    MinusNineteen(Pow2(255), u);
    CongruentBy(Sum(t, 19), Value(r), u);
  }

  // ---------------------------------------------------------------- division by shifting

  /** Division that truncates towards zero. */
  function Trunc(v: int, d: int): int
    requires d > 0
  {
    if v >= 0 then v / d else -((-v) / d)
  }

  /** All ones if `v` is negative, zero otherwise: the sign bit of the upper word, shifted down. */
  function SignWord(v: int): int {
    var highword := (v % 0x1_0000_0000_0000_0000) / 0x1_0000_0000;
    var signed := if highword >= 0x8000_0000 then highword - 0x1_0000_0000 else highword;
    signed / 0x8000_0000
  }

  function DivBy226(v: int): (r: int)
    requires Fits64(v)
  {
    var roundoff := (SignWord(v) % 0x1_0000_0000) / 0x40;
    (v + roundoff) / 0x400_0000
  }

  function DivBy225(v: int): (r: int)
    requires Fits64(v)
  {
    var roundoff := (SignWord(v) % 0x1_0000_0000) / 0x80;
    (v + roundoff) / 0x200_0000
  }

  lemma SignOf(v: int)
    requires Fits64(v)
    ensures SignWord(v) == if v < 0 then -1 else 0
  {
    var m := v % 0x1_0000_0000_0000_0000;
    assert m == if v < 0 then v + 0x1_0000_0000_0000_0000 else v;
  }

  /** The shifts divide, rounding towards zero, for every 64-bit value and without overflow. */
  lemma DivisionsTruncate(v: int)
    requires Fits64(v)
    ensures DivBy226(v) == Trunc(v, 0x400_0000) && DivBy225(v) == Trunc(v, 0x200_0000)
    ensures Fits64(v + (SignWord(v) % 0x1_0000_0000) / 0x40)
  {
    SignOf(v);
    if v < 0 {
      RoundUp(v, 0x400_0000);
      RoundUp(v, 0x200_0000);
    }
  }

  lemma RoundUp(v: int, d: int)
    requires v < 0 && d > 0
    ensures (v + (d - 1)) / d == -((-v) / d)
  {
    var q, r := (-v) / d, (-v) % d;
    assert -v == q * d + r;
    assert v + (d - 1) == (-q) * d + (d - 1 - r) by {
      assert (-q) * d == -(q * d);
    }
    DivModIs(v + (d - 1), d, -q, d - 1 - r);
  }

  /** What a carry leaves behind is below the divisor, and the carry no larger than the value. */
  lemma Carry26(v: int)
    requires Fits64(v)
    ensures var c := DivBy226(v);
            -0x400_0000 < v - c * 0x400_0000 < 0x400_0000 && (v >= 0 ==> 0 <= c * 0x400_0000 <= v) &&
              (v <= 0 ==> v <= c * 0x400_0000 <= 0)
  {
    DivisionsTruncate(v);
  }

  lemma Carry25(v: int)
    requires Fits64(v)
    ensures var c := DivBy225(v);
            -0x200_0000 < v - c * 0x200_0000 < 0x200_0000 && (v >= 0 ==> 0 <= c * 0x200_0000 <= v) &&
              (v <= 0 ==> v <= c * 0x200_0000 <= 0)
  {
    DivisionsTruncate(v);
  }

  // ---------------------------------------------------------------- carrying

  lemma {:induction false} SumPoint(x: seq<int>, i: nat, v: int, n: nat)
    requires i < |x| && n <= |x|
    ensures Sum(x[i := v], n) == Sum(x, n) + if i < n then Weight(i) * (v - x[i]) else 0
  {
    if n > 0 {
      SumPoint(x, i, v, n - 1);
      if i == n - 1 {
        assert Weight(i) * v == Weight(i) * (v - x[i]) + Weight(i) * x[i] by {
          Distribute(Weight(i), v - x[i], x[i]);
        }
      }
    }
  }

  function Width(i: nat): int {
    if i % 2 == 0 then 0x400_0000 else 0x200_0000
  }

  lemma WeightNext(i: nat)
    ensures Weight(i + 1) == Weight(i) * Width(i)
  {
    hide Pow2, Off;
    Widths();
    OffNext(i);
    Pow2Add(Off(i), if i % 2 == 0 then 26 else 25);
  }

  lemma OffNext(i: nat)
    ensures Off(i + 1) == Off(i) + if i % 2 == 0 then 26 else 25
  {
    var p := i / 2;
    assert i == 2 * p + i % 2;
    assert Off(i) == 51 * p + 26 * (i % 2);
  }

  lemma Widths()
    ensures Pow2(25) == 0x200_0000 && Pow2(26) == 0x400_0000
  {
    assert Pow2(5) == 32;
    Pow2Add(5, 5);
    Pow2Add(10, 10);
    Pow2Add(20, 5);
    assert Pow2(26) == 2 * Pow2(25);
  }

  /** Moving a multiple of a limb's width to the next limb keeps the value. */
  lemma CarryKeeps(x: seq<int>, i: nat, c: int, n: nat)
    requires i + 1 < n <= |x|
    ensures Sum(x[i := x[i] - c * Width(i)][i + 1 := x[i + 1] + c], n) == Sum(x, n)
  {
    hide Weight, Sum;
    var y := x[i := x[i] - c * Width(i)];
    SumPoint(x, i, x[i] - c * Width(i), n);
    SumPoint(y, i + 1, x[i + 1] + c, n);
    WeightNext(i);
    Balance(Weight(i), Width(i), c);
  }

  lemma Balance(w: int, d: int, c: int)
    ensures w * (-(c * d)) + (w * d) * c == 0
  {
  }

  /** Entry bounds while carrying: limbs below `i` are small, the others large. */
  ghost predicate Carrying(x: seq<int>, i: nat) {
    && |x| == 19 && i <= 10
    && (forall k :: 0 <= k < i ==> -Width(k) < x[k] < Width(k))
    && (forall k :: i < k < 10 ==> -280 * 0x40_0000_0000_0000 < x[k] < 280 * 0x40_0000_0000_0000)
    && (i < 10 ==> -281 * 0x40_0000_0000_0000 < x[i] < 281 * 0x40_0000_0000_0000)
    && (i == 10 ==> -281 * 0x2000_0000 < x[10] < 281 * 0x2000_0000)
    && (i < 10 ==> x[10] == 0)
  }

  /** Carry from limb `i` to the next. */
  method CarryLimb(output: array<int>, i: nat)
    requires output.Length == 19 && i < 10 && Carrying(output[..], i)
    modifies output
    ensures Carrying(output[..], i + 1) && Sum(output[..], 11) == Sum(old(output[..]), 11)
  {
    hide Sum, DivBy226, DivBy225;
    ghost var x := output[..];
    assert Fits64(output[i]);
    var over;
    if i % 2 == 0 {
      over := DivBy226(output[i]);
      Carry26(output[i]);
      assert Fits64(over * 0x400_0000);
      output[i] := output[i] - over * 0x400_0000;
    } else {
      over := DivBy225(output[i]);
      Carry25(output[i]);
      assert Fits64(over * 0x200_0000);
      output[i] := output[i] - over * 0x200_0000;
    }
    output[i + 1] := output[i + 1] + over;
    assert Fits64(output[i + 1]);
    assert output[..] == x[i := x[i] - over * Width(i)][i + 1 := x[i + 1] + over];
    CarryKeeps(x, i, over, 11);
  }

  /** Bring every limb below 2^26. */
  method FReduceCoefficients(output: array<int>)
    requires output.Length == 19 && Below(output[..10], 280 * 0x40_0000_0000_0000)
    modifies output
    ensures Below(output[..10], 0x400_0000)
    ensures Congruent(Value(old(output[..])), Value(output[..]))
  {
    hide Sum, Congruent;
    ghost var x0 := output[..];
    output[10] := 0;
    ghost var x := output[..];
    assert forall k :: 0 <= k < 10 ==> x[k] == x0[..10][k];
    EleventhZero(x0, x);
    var i := 0;
    while i < 10
      invariant 0 <= i <= 10 && i % 2 == 0 && Carrying(output[..], i) && Sum(output[..], 11) == Sum(x, 11)
    {
      CarryLimb(output, i);
      CarryLimb(output, i + 1);
      i := i + 2;
    }
    ghost var y := output[..];
    output[0] := output[0] + output[10] * 16;
    output[0] := output[0] + output[10] * 2;
    output[0] := output[0] + output[10];
    assert Fits64(output[0]);
    output[10] := 0;
    ghost var z := output[..];
    assert z == y[0 := y[0] + 19 * y[10]][10 := 0];
    FoldTop(y, z);
    CarryFirst(output);
  }

  /** The first limb, which has taken in the carry from the last, carries once more. */
  method CarryFirst(output: array<int>)
    requires output.Length == 19
    requires -0x400_0000 - 19 * 281 * 0x2000_0000 < output[0] < 0x400_0000 + 19 * 281 * 0x2000_0000
    requires forall k :: 1 <= k < 10 ==> -Width(k) < output[k] < Width(k)
    modifies output
    ensures Below(output[..10], 0x400_0000) && Value(output[..]) == Value(old(output[..]))
  {
    hide Sum, DivBy226;
    ghost var z := output[..];
    var over := DivBy226(output[0]);
    Carry26(output[0]);
    output[0] := output[0] - over * 0x400_0000;
    output[1] := output[1] + over;
    assert -0x1_0000 <= over <= 0x1_0000;
    assert output[..] == z[0 := z[0] - over * Width(0)][1 := z[1] + over];
    CarryKeeps(z, 0, over, 10);
  }

  lemma EleventhZero(x0: seq<int>, x: seq<int>)
    requires |x0| == 19 && x == x0[10 := 0]
    ensures Sum(x, 11) == Value(x0) && Sum(x, 10) == Value(x0)
  {
    hide Weight;
    SumPoint(x0, 10, 0, 10);
    assert Sum(x, 11) == Sum(x, 10) + Weight(10) * x[10];
  }

  /** The carry out of the top limb comes back nineteenfold at the bottom. */
  lemma FoldTop(y: seq<int>, z: seq<int>)
    requires |y| == 19 && z == y[0 := y[0] + 19 * y[10]][10 := 0]
    ensures Congruent(Sum(y, 11), Value(z))
  {
    hide Pow2, Sum, Weight, Prime, Congruent;
    AddToFirst(y, z);
    SumEleven(y);
    EndWeights();
    TopDifference(Sum(y, 11), Sum(y, 10), Value(z), y[10], Pow2(255), Prime());
    CongruentBy(Sum(y, 11), Value(z), y[10]);
  }

  lemma AddToFirst(y: seq<int>, z: seq<int>)
    requires |y| == 19 && z == y[0 := y[0] + 19 * y[10]][10 := 0]
    ensures Value(z) == Sum(y, 10) + 19 * y[10]
  {
    hide Pow2, Sum, Weight, Prime;
    SumPoint(y, 0, y[0] + 19 * y[10], 10);
    SumPoint(y[0 := y[0] + 19 * y[10]], 10, 0, 10);
    EndWeights();
    TimesOne(Weight(0), y[0] + 19 * y[10] - y[0]);
  }

  lemma TimesOne(one: int, x: int)
    requires one == 1
    ensures one * x == x
  {
  }

  lemma TopDifference(s11: int, s10: int, r10: int, y10: int, p: int, prime: int)
    requires s11 == s10 + p * y10 && r10 == s10 + 19 * y10 && prime == p - 19
    ensures s11 - r10 == y10 * prime
  {
    MinusNineteen(p, y10);
  }

  lemma SumEleven(y: seq<int>)
    requires |y| == 19
    ensures Sum(y, 11) == Sum(y, 10) + Weight(10) * y[10]
  {
  }

  lemma EndWeights()
    ensures Weight(0) == 1 && Weight(10) == Pow2(255) && Prime() == Pow2(255) - 19
  {
    hide Pow2;
    assert Off(0) == 0 && Off(10) == 255;
    PowZero();
  }

  lemma PowZero()
    ensures Pow2(0) == 1
  {
  }

  // ---------------------------------------------------------------- multiplication and squaring

  /** Reduce a product to ten limbs below 2^26. */
  lemma ReducedProduct(a: seq<int>, b: seq<int>, t: seq<int>, r: seq<int>, u: seq<int>)
    requires |a| == 10 && |b| == 10 && |t| == 19 && IsProduct(a, b, t) && Folded(t, r, 0) && |r| == 19 && |u| == 19
    requires Congruent(Value(r), Value(u))
    ensures Congruent(Value(a) * Value(b), Value(u))
  {
    hide IsProduct, Sum, Congruent;
    ProductValue(a, b, t);
    FoldedValue(t, r);
    CongruentTrans(Sum(t, 19), Value(r), Value(u));
  }

  /** The product modulo 2^255 - 19, for limbs below 2^27, again with limbs below 2^26. */
  method FMul(output: array<int>, inn: array<int>, in2: array<int>)
    requires output.Length >= 10 && inn.Length >= 10 && in2.Length >= 10 && output != inn && output != in2
    requires Below(inn[..10], LIMIT) && Below(in2[..10], LIMIT)
    modifies output
    ensures Below(output[..10], 0x400_0000)
    ensures Congruent(Value(inn[..10]) * Value(in2[..10]), Value(output[..10]))
  {
    hide IsProduct, Folded, Sum, Congruent, Narrowed;
    var t := new int[19];
    FProduct(t, inn, in2);
    ghost var a, b, p := inn[..10], in2[..10], t[..];
    NarrowSame(inn[..]);
    NarrowSame(in2[..]);
    assert inn[..][..10] == a && in2[..][..10] == b;
    ProductBounds(a, b, p);
    FReduceDegree(t);
    ghost var r := t[..];
    assert t[..10] == r[..10];
    FReduceCoefficients(t);
    ghost var u := t[..];
    ReducedProduct(a, b, p, r, u);
    CopyTen(output, t);
    ValueOfTen(u, output[..10]);
  }

  /** The square modulo 2^255 - 19. */
  method FSquare(output: array<int>, inn: array<int>)
    requires output.Length >= 10 && inn.Length >= 10 && output != inn
    requires Below(inn[..10], LIMIT)
    modifies output
    ensures Below(output[..10], 0x400_0000)
    ensures Congruent(Value(inn[..10]) * Value(inn[..10]), Value(output[..10]))
  {
    hide IsProduct, Folded, Sum, Congruent, Narrowed;
    var t := new int[19];
    FSquareInner(t, inn);
    ghost var a, p := inn[..10], t[..];
    NarrowSame(inn[..]);
    assert inn[..][..10] == a;
    ProductBounds(a, a, p);
    FReduceDegree(t);
    ghost var r := t[..];
    assert t[..10] == r[..10];
    FReduceCoefficients(t);
    ghost var u := t[..];
    ReducedProduct(a, a, p, r, u);
    CopyTen(output, t);
    ValueOfTen(u, output[..10]);
  }

  method CopyTen(output: array<int>, t: array<int>)
    requires output.Length >= 10 && t.Length >= 10 && output != t
    modifies output
    ensures output[..10] == t[..10]
  {
    forall k | 0 <= k < 10 {
      output[k] := t[k];
    }
  }

  lemma {:induction false} SumPrefix(u: seq<int>, m: nat, n: nat)
    requires n <= m <= |u|
    ensures Sum(u[..m], n) == Sum(u, n)
  {
    if n > 0 {
      SumPrefix(u, m, n - 1);
    }
  }

  lemma ValueOfTen(u: seq<int>, v: seq<int>)
    requires |u| >= 10 && v == u[..10]
    ensures Value(v) == Value(u)
  {
    hide Sum;
    SumPrefix(u, 10, 10);
  }
}
