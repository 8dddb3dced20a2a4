/** Arithmetic modulo 2^255 - 19 on ten signed limbs of alternately 26 and 25 bits. */
module Field25519 {
  import opened Arithmetic

  // ---------------------------------------------------------------- limbs and weights

  /** The position of limb `k`'s lowest bit. */
  function Off(k: nat): nat {
    (51 * k + 1) / 2
  }

  ghost function Weight(k: nat): (w: nat)
    ensures w > 0
  {
    Pow2(Off(k))
  }

  /** Limbs 1, 3, 5, ... are one bit narrower, so two of them multiply to twice the weight. */
  function Twice(i: nat, j: nat): nat {
    if i % 2 == 1 && j % 2 == 1 then 2 else 1
  }

  lemma WeightMul(i: nat, j: nat)
    ensures Weight(i) * Weight(j) == Twice(i, j) * Weight(i + j)
  {
    hide Pow2, Off;
    Pow2Add(Off(i), Off(j));
    OffAdd(i, j);
    Pow2Next(Off(i + j));
  }

  lemma OffAdd(i: nat, j: nat)
    ensures Off(i) + Off(j) == Off(i + j) + Twice(i, j) - 1
  {
    var p, q := i / 2, j / 2;
    assert i == 2 * p + i % 2 && j == 2 * q + j % 2;
    assert Off(i) == 51 * p + 26 * (i % 2);
    assert Off(j) == 51 * q + 26 * (j % 2);
  }

  // ---------------------------------------------------------------- values

  ghost function Sum(x: seq<int>, n: nat): int
    requires n <= |x|
  {
    if n == 0 then 0 else Sum(x, n - 1) + Weight(n - 1) * x[n - 1]
  }

  /** The number that ten limbs stand for. */
  ghost function Value(x: seq<int>): int
    requires |x| >= 10
  {
    Sum(x, 10)
  }

  ghost function Prime(): nat {
    Pow2(255) - 19
  }

  ghost predicate Congruent(a: int, b: int) {
    exists q: int :: a - b == q * Prime()
  }

  lemma CongruentBy(a: int, b: int, q: int)
    requires a - b == q * Prime()
    ensures Congruent(a, b)
  {
  }

  lemma CongruentTrans(a: int, b: int, c: int)
    requires Congruent(a, b) && Congruent(b, c)
    ensures Congruent(a, c)
  {
    var q: int :| a - b == q * Prime();
    var r: int :| b - c == r * Prime();
    assert a - c == (q + r) * Prime();
  }

  // ---------------------------------------------------------------- the product of two polynomials

  function Mul(x: int, y: int): int {
    x * y
  }

  /** The contribution of limbs `i` and `k - i` to limb `k` of the product. */
  ghost function Term(a: seq<int>, b: seq<int>, k: nat, i: nat): int {
    if i <= k && i < |a| && k - i < |b| then Twice(i, k - i) * Mul(a[i], b[k - i]) else 0
  }

  ghost function Conv(a: seq<int>, b: seq<int>, k: nat, n: nat): int {
    if n == 0 then 0 else Conv(a, b, k, n - 1) + Term(a, b, k, n - 1)
  }

  ghost function ConvSum(a: seq<int>, b: seq<int>, n: nat, m: nat): int {
    if m == 0 then 0 else ConvSum(a, b, n, m - 1) + Weight(m - 1) * Conv(a, b, m - 1, n)
  }

  /** One limb times a number, spread over the limbs of the product. */
  ghost function RowSum(a: seq<int>, b: seq<int>, i: nat, m: nat): int {
    if m == 0 then 0 else RowSum(a, b, i, m - 1) + Weight(m - 1) * Term(a, b, m - 1, i)
  }

  lemma {:induction false} ConvSplits(a: seq<int>, b: seq<int>, n: nat, m: nat)
    ensures ConvSum(a, b, n + 1, m) == ConvSum(a, b, n, m) + RowSum(a, b, n, m)
    decreases m
  {
    hide Weight, Term;
    if m > 0 {
      ConvSplits(a, b, n, m - 1);
      Distribute(Weight(m - 1), Conv(a, b, m - 1, n), Term(a, b, m - 1, n));
    }
  }

  lemma {:induction false} ConvNone(a: seq<int>, b: seq<int>, m: nat)
    ensures ConvSum(a, b, 0, m) == 0
  {
    if m > 0 {
      ConvNone(a, b, m - 1);
    }
  }

  lemma TermIsProduct(a: seq<int>, b: seq<int>, i: nat, j: nat)
    requires i < |a| && j < |b|
    ensures Weight(i + j) * Term(a, b, i + j, i) == Weight(i) * a[i] * (Weight(j) * b[j])
  {
    hide Weight, Twice;
    WeightMul(i, j);
    assert Term(a, b, i + j, i) == Twice(i, j) * (a[i] * b[j]);
    Assoc(Weight(i + j), Twice(i, j), a[i] * b[j]);
    Shuffle(Weight(i), Weight(j), a[i], b[j]);
  }

  /** Up to limb `i + j` a row holds the product with the first `j` limbs. */
  lemma {:induction false} RowIsProduct(a: seq<int>, b: seq<int>, i: nat, j: nat)
    requires i < |a| && j <= |b|
    ensures RowSum(a, b, i, i + j) == Weight(i) * a[i] * Sum(b, j)
    decreases j
  {
    hide Weight, Term;
    if j == 0 {
      RowBefore(a, b, i, i);
    } else {
      RowIsProduct(a, b, i, j - 1);
      assert i + j - 1 == i + (j - 1);
      TermIsProduct(a, b, i, j - 1);
      Distribute(Weight(i) * a[i], Sum(b, j - 1), Weight(j - 1) * b[j - 1]);
    }
  }

  lemma Assoc(x: int, y: int, z: int)
    ensures x * (y * z) == (y * x) * z
  {
  }

  lemma Shuffle(x: int, y: int, u: int, v: int)
    ensures (x * y) * (u * v) == x * u * (y * v)
  {
  }

  lemma Distribute(x: int, y: int, z: int)
    ensures x * (y + z) == x * y + x * z
  {
  }

  lemma DistributeRight(x: int, y: int, z: int)
    ensures (x + y) * z == x * z + y * z
  {
  }

  lemma {:induction false} RowBefore(a: seq<int>, b: seq<int>, i: nat, m: nat)
    requires m <= i
    ensures RowSum(a, b, i, m) == 0
  {
    if m > 0 {
      RowBefore(a, b, i, m - 1);
    }
  }

  /** Beyond its last product a row holds nothing more. */
  lemma {:induction false} RowAfter(a: seq<int>, b: seq<int>, i: nat, m: nat)
    requires i < |a| && m >= i + |b|
    ensures RowSum(a, b, i, m) == RowSum(a, b, i, i + |b|)
    decreases m
  {
    if m > i + |b| {
      RowAfter(a, b, i, m - 1);
    }
  }

  lemma {:induction false} ProductUpTo(a: seq<int>, b: seq<int>, n: nat, m: nat)
    requires n <= |a| && (n > 0 ==> m >= n - 1 + |b|)
    ensures ConvSum(a, b, n, m) == Sum(a, n) * Sum(b, |b|)
    decreases n
  {
    hide ConvSum, RowSum, Weight;
    if n == 0 {
      ConvNone(a, b, m);
    } else {
      ProductUpTo(a, b, n - 1, m);
      ConvSplits(a, b, n - 1, m);
      RowAfter(a, b, n - 1, m);
      RowIsProduct(a, b, n - 1, |b|);
      DistributeRight(Sum(a, n - 1), Weight(n - 1) * a[n - 1], Sum(b, |b|));
    }
  }

  /** `out` holds the coefficients of the product of `a` and `b`. */
  ghost predicate IsProduct(a: seq<int>, b: seq<int>, out: seq<int>) {
    |out| >= 19 && forall k :: 0 <= k < 19 ==> out[k] == Conv(a, b, k, 10)
  }

  lemma {:induction false} SumIsConvSum(a: seq<int>, b: seq<int>, out: seq<int>, m: nat)
    requires IsProduct(a, b, out) && m <= 19
    ensures Sum(out, m) == ConvSum(a, b, 10, m)
  {
    if m > 0 {
      SumIsConvSum(a, b, out, m - 1);
    }
  }

  /** The product's coefficients stand for the product of the numbers. */
  lemma ProductValue(a: seq<int>, b: seq<int>, out: seq<int>)
    requires |a| == 10 && |b| == 10 && IsProduct(a, b, out)
    ensures Sum(out, 19) == Value(a) * Value(b)
  {
    SumIsConvSum(a, b, out, 19);
    ProductUpTo(a, b, 10, 19);
  }

  // ---------------------------------------------------------------- bounds

  ghost function Abs(x: int): nat {
    if x < 0 then -x else x
  }

  /** The sum of the magnitudes of all terms of a coefficient, which bounds every partial sum. */
  ghost function Magnitude(a: seq<int>, b: seq<int>, k: nat, n: nat): nat {
    if n == 0 then 0 else Magnitude(a, b, k, n - 1) + Abs(Term(a, b, k, n - 1))
  }

  ghost function Load(k: nat, n: nat): nat {
    if n == 0 then 0
    else Load(k, n - 1) + if n - 1 <= k && n - 1 < 10 && k - (n - 1) < 10 then Twice(n - 1, k - (n - 1)) else 0
  }

  ghost predicate Below(x: seq<int>, bound: int) {
    forall i :: 0 <= i < |x| ==> -bound < x[i] < bound
  }

  lemma AbsMul(x: int, y: int)
    ensures Abs(x * y) == Abs(x) * Abs(y)
  {
    if x < 0 {
      assert x * y == -((-x) * y);
    }
    if y < 0 {
      assert x * y == -(x * (-y));
    }
  }

  lemma MulMonotone(u: nat, v: nat, b: nat, c: nat)
    requires u <= b && v <= c
    ensures u * v <= b * c
  {
    assert u * v <= b * v;
    assert b * v <= b * c;
  }

  lemma TermBound(a: seq<int>, b: seq<int>, k: nat, i: nat, m: nat)
    requires |a| == 10 && |b| == 10 && Below(a, m + 1) && Below(b, m + 1) && i <= k && i < 10 && k - i < 10
    ensures Abs(Term(a, b, k, i)) <= Twice(i, k - i) * (m * m)
  {
    var t := Twice(i, k - i);
    AbsMul(a[i], b[k - i]);
    MulMonotone(Abs(a[i]), Abs(b[k - i]), m, m);
    AbsMul(t, a[i] * b[k - i]);
    MulMonotone(t, Abs(a[i] * b[k - i]), t, m * m);
  }

  lemma {:induction false} MagnitudeBound(a: seq<int>, b: seq<int>, k: nat, n: nat, m: nat)
    requires |a| == 10 && |b| == 10 && Below(a, m + 1) && Below(b, m + 1)
    ensures Magnitude(a, b, k, n) <= Load(k, n) * (m * m)
    decreases n
  {
    hide Below, Abs, Twice;
    if n > 0 {
      MagnitudeBound(a, b, k, n - 1, m);
      var i := n - 1;
      if i <= k && i < 10 && k - i < 10 {
        TermBound(a, b, k, i, m);
        DistributeRight(Load(k, n - 1), Twice(i, k - i), m * m);
      } else {
        NoTerm(a, b, k, i);
      }
    }
  }

  lemma NoTerm(a: seq<int>, b: seq<int>, k: nat, i: nat)
    requires |a| == 10 && |b| == 10 && !(i <= k && i < 10 && k - i < 10)
    ensures Abs(Term(a, b, k, i)) == 0
  {
  }

  lemma {:induction false} ConvBelowMagnitude(a: seq<int>, b: seq<int>, k: nat, n: nat)
    ensures Abs(Conv(a, b, k, n)) <= Magnitude(a, b, k, n)
  {
    if n > 0 {
      ConvBelowMagnitude(a, b, k, n - 1);
    }
  }

  /** Only every other term counts twice, and those of an odd limb never do. */
  lemma {:induction false} LoadSteps(k: nat, n: nat)
    ensures Load(k, n) <= n + n / 2
    ensures k % 2 == 1 ==> Load(k, n) <= n
    ensures k >= 10 && n >= 1 ==> Load(k, n) <= n - 1 + n / 2
  {
    if n > 0 {
      LoadSteps(k, n - 1);
      var i := n - 1;
      assert k % 2 == 1 && i <= k ==> Twice(i, k - i) == 1;
      assert i % 2 == 0 && i <= k ==> Twice(i, k - i) == 1;
    }
  }

  lemma LoadAtMost14(k: nat)
    requires k < 19
    ensures Load(k, 10) <= 14
  {
    LoadSteps(k, 10);
    LoadSteps(k, 9);
    if k < 9 {
      assert Load(k, 10) == Load(k, 9);
    }
  }
}
