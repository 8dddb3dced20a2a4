/** Field elements as 32 little-endian bytes: expansion into limbs and contraction to
    the canonical encoding. */
module FieldBytes {
  import opened Arithmetic
  import opened Field25519
  import opened FieldProduct
  import CT = ConstantTime

  // ---------------------------------------------------------------- division and remainder

  lemma ModAdd(x: int, d: int, k: int)
    requires d > 0
    ensures (x + d * k) % d == x % d && (x + d * k) / d == x / d + k
  {
    var q, r := x / d, x % d;
    assert x == q * d + r;
    assert (q + k) * d == q * d + d * k by {
      DistributeRight(q, k, d);
    }
    DivModIs(x + d * k, d, q + k, r);
  }

  /** The remainder by a product, digit by digit. */
  lemma ModMul(x: int, a: int, b: int)
    requires a > 0 && b > 0
    ensures a * b > 0 && x % (a * b) == x % a + a * ((x / a) % b)
  {
    var q, r := x / a, x % a;
    var u, v := q / b, q % b;
    assert x == q * a + r && q == u * b + v;
    assert a * b > 0;
    assert x == u * (a * b) + (a * v + r) by {
      Regroup(u, b, v, a);
    }
    assert 0 <= a * v + r < a * b by {
      DigitBound(a, b, v, r);
    }
    DivModIs(x, a * b, u, a * v + r);
  }

  lemma Regroup(u: int, b: int, v: int, a: int)
    ensures (u * b + v) * a == u * (a * b) + a * v
  {
  }

  lemma DigitBound(a: int, b: int, v: int, r: int)
    requires a > 0 && 0 <= v < b && 0 <= r < a
    ensures 0 <= a * v + r < a * b
  {
    assert a * v <= a * (b - 1);
    assert a * (b - 1) == a * b - a;
  }

  lemma DivMul(x: int, a: int, b: int)
    requires a > 0 && b > 0
    ensures a * b > 0 && x / (a * b) == (x / a) / b
  {
    var q, r := x / a, x % a;
    var u, v := q / b, q % b;
    assert x == q * a + r && q == u * b + v;
    assert x == u * (a * b) + (a * v + r) by {
      Regroup(u, b, v, a);
    }
    DigitBound(a, b, v, r);
    DivModIs(x, a * b, u, a * v + r);
  }

  // ---------------------------------------------------------------- bitwise or

  /** Where the bits do not meet, or is addition. */
  lemma {:induction false} OrDisjoint(n: nat, a: nat, c: nat, k: nat)
    requires k <= n && a < Pow2(k) && CT.Word(n, a + c * Pow2(k))
    ensures CT.Or(n, a, c * Pow2(k)) == a + c * Pow2(k)
    decreases k
  {
    if k == 0 {
      assert c * Pow2(k) == c;
      CT.MaskedWord(n, c);
    } else {
      var p := Pow2(k - 1);
      assert c * Pow2(k) == 2 * (c * p) by {
        CT.Twofold(c, p);
      }
      OrDisjoint(n - 1, a / 2, c, k - 1);
    }
  }

  // ---------------------------------------------------------------- byte strings

  ghost predicate Bytes(b: seq<int>) {
    forall i :: 0 <= i < |b| ==> 0 <= b[i] < 256
  }

  ghost function BytesValue(b: seq<int>, n: nat): int
    requires n <= |b|
  {
    if n == 0 then 0 else BytesValue(b, n - 1) + Pow2(8 * (n - 1)) * b[n - 1]
  }

  lemma {:induction false} BytesBound(b: seq<int>, n: nat)
    requires n <= |b| && Bytes(b)
    ensures 0 <= BytesValue(b, n) < Pow2(8 * n)
  {
    if n > 0 {
      BytesBound(b, n - 1);
      ByteWeight(n - 1);
      DigitBound(Pow2(8 * (n - 1)), 256, b[n - 1], BytesValue(b, n - 1));
    }
  }

  lemma ByteWeight(n: nat)
    ensures Pow2(8 * (n + 1)) == Pow2(8 * n) * 256
  {
    Pow2Add(8 * n, 8);
    assert Pow2(8) == 256;
    assert 8 * (n + 1) == 8 * n + 8;
  }

  /** Bytes are determined by their value. */
  lemma {:induction false} BytesUnique(b: seq<int>, c: seq<int>, n: nat)
    requires n <= |b| && n <= |c| && Bytes(b) && Bytes(c) && BytesValue(b, n) == BytesValue(c, n)
    ensures b[..n] == c[..n]
  {
    hide Pow2;
    if n > 0 {
      BytesBound(b, n - 1);
      BytesBound(c, n - 1);
      var p := Pow2(8 * (n - 1));
      DivModIs(BytesValue(b, n), p, b[n - 1], BytesValue(b, n - 1));
      DivModIs(BytesValue(c, n), p, c[n - 1], BytesValue(c, n - 1));
      BytesUnique(b, c, n - 1);
      assert b[..n] == b[..n - 1] + [b[n - 1]] && c[..n] == c[..n - 1] + [c[n - 1]];
    }
  }

  // ---------------------------------------------------------------- expansion

  /** Four bytes as a word, by shifting and or. */
  function Word(b0: nat, b1: nat, b2: nat, b3: nat): nat {
    CT.Or(32, CT.Or(32, CT.Or(32, b0, b1 * 0x100), b2 * 0x1_0000), b3 * 0x100_0000)
  }

  lemma Powers()
    ensures Pow2(8) == 0x100 && Pow2(16) == 0x1_0000 && Pow2(24) == 0x100_0000 && Pow2(32) == 0x1_0000_0000
  {
    assert Pow2(4) == 16;
    Pow2Add(4, 4);
    Pow2Add(8, 8);
    Pow2Add(16, 8);
    Pow2Add(16, 16);
  }

  lemma WordIs(b0: nat, b1: nat, b2: nat, b3: nat)
    requires b0 < 256 && b1 < 256 && b2 < 256 && b3 < 256
    ensures Word(b0, b1, b2, b3) == b0 + b1 * 0x100 + b2 * 0x1_0000 + b3 * 0x100_0000
  {
    hide Pow2, CT.Or;
    Powers();
    OrDisjoint(32, b0, b1, 8);
    OrDisjoint(32, b0 + b1 * 0x100, b2, 16);
    OrDisjoint(32, b0 + b1 * 0x100 + b2 * 0x1_0000, b3, 24);
  }

  /** A word read at byte `s`, inside the whole number. */
  lemma WordInside(b: seq<int>, s: nat)
    requires |b| == 32 && Bytes(b) && s + 4 <= 32
    ensures exists high: nat ::
              BytesValue(b, 32) / Pow2(8 * s) ==
                b[s] + b[s + 1] * 0x100 + b[s + 2] * 0x1_0000 + b[s + 3] * 0x100_0000 + 0x1_0000_0000 * high
  {
    hide Pow2;
    var n := BytesValue(b, 32);
    BytesBound(b, s);
    var high := BytesFrom(b, s + 4, 32);
    var p := Pow2(8 * s);
    FourBytes(b, s);
    ByteSplit(b, s + 4, 32);
    var w := b[s] + b[s + 1] * 0x100 + b[s + 2] * 0x1_0000 + b[s + 3] * 0x100_0000;
    assert n == BytesValue(b, s) + p * w + Pow2(8 * (s + 4)) * high;
    Pow2Add(8 * s, 32);
    Powers();
    assert Pow2(8 * (s + 4)) == p * 0x1_0000_0000 by {
      assert 8 * (s + 4) == 8 * s + 32;
    }
    assert n == (w + 0x1_0000_0000 * high) * p + BytesValue(b, s) by {
      Collect(p, w, high);
    }
    DivModIs(n, p, w + 0x1_0000_0000 * high, BytesValue(b, s));
    assert high >= 0 by {
      BytesFromPositive(b, s + 4, 32);
    }
  }

  lemma Collect(p: int, w: int, h: int)
    ensures (w + 0x1_0000_0000 * h) * p == p * w + (p * 0x1_0000_0000) * h
  {
  }

  /** The bytes from `s` up to `n`, counted from weight 1. */
  ghost function BytesFrom(b: seq<int>, s: nat, n: nat): int
    requires s <= n <= |b|
  {
    if n == s then 0 else BytesFrom(b, s, n - 1) + Pow2(8 * (n - 1 - s)) * b[n - 1]
  }

  lemma {:induction false} ByteSplit(b: seq<int>, s: nat, n: nat)
    requires s <= n <= |b|
    ensures BytesValue(b, n) == BytesValue(b, s) + Pow2(8 * s) * BytesFrom(b, s, n)
    decreases n
  {
    hide Pow2;
    if n > s {
      ByteSplit(b, s, n - 1);
      Pow2Add(8 * s, 8 * (n - 1 - s));
      assert 8 * s + 8 * (n - 1 - s) == 8 * (n - 1);
      SplitStep(Pow2(8 * s), BytesFrom(b, s, n - 1), Pow2(8 * (n - 1 - s)), b[n - 1]);
    }
  }

  lemma SplitStep(p: int, f: int, q: int, x: int)
    ensures p * (f + q * x) == p * f + (p * q) * x
  {
  }

  lemma {:induction false} BytesFromPositive(b: seq<int>, s: nat, n: nat)
    requires s <= n <= |b| && Bytes(b)
    ensures BytesFrom(b, s, n) >= 0
    decreases n
  {
    if n > s {
      BytesFromPositive(b, s, n - 1);
      assert Pow2(8 * (n - 1 - s)) * b[n - 1] >= 0;
    }
  }

  lemma FourBytes(b: seq<int>, s: nat)
    requires s + 4 <= |b|
    ensures BytesValue(b, s + 4) ==
            BytesValue(b, s) + Pow2(8 * s) * (b[s] + b[s + 1] * 0x100 + b[s + 2] * 0x1_0000 + b[s + 3] * 0x100_0000)
  {
    hide Pow2;
    ByteWeight(s);
    ByteWeight(s + 1);
    ByteWeight(s + 2);
    var p := Pow2(8 * s);
    assert BytesValue(b, s + 2) == BytesValue(b, s) + p * b[s] + (p * 256) * b[s + 1] by {
      assert BytesValue(b, s + 1) == BytesValue(b, s) + p * b[s];
    }
    assert BytesValue(b, s + 4) ==
           BytesValue(b, s + 2) + (p * 256 * 256) * b[s + 2] + (p * 256 * 256 * 256) * b[s + 3] by {
      assert BytesValue(b, s + 3) == BytesValue(b, s + 2) + Pow2(8 * (s + 2)) * b[s + 2];
    }
    FourTerms(p, b[s], b[s + 1], b[s + 2], b[s + 3]);
  }

  lemma FourTerms(p: int, x0: int, x1: int, x2: int, x3: int)
    ensures p * (x0 + x1 * 0x100 + x2 * 0x1_0000 + x3 * 0x100_0000) ==
            p * x0 + (p * 256) * x1 + (p * 256 * 256) * x2 + (p * 256 * 256 * 256) * x3
  {
  }

  /** Limb `i` of a number: its bits from the limb's position on, as many as the limb is wide. */
  ghost function Digit(n: int, i: nat): int {
    (n / Pow2(Off(i))) % Width(i)
  }

  lemma {:induction false} DigitsValue(n: int, x: seq<int>, m: nat)
    requires m <= |x| && forall i :: 0 <= i < m ==> x[i] == Digit(n, i)
    ensures Sum(x, m) == n % Weight(m)
  {
    hide Pow2;
    if m == 0 {
      EndWeights();
    } else {
      DigitsValue(n, x, m - 1);
      WeightNext(m - 1);
      ModMul(n, Weight(m - 1), Width(m - 1));
    }
  }

  lemma HighBitsDrop(word: int, high: int, d: int, m: int, k: int)
    requires d > 0 && m > 0 && d * (m * k) == 0x1_0000_0000
    ensures ((word + 0x1_0000_0000 * high) / d) % m == (word / d) % m
  {
    assert 0x1_0000_0000 * high == d * (m * (k * high)) by {
      Nest(d, m, k, high);
    }
    ModAdd(word, d, m * (k * high));
    ModAdd(word / d, m, k * high);
  }

  lemma Nest(d: int, m: int, k: int, h: int)
    ensures (d * (m * k)) * h == d * (m * (k * h))
  {
  }

  /** The bits of a word that limb `i` consists of. */
  lemma LimbOfWord(b: seq<int>, i: nat, s: nat, shift: nat, d: int, k: int)
    requires |b| == 32 && Bytes(b) && s + 4 <= 32 && Off(i) == 8 * s + shift && d == Pow2(shift)
    requires d * (Width(i) * k) == 0x1_0000_0000
    ensures (Word(b[s], b[s + 1], b[s + 2], b[s + 3]) / d) % Width(i) == Digit(BytesValue(b, 32), i)
  {
    hide Pow2, Word, BytesValue;
    var n := BytesValue(b, 32);
    WordInside(b, s);
    WordIs(b[s], b[s + 1], b[s + 2], b[s + 3]);
    var w := Word(b[s], b[s + 1], b[s + 2], b[s + 3]);
    var high: nat :| n / Pow2(8 * s) == w + 0x1_0000_0000 * high;
    Pow2Add(8 * s, shift);
    DivMul(n, Pow2(8 * s), d);
    HighBitsDrop(w, high, d, Width(i), k);
  }

  lemma SmallPowers()
    ensures Pow2(0) == 1 && Pow2(1) == 2 && Pow2(2) == 4 && Pow2(3) == 8 && Pow2(4) == 16 && Pow2(5) == 32
    ensures Pow2(6) == 64
  {
  }

  /** Expand 32 bytes into limbs. The value's top bit is dropped. */
  method FExpand(output: array<int>, input: array<int>)
    requires output.Length >= 10 && input.Length == 32 && output != input && Bytes(input[..])
    modifies output
    ensures Value(output[..10]) == BytesValue(input[..], 32) % Pow2(255)
    ensures forall i :: 0 <= i < 10 ==> 0 <= output[i] < Width(i)
  {
    hide Pow2, Word, BytesValue, Sum, Digit;
    ghost var b := input[..];
    var t := [
      Word(input[0], input[1], input[2], input[3]) % 0x400_0000,
      (Word(input[3], input[4], input[5], input[6]) / 4) % 0x200_0000,
      (Word(input[6], input[7], input[8], input[9]) / 8) % 0x400_0000,
      (Word(input[9], input[10], input[11], input[12]) / 32) % 0x200_0000,
      (Word(input[12], input[13], input[14], input[15]) / 64) % 0x400_0000,
      Word(input[16], input[17], input[18], input[19]) % 0x200_0000,
      (Word(input[19], input[20], input[21], input[22]) / 2) % 0x400_0000,
      (Word(input[22], input[23], input[24], input[25]) / 8) % 0x200_0000,
      (Word(input[25], input[26], input[27], input[28]) / 16) % 0x400_0000,
      (Word(input[28], input[29], input[30], input[31]) / 64) % 0x200_0000];
    SmallPowers();
    LimbOfWord(b, 0, 0, 0, 1, 64);
    LimbOfWord(b, 1, 3, 2, 4, 32);
    LimbOfWord(b, 2, 6, 3, 8, 8);
    LimbOfWord(b, 3, 9, 5, 32, 4);
    LimbOfWord(b, 4, 12, 6, 64, 1);
    LimbOfWord(b, 5, 16, 0, 1, 128);
    LimbOfWord(b, 6, 19, 1, 2, 32);
    LimbOfWord(b, 7, 22, 3, 8, 16);
    LimbOfWord(b, 8, 25, 4, 16, 4);
    LimbOfWord(b, 9, 28, 6, 64, 2);
    DigitsValue(BytesValue(b, 32), t, 10);
    EndWeights();
    forall k | 0 <= k < 10 {
      output[k] := t[k];
    }
    assert output[..10] == t && input[..] == b;
  }

  // ---------------------------------------------------------------- contraction: making limbs non-negative

  predicate Fits32(x: int) {
    -0x8000_0000 <= x < 0x8000_0000
  }

  /** The bits of a 32-bit integer. */
  function Bits(x: int): nat {
    x % 0x1_0000_0000
  }

  lemma BitsFacts(x: int)
    ensures CT.Word(32, Bits(x)) && (Fits32(x) ==> S32(Bits(x)) == x)
    ensures Bits(-1) == Pow2(32) - 1 && Bits(0) == 0 && Pow2(32) == 0x1_0000_0000
  {
    hide Pow2;
    Powers();
  }

  /** The bits that a value and a mask share. */
  function Masked(x: int, mask: int): (r: int)
    ensures Fits32(x) && (mask == 0 || mask == -1) ==> r == if mask == -1 then x else 0
  {
    BitsFacts(x);
    CT.MaskedWord(32, Bits(x));
    S32(CT.And(32, Bits(x), Bits(mask)))
  }

  /** Borrow for a negative limb from the next one. */
  method BorrowLimb(x: array<int>, i: nat)
    requires x.Length == 10 && i < 9 && -0x400_0002 <= x[i] < 0x400_0000 && -0x400_0000 < x[i + 1] < 0x400_0000
    modifies x
    ensures 0 <= x[i] < 0x400_0000 && (old(x[i]) >= 0 ==> x[i] == old(x[i]) && x[i + 1] == old(x[i + 1]))
    ensures old(x[i]) < 0 ==> x[i] == old(x[i]) % Width(i) && x[i + 1] == old(x[i + 1]) + old(x[i]) / Width(i)
    ensures forall k :: 0 <= k < 10 && k != i && k != i + 1 ==> x[k] == old(x[k])
    ensures Value(x[..]) == Value(old(x[..]))
  {
    ghost var y := x[..];
    var mask := x[i] / 0x8000_0000;
    var carry := if i % 2 == 1 then -(Masked(x[i], mask) / 0x200_0000) else -(Masked(x[i], mask) / 0x400_0000);
    assert 0 <= carry <= 3;
    assert Fits32(carry * Width(i));
    x[i] := x[i] + carry * (if i % 2 == 1 then 0x200_0000 else 0x400_0000);
    x[i + 1] := x[i + 1] - carry;
    assert Fits32(x[i]) && Fits32(x[i + 1]);
    assert x[..] == y[i := y[i] - (-carry) * Width(i)][i + 1 := y[i + 1] + (-carry)];
    CarryKeeps(y, i, -carry, 10);
  }

  /** What the second pass may find: only the first limb may be negative, and only slightly. */
  ghost predicate AlmostPositive(x: seq<int>) {
    |x| == 10 && -57 <= x[0] < 0x400_0000 && forall k :: 1 <= k < 10 ==> 0 <= x[k] < 0x400_0000
  }

  ghost predicate Positive(x: seq<int>) {
    |x| == 10 && forall k :: 0 <= k < 10 ==> 0 <= x[k] < 0x400_0000
  }

  ghost predicate FirstBorrow(x: seq<int>, i: nat) {
    && |x| == 10 && i < 10
    && (forall k :: 0 <= k < i ==> 0 <= x[k] < 0x400_0000)
    && -0x400_0002 <= x[i] < 0x400_0000
    && (forall k :: i < k < 10 ==> -0x400_0000 < x[k] < 0x400_0000)
  }

  /** In the second pass a borrow can only come all the way from the first limb. */
  ghost predicate SecondBorrow(x: seq<int>, i: nat) {
    && |x| == 10 && i < 10
    && (forall k :: 0 <= k < i ==> 0 <= x[k] < 0x400_0000)
    && (if i == 0 then -57 else -1) <= x[i] < 0x400_0000
    && (i > 0 && x[i] < 0 ==> x[0] >= 0x400_0000 - 57)
    && (forall k :: i < k < 10 ==> 0 <= x[k] < 0x400_0000)
  }

  /** One borrow pass: all limbs in turn, the last from the first, nineteenfold. */
  method BorrowPass(x: array<int>, ghost first: bool)
    requires x.Length == 10 && if first then Below(x[..], 0x400_0000) else AlmostPositive(x[..])
    modifies x
    ensures if first then AlmostPositive(x[..]) else Positive(x[..])
    ensures Congruent(Value(x[..]), Value(old(x[..])))
  {
    hide Sum, Congruent, Masked;
    ghost var y := x[..];
    for i := 0 to 9
      invariant if first then FirstBorrow(x[..], i) else SecondBorrow(x[..], i)
      invariant Value(x[..]) == Value(y)
    {
      BorrowLimb(x, i);
    }
    ghost var z := x[..];
    var mask := x[9] / 0x8000_0000;
    var carry := -(Masked(x[9], mask) / 0x200_0000);
    assert 0 <= carry <= 3 && (!first ==> carry <= 1);
    x[9] := x[9] + carry * 0x200_0000;
    x[0] := x[0] - carry * 19;
    assert Fits32(carry * 0x200_0000) && Fits32(x[9]) && Fits32(x[0]);
    assert x[..] == z[9 := z[9] + carry * 0x200_0000][0 := z[0] - carry * 19];
    WrapAround(z, carry, x[..]);
  }

  /** Moving multiples of the top limb's width to the bottom, nineteenfold, changes the value by
      multiples of the prime. */
  lemma WrapAround(z: seq<int>, c: int, x: seq<int>)
    requires |z| == 10 && x == z[9 := z[9] + c * 0x200_0000][0 := z[0] - c * 19]
    ensures Congruent(Value(x), Value(z))
  {
    hide Pow2, Sum, Weight, Prime, Congruent;
    var z1 := z[9 := z[9] + c * 0x200_0000];
    SumPoint(z, 9, z[9] + c * 0x200_0000, 10);
    SumPoint(z1, 0, z[0] - c * 19, 10);
    EndWeights();
    WeightNext(9);
    WrapDifference(Value(x), Value(z), Weight(9), Weight(0), Pow2(255), Prime(), c, z[9], z[0]);
    CongruentBy(Value(x), Value(z), c);
  }

  lemma WrapDifference(vx: int, vz: int, w9: int, one: int, p: int, prime: int, c: int, z9: int, z0: int)
    requires one == 1 && w9 * 0x200_0000 == p && prime == p - 19
    requires vx == vz + w9 * (z9 + c * 0x200_0000 - z9) + one * (z0 - c * 19 - z0)
    ensures vx - vz == c * prime
  {
    assert w9 * (z9 + c * 0x200_0000 - z9) == c * (w9 * 0x200_0000) by {
      Swap(w9, c);
    }
    TimesOne(one, z0 - c * 19 - z0);
    MinusNineteen(p, c);
  }

  lemma Swap(w: int, c: int)
    ensures w * (c * 0x200_0000) == c * (w * 0x200_0000)
  {
  }

  // ---------------------------------------------------------------- contraction: carrying into width

  ghost predicate InWidth(x: seq<int>) {
    |x| == 10 && forall k :: 0 <= k < 10 ==> 0 <= x[k] < Width(k)
  }

  /** What the second carry pass may find: only the first limb may be too large, and only slightly. */
  ghost predicate AlmostInWidth(x: seq<int>) {
    |x| == 10 && 0 <= x[0] < 0x400_0000 + 38 && forall k :: 1 <= k < 10 ==> 0 <= x[k] < Width(k)
  }

  method CarryUp(x: array<int>, i: nat)
    requires x.Length == 10 && i < 9 && 0 <= x[i] < 0x400_0000 + 38 && 0 <= x[i + 1] < 0x400_0000
    modifies x
    ensures x[i] == old(x[i]) % Width(i) && x[i + 1] == old(x[i + 1]) + old(x[i]) / Width(i)
    ensures forall k :: 0 <= k < 10 && k != i && k != i + 1 ==> x[k] == old(x[k])
    ensures Value(x[..]) == Value(old(x[..]))
  {
    ghost var y := x[..];
    var carry;
    if i % 2 == 1 {
      carry := x[i] / 0x200_0000;
      x[i] := x[i] % 0x200_0000;
    } else {
      carry := x[i] / 0x400_0000;
      x[i] := x[i] % 0x400_0000;
    }
    x[i + 1] := x[i + 1] + carry;
    assert Fits32(x[i + 1]);
    assert x[..] == y[i := y[i] - carry * Width(i)][i + 1 := y[i + 1] + carry];
    CarryKeeps(y, i, carry, 10);
  }

  ghost predicate FirstCarry(x: seq<int>, i: nat) {
    && |x| == 10 && i < 10
    && (forall k :: 0 <= k < i ==> 0 <= x[k] < Width(k))
    && 0 <= x[i] <= 0x400_0001
    && (forall k :: i < k < 10 ==> 0 <= x[k] < 0x400_0000)
  }

  /** In the second pass a carry can only come all the way from the first limb. */
  ghost predicate SecondCarry(x: seq<int>, i: nat) {
    && |x| == 10 && i < 10
    && (forall k :: 0 <= k < i ==> 0 <= x[k] < Width(k))
    && 0 <= x[i] < (if i == 0 then 0x400_0000 + 38 else Width(i) + 1)
    && (i > 0 && x[i] == Width(i) ==> x[0] < 38)
    && (forall k :: i < k < 10 ==> 0 <= x[k] < Width(k))
  }

  method CarryPass(x: array<int>, ghost first: bool)
    requires x.Length == 10 && if first then Positive(x[..]) else AlmostInWidth(x[..])
    modifies x
    ensures if first then AlmostInWidth(x[..]) else InWidth(x[..])
    ensures Congruent(Value(x[..]), Value(old(x[..])))
  {
    hide Sum, Congruent;
    ghost var y := x[..];
    for i := 0 to 9
      invariant if first then FirstCarry(x[..], i) else SecondCarry(x[..], i)
      invariant Value(x[..]) == Value(y)
    {
      CarryUp(x, i);
    }
    CarryTop(x, first);
  }

  /** The top limb's carry comes back nineteenfold at the bottom. */
  method CarryTop(x: array<int>, ghost first: bool)
    requires x.Length == 10 && if first then FirstCarry(x[..], 9) else SecondCarry(x[..], 9)
    modifies x
    ensures if first then AlmostInWidth(x[..]) else InWidth(x[..])
    ensures Congruent(Value(x[..]), Value(old(x[..])))
  {
    hide Sum, Congruent;
    ghost var z := x[..];
    var carry := x[9] / 0x200_0000;
    assert 0 <= carry <= 2 && (!first ==> carry <= 1);
    x[9] := x[9] % 0x200_0000;
    x[0] := x[0] + 19 * carry;
    assert Fits32(x[0]);
    assert x[..] == z[9 := z[9] + (-carry) * 0x200_0000][0 := z[0] - (-carry) * 19];
    WrapAround(z, -carry, x[..]);
  }

  // ---------------------------------------------------------------- contraction: the canonical representative

  ghost function Largest(): seq<int> {
    seq(10, i requires 0 <= i < 10 => Width(i) - 1)
  }

  lemma {:induction false} LargestSum(n: nat)
    requires n <= 10
    ensures Sum(Largest(), n) == Weight(n) - 1
  {
    hide Pow2;
    if n == 0 {
      EndWeights();
    } else {
      LargestSum(n - 1);
      WeightNext(n - 1);
      assert Weight(n - 1) * (Width(n - 1) - 1) == Weight(n - 1) * Width(n - 1) - Weight(n - 1);
    }
  }

  lemma {:induction false} SumBelowLargest(x: seq<int>, n: nat)
    requires |x| == 10 && n <= 10 && forall k :: 0 <= k < n ==> 0 <= x[k] < Width(k)
    ensures 0 <= Sum(x, n) <= Sum(Largest(), n)
  {
    hide Weight;
    if n > 0 {
      SumBelowLargest(x, n - 1);
      MulMonotone(Weight(n - 1), x[n - 1], Weight(n - 1), Width(n - 1) - 1);
      assert Weight(n - 1) * x[n - 1] >= 0;
    }
  }

  /** Limbs within their widths stand for a number below 2^255. */
  lemma InWidthBound(x: seq<int>)
    requires InWidth(x)
    ensures 0 <= Value(x) < Pow2(255)
  {
    hide Pow2, Sum;
    SumBelowLargest(x, 10);
    LargestSum(10);
    EndWeights();
  }

  ghost predicate IsPrimeOrMore(x: seq<int>) {
    |x| == 10 && x[0] >= 0x3ff_ffed && forall k :: 1 <= k < 10 ==> x[k] == Width(k) - 1
  }

  /** The limbs of 2^255 - 19. */
  ghost function PrimeLimbs(): (q: seq<int>)
    ensures |q| == 10 && q[0] == 0x3ff_ffed && forall k :: 1 <= k < 10 ==> q[k] == Width(k) - 1
  {
    Largest()[0 := 0x3ff_ffed]
  }

  lemma PrimeLimbsValue()
    ensures Value(PrimeLimbs()) == Prime()
  {
    hide Pow2, Sum;
    LargestSum(10);
    EndWeights();
    SumPoint(Largest(), 0, 0x3ff_ffed, 10);
    TimesOne(Weight(0), 0x3ff_ffed - 0x3ff_ffff);
  }

  /** A number reaches the prime exactly when all its limbs are full, but for the last nineteen values of the first. */
  lemma PrimeOrMore(x: seq<int>)
    requires InWidth(x)
    ensures IsPrimeOrMore(x) <==> Value(x) >= Prime()
  {
    hide Pow2, Sum;
    LargestSum(10);
    EndWeights();
    if IsPrimeOrMore(x) {
      assert x == Largest()[0 := x[0]];
      SumPoint(Largest(), 0, x[0], 10);
      TimesOne(Weight(0), x[0] - 0x3ff_ffff);
    } else if x[0] < 0x3ff_ffed {
      SumBelowLargest(x[0 := 0x3ff_ffff], 10);
      SumPoint(x, 0, 0x3ff_ffff, 10);
      TimesOne(Weight(0), 0x3ff_ffff - x[0]);
    } else {
      var k :| 1 <= k < 10 && x[k] != Width(k) - 1;
      SumBelowLargest(x[k := Width(k) - 1], 10);
      SumPoint(x, k, Width(k) - 1, 10);
      WeightLarge(k);
      assert Weight(k) * (Width(k) - 1 - x[k]) >= Weight(k) by {
        AtLeastOne(Weight(k), Width(k) - 1 - x[k]);
      }
    }
  }

  lemma AtLeastOne(w: int, m: int)
    requires w >= 0 && m >= 1
    ensures w * m >= w
  {
    assert w * m - w == w * (m - 1);
  }

  lemma {:induction false} WeightLarge(k: nat)
    requires k >= 1
    ensures Weight(k) >= 0x400_0000
    decreases k
  {
    hide Pow2, Weight;
    WeightNext(k - 1);
    if k == 1 {
      EndWeights();
    } else {
      WeightLarge(k - 1);
      AtLeastOne(Weight(k - 1), Width(k - 1));
    }
  }

  /** All ones if `a == b`, zero otherwise, by folding the bits of the difference. */
  function EqMask(a: int, b: int): int {
    BitsFacts(a);
    BitsFacts(b);
    S32(CT.FoldedEq(Bits(a), Bits(b)))
  }

  lemma EqMaskIs(a: int, b: int)
    requires Fits32(a) && Fits32(b)
    ensures EqMask(a, b) == if a == b then -1 else 0
  {
    hide Pow2, CT.FoldedEq;
    BitsFacts(a);
    BitsFacts(b);
    CT.FoldedEqIs(Bits(a), Bits(b));
  }

  /** All ones if `a >= b`, zero otherwise: the complement of the difference's sign. */
  function GteMask(a: int, b: int): int {
    -1 - (a - b) / 0x8000_0000
  }

  /** Subtract the prime if the number reaches it. */
  method SubtractPrime(x: array<int>)
    requires x.Length == 10 && InWidth(x[..])
    modifies x
    ensures InWidth(x[..]) && Value(x[..]) < Prime() && Congruent(Value(x[..]), Value(old(x[..])))
  {
    hide Sum, Pow2, Congruent, Masked;
    ghost var y := x[..];
    PrimeOrMore(y);
    InWidthBound(y);
    var mask := PrimeMask(x);
    x[0] := x[0] - Masked(0x3ff_ffed, mask);
    for i := 1 to 10
      invariant x[0] == y[0] - (if mask == -1 then 0x3ff_ffed else 0)
      invariant forall k :: 1 <= k < i ==> x[k] == y[k] - if mask == -1 then Width(k) - 1 else 0
      invariant forall k :: i <= k < 10 ==> x[k] == y[k]
    {
      x[i] := x[i] - Masked(if i % 2 == 1 then 0x1ff_ffff else 0x3ff_ffff, mask);
      assert Fits32(x[i]);
    }
    if mask == -1 {
      assert forall k :: 0 <= k < 10 ==> x[..][k] == y[k] - PrimeLimbs()[k];
      SumMinus(y, PrimeLimbs(), x[..], 10);
      PrimeLimbsValue();
      CongruentBy(Value(x[..]), Value(y), -1);
      SmallRemainder(y);
    } else {
      assert x[..] == y;
      CongruentBy(Value(x[..]), Value(y), 0);
    }
  }

  /** All ones if the number reaches the prime, zero otherwise. */
  method PrimeMask(x: array<int>) returns (mask: int)
    requires x.Length == 10 && InWidth(x[..])
    ensures mask == if IsPrimeOrMore(x[..]) then -1 else 0
  {
    hide Masked, EqMask;
    mask := GteMask(x[0], 0x3ff_ffed);
    for i := 1 to 10
      invariant mask == if x[0] >= 0x3ff_ffed && (forall k :: 1 <= k < i ==> x[k] == Width(k) - 1) then -1 else 0
    {
      EqMaskIs(x[i], 0x1ff_ffff);
      EqMaskIs(x[i], 0x3ff_ffff);
      mask := Masked(mask, if i % 2 == 1 then EqMask(x[i], 0x1ff_ffff) else EqMask(x[i], 0x3ff_ffff));
    }
  }

  lemma SmallRemainder(y: seq<int>)
    requires InWidth(y)
    ensures Value(y) - Prime() < Prime()
  {
    hide Pow2, Sum;
    InWidthBound(y);
    Pow2Large();
  }

  lemma Pow2Large()
    ensures Pow2(255) > 38
  {
    hide Pow2;
    Pow2Add(249, 6);
    SmallPowers();
    AtLeastOne(64, Pow2(249));
  }

  lemma {:induction false} SumMinus(a: seq<int>, b: seq<int>, c: seq<int>, n: nat)
    requires |a| == |b| == |c| == 10 && n <= 10 && forall k :: 0 <= k < 10 ==> c[k] == a[k] - b[k]
    ensures Sum(c, n) == Sum(a, n) - Sum(b, n)
  {
    if n > 0 {
      SumMinus(a, b, c, n - 1);
      MinusDistributes(Weight(n - 1), a[n - 1], b[n - 1]);
    }
  }

  lemma MinusDistributes(w: int, x: int, y: int)
    ensures w * (x - y) == w * x - w * y
  {
  }

  // ---------------------------------------------------------------- contraction: writing bytes

  /** How far limb `i` is shifted to start at a byte, and at which byte. */
  function Shift(i: nat): nat {
    [0, 2, 3, 5, 6, 0, 1, 3, 4, 6][if i < 10 then i else 0]
  }

  function Place(i: nat): nat {
    [0, 3, 6, 9, 12, 16, 19, 22, 25, 28][if i < 10 then i else 0]
  }

  lemma PlaceShift(i: nat)
    requires i < 10
    ensures Off(i) == 8 * Place(i) + Shift(i)
  {
  }

  /** Add a shifted limb at byte `s`, where the bits below it are already set. */
  method PutLimb(output: array<int>, s: nat, y: int, ghost sh: nat, ghost c: nat)
    requires output.Length == 32 && s + 4 <= 32 && Bytes(output[..s + 1]) && sh <= 8 && output[s] < Pow2(sh)
    requires 0 <= c * Pow2(sh) < 0x1_0000_0000 && Fits32(y) && (y == c * Pow2(sh) || y == c * Pow2(sh) - 0x1_0000_0000)
    modifies output
    ensures Bytes(output[..s + 4]) && output[s + 3] == (c * Pow2(sh)) / 0x100_0000
    ensures BytesValue(output[..], s + 4) == BytesValue(old(output[..]), s + 1) + Pow2(8 * s) * (c * Pow2(sh))
    ensures forall k :: s + 4 <= k < 32 ==> output[k] == old(output[k])
  {
    hide BytesValue, Pow2, CT.Or;
    ghost var v := c * Pow2(sh);
    ghost var b := output[..];
    assert b[s] == b[..s + 1][s];
    LowByte(b[s], c, sh);
    BytesOfWord(y, v);
    output[s] := CT.Or(8, output[s], y % 0x100);
    output[s + 1] := (y / 0x100) % 0x100;
    output[s + 2] := (y / 0x1_0000) % 0x100;
    output[s + 3] := (y / 0x100_0000) % 0x100;
    FourWritten(b, output[..], s, v);
  }

  /** The bytes of a 32-bit word, signed or not. */
  lemma BytesOfWord(y: int, v: int)
    requires 0 <= v < 0x1_0000_0000 && (y == v || y == v - 0x1_0000_0000)
    ensures y % 0x100 == v % 0x100 && (y / 0x100) % 0x100 == (v / 0x100) % 0x100
    ensures (y / 0x1_0000) % 0x100 == (v / 0x1_0000) % 0x100 && (y / 0x100_0000) % 0x100 == v / 0x100_0000
    ensures v % 0x100 + (v / 0x100) % 0x100 * 0x100 + (v / 0x1_0000) % 0x100 * 0x1_0000 +
            v / 0x100_0000 * 0x100_0000 == v
  {
    SumOfBytes(v);
    if y != v {
      ModAdd(v, 0x100, -0x100_0000);
      ModAdd(v / 0x100, 0x100, -0x1_0000);
      ModAdd(v, 0x1_0000, -0x1_0000);
      ModAdd(v / 0x1_0000, 0x100, -0x100);
      ModAdd(v, 0x100_0000, -0x100);
      ModAdd(v / 0x100_0000, 0x100, -1);
    }
    TopByte(v);
  }

  lemma TopByte(v: int)
    requires 0 <= v < 0x1_0000_0000
    ensures 0 <= v / 0x100_0000 < 0x100 && (v / 0x100_0000) % 0x100 == v / 0x100_0000
  {
  }

  lemma SumOfBytes(v: int)
    requires 0 <= v < 0x1_0000_0000
    ensures v % 0x100 + (v / 0x100) % 0x100 * 0x100 + (v / 0x1_0000) % 0x100 * 0x1_0000 +
            v / 0x100_0000 * 0x100_0000 == v
  {
    var q := v / 0x100;
    var r := q / 0x100;
    DivMul(v, 0x100, 0x100);
    DivMul(v, 0x1_0000, 0x100);
    assert v == q * 0x100 + v % 0x100;
    assert q == r * 0x100 + q % 0x100;
    assert r == (r / 0x100) * 0x100 + r % 0x100;
  }

  lemma FourWritten(b: seq<int>, d: seq<int>, s: nat, v: int)
    requires |b| == |d| == 32 && s + 4 <= 32 && Bytes(b[..s + 1]) && (forall k :: 0 <= k < s ==> d[k] == b[k])
    requires 0 <= v < 0x1_0000_0000
    requires d[s] == b[s] + v % 0x100 < 256 && d[s + 1] == (v / 0x100) % 0x100 && d[s + 2] == (v / 0x1_0000) % 0x100
    requires d[s + 3] == v / 0x100_0000
    ensures Bytes(d[..s + 4]) && BytesValue(d, s + 4) == BytesValue(b, s + 1) + Pow2(8 * s) * v
  {
    hide BytesValue, Pow2;
    BytesOfWord(v, v);
    forall k | 0 <= k <= s
      ensures 0 <= b[k] < 256
    {
      assert b[k] == b[..s + 1][k];
    }
    PrefixSame(b, d, s);
    FourBytes(d, s);
    OneByte(b, s);
    Distribute(Pow2(8 * s), b[s], v);
  }

  lemma OneByte(b: seq<int>, s: nat)
    requires s < |b|
    ensures BytesValue(b, s + 1) == BytesValue(b, s) + Pow2(8 * s) * b[s]
  {
  }

  lemma {:induction false} PrefixSame(b: seq<int>, d: seq<int>, n: nat)
    requires n <= |b| && n <= |d| && forall k :: 0 <= k < n ==> b[k] == d[k]
    ensures BytesValue(b, n) == BytesValue(d, n)
  {
    if n > 0 {
      PrefixSame(b, d, n - 1);
    }
  }

  /** The low byte of a shifted limb does not meet the bits already there. */
  lemma LowByte(a: int, c: nat, sh: nat)
    requires 0 <= a < Pow2(sh) && sh <= 8
    ensures CT.Or(8, a, (c * Pow2(sh)) % 0x100) == a + (c * Pow2(sh)) % 0x100 && a + (c * Pow2(sh)) % 0x100 < 256
  {
    hide Pow2, CT.Or;
    var p, q := Pow2(sh), Pow2(8 - sh);
    Pow2Add(sh, 8 - sh);
    Powers();
    assert p * q == 0x100;
    ModMul(c * p, p, q);
    assert (c * p) % p == 0 && (c * p) / p == c by {
      DivModIs(c * p, p, c, 0);
    }
    assert (c * p) % 0x100 == (c % q) * p;
    DigitBound(p, q, c % q, a);
    OrDisjoint(8, a, c % q, sh);
  }

  /** The first `i` limbs are written; the byte where the next one starts is ready for it. */
  ghost predicate Written(out: seq<int>, x: seq<int>, i: nat) {
    && |out| == 32 && |x| == 10 && i <= 10
    && (i <= 4 ==> out[16] == 0)
    && if i == 10 then Bytes(out) && BytesValue(out, 32) == Sum(x, 10)
       else Bytes(out[..Place(i) + 1]) && out[Place(i)] < Pow2(Shift(i)) && BytesValue(out, Place(i) + 1) == Sum(x, i)
  }

  lemma Shifted(x: int, i: nat)
    requires i < 10 && 0 <= x < Width(i)
    ensures 0 <= x * Pow2(Shift(i)) < 0x1_0000_0000
    ensures (x * Pow2(Shift(i))) / 0x100_0000 < 256
    ensures i != 4 && i != 9 ==> (x * Pow2(Shift(i))) / 0x100_0000 < Pow2(Shift(i + 1))
  {
    SmallPowers();
  }

  /** Shifting a limb into place stays within 32 bits, except for limb 4 when its top bit is set. */
  lemma ShiftFits(x: int, i: nat)
    requires i < 10 && 0 <= x < Width(i)
    ensures Fits32(x * Pow2(Shift(i))) <==> i != 4 || x < 0x200_0000
  {
    SmallPowers();
  }

  /** The limbs from `m` on, as a number of their own. */
  ghost function Rest(x: seq<int>, m: nat): int
    requires |x| == 10 && m <= 10
    decreases 10 - m
  {
    if m == 10 then 0 else x[m] + Width(m) * Rest(x, m + 1)
  }

  lemma {:induction false} RestValue(x: seq<int>, m: nat)
    requires |x| == 10 && m <= 10
    ensures Value(x) == Sum(x, m) + Weight(m) * Rest(x, m)
    decreases 10 - m
  {
    hide Weight;
    if m < 10 {
      RestValue(x, m + 1);
      WeightNext(m);
      SplitStep(Weight(m), x[m], Width(m), Rest(x, m + 1));
      assert Sum(x, m + 1) == Sum(x, m) + Weight(m) * x[m];
    }
  }

  /** Dropping the bits below a limb leaves the limbs from there on. */
  lemma DropLimbs(x: seq<int>, m: nat)
    requires InWidth(x) && m <= 10
    ensures Value(x) / Weight(m) == Rest(x, m)
  {
    hide Weight, Sum, Rest;
    RestValue(x, m);
    SumBelowLargest(x, m);
    LargestSum(m);
    DivModIs(Value(x), Weight(m), Rest(x, m), Sum(x, m));
  }

  /** Bit 127 is the top bit of limb 4. */
  lemma Bit127(x: seq<int>)
    requires InWidth(x)
    ensures (Value(x) / Pow2(127)) % 2 == if x[4] < 0x200_0000 then 0 else 1
  {
    hide Pow2, Sum, Weight, Rest;
    DropLimbs(x, 4);
    RestNext(x, 4);
    WeightFour();
    DivMul(Value(x), Weight(4), 0x200_0000);
    TopBit(x[4], Rest(x, 5));
  }

  lemma RestNext(x: seq<int>, m: nat)
    requires |x| == 10 && m < 10
    ensures Rest(x, m) == x[m] + Width(m) * Rest(x, m + 1)
  {
  }

  lemma WeightFour()
    ensures Weight(4) * 0x200_0000 == Pow2(127)
  {
    hide Pow2;
    Widths();
    Pow2Add(102, 25);
  }

  lemma TopBit(x: int, r: int)
    requires 0 <= x < 0x400_0000
    ensures ((x + 0x400_0000 * r) / 0x200_0000) % 2 == if x < 0x200_0000 then 0 else 1
  {
    ModAdd(x, 0x200_0000, 2 * r);
    ModAdd(x / 0x200_0000, 2, r);
  }

  /** All ten shifts stay within 32 bits. */
  ghost predicate ShiftsFit(x: seq<int>) {
    |x| == 10 && forall i :: 0 <= i < 10 ==> Fits32(x[i] * Pow2(Shift(i)))
  }

  /** The canonical limbs' shifts stay within 32 bits exactly when bit 127 of the number is clear. */
  lemma ShiftsFitIff(x: seq<int>)
    requires InWidth(x)
    ensures ShiftsFit(x) <==> (Value(x) / Pow2(127)) % 2 == 0
  {
    hide Pow2, Sum, Shift;
    Bit127(x);
    forall i | 0 <= i < 10
      ensures Fits32(x[i] * Pow2(Shift(i))) <==> i != 4 || x[4] < 0x200_0000
    {
      ShiftFits(x[i], i);
    }
    assert ShiftsFit(x) ==> Fits32(x[4] * Pow2(Shift(4)));
  }

  /** A number is congruent to its remainder, and if it is below the prime it is the remainder. */
  lemma Representative(v: int, r: int)
    requires 0 <= r < Prime() && Congruent(r, v)
    ensures r == v % Prime()
  {
    hide Pow2;
    var q: int :| r - v == q * Prime();
    assert v == (-q) * Prime() + r;
    DivModIs(v, Prime(), -q, r);
  }

  /** With limb 4 at 2^25 and all others zero, which is an allowed input, a shift leaves 32 bits. */
  lemma ShiftOverflows()
    ensures var x := [0, 0, 0, 0, 0x200_0000, 0, 0, 0, 0, 0];
            Below(x, 0x400_0000) && InWidth(x) && 0 <= Value(x) < Prime() && !ShiftsFit(x) &&
            ((Value(x) % Prime()) / Pow2(127)) % 2 == 1
  {
    hide Pow2, Sum, ShiftsFit;
    var x := [0, 0, 0, 0, 0x200_0000, 0, 0, 0, 0, 0];
    assert InWidth(x);
    ShiftsFitIff(x);
    Bit127(x);
    PrimeOrMore(x);
    InWidthBound(x);
    CongruentBy(Value(x), Value(x), 0);
    Representative(Value(x), Value(x));
  }

  lemma WordOf(v: int)
    requires 0 <= v < 0x1_0000_0000
    ensures Fits32(S32(v)) && (S32(v) == v || S32(v) == v - 0x1_0000_0000)
  {
  }

  /** Write limb `i`, shifted within a 32-bit word. */
  method PutNext(output: array<int>, x: array<int>, i: nat, factor: int) returns (ghost fits: bool)
    requires output.Length == 32 && x.Length == 10 && output != x && i < 10 && InWidth(x[..])
    requires factor == Pow2(Shift(i)) && Written(output[..], x[..], i)
    modifies output
    ensures Written(output[..], x[..], i + 1) && fits == Fits32(x[i] * factor)
  {
    hide BytesValue, Pow2, Sum, Written;
    fits := Fits32(x[i] * factor);
    SplitWritten(output[..], x[..], i);
    ghost var xs, before := x[..], output[..];
    Shifted(x[i], i);
    WordOf(x[i] * factor);
    var s := Place(i);
    assert output[..s + 1] == before[..s + 1];
    PutLimb(output, s, S32(x[i] * factor), Shift(i), x[i]);
    assert x[..] == xs;
    NextWritten(before, output[..], xs, i);
  }

  lemma SplitWritten(out: seq<int>, x: seq<int>, i: nat)
    requires i < 10 && Written(out, x, i)
    ensures |out| == 32 && |x| == 10 && Bytes(out[..Place(i) + 1]) && out[Place(i)] < Pow2(Shift(i))
    ensures BytesValue(out, Place(i) + 1) == Sum(x, i) && (i <= 4 ==> out[16] == 0)
  {
    hide BytesValue, Pow2, Sum;
  }

  /** The number written grows by the limb at its weight. */
  lemma NextValue(x: seq<int>, i: nat)
    requires |x| == 10 && i < 10
    ensures Sum(x, i + 1) == Sum(x, i) + Pow2(8 * Place(i)) * (x[i] * Pow2(Shift(i)))
  {
    hide Pow2, Sum, Place, Shift;
    PlaceShift(i);
    Pow2Add(8 * Place(i), Shift(i));
    Scale(Pow2(8 * Place(i)), Pow2(Shift(i)), x[i]);
    SumNext(x, i);
  }

  lemma NextWritten(before: seq<int>, after: seq<int>, x: seq<int>, i: nat)
    requires i < 10 && InWidth(x) && Written(before, x, i) && |after| == 32 && Bytes(after[..Place(i) + 4])
    requires after[Place(i) + 3] == (x[i] * Pow2(Shift(i))) / 0x100_0000
    requires BytesValue(after, Place(i) + 4) ==
             BytesValue(before, Place(i) + 1) + Pow2(8 * Place(i)) * (x[i] * Pow2(Shift(i)))
    requires forall k :: Place(i) + 4 <= k < 32 ==> after[k] == before[k]
    ensures Written(after, x, i + 1)
  {
    hide BytesValue, Pow2, Sum;
    NextValue(x, i);
    Shifted(x[i], i);
    if i == 4 {
      OneByte(after, 16);
      SmallPowers();
      ByteAfter(after, 16);
    } else if i == 9 {
      assert after[..32] == after;
    }
  }

  lemma Scale(p: int, q: int, x: int)
    ensures p * (x * q) == (p * q) * x
  {
  }

  lemma SumNext(x: seq<int>, i: nat)
    requires i < |x|
    ensures Sum(x, i + 1) == Sum(x, i) + Weight(i) * x[i]
  {
  }

  lemma ByteAfter(b: seq<int>, s: nat)
    requires s < |b| && Bytes(b[..s]) && b[s] == 0
    ensures Bytes(b[..s + 1])
  {
    var c, d := b[..s + 1], b[..s];
    forall k | 0 <= k < |c|
      ensures 0 <= c[k] < 256
    {
      assert k < s ==> c[k] == d[k];
    }
  }

  /** Contract any ten limbs below 2^26 in magnitude to the bytes of the least non-negative number they are
      congruent to. The result says whether every shift stays within 32 bits, which is so exactly when bit 127
      of that number is clear; the bytes are right in any case. */
  method FContract(output: array<int>, inputLimbs: array<int>) returns (ghost fits: bool)
    requires output.Length == 32 && inputLimbs.Length >= 10 && output != inputLimbs
    requires Below(inputLimbs[..10], 0x400_0000)
    modifies output
    ensures Bytes(output[..]) && BytesValue(output[..], 32) == Value(inputLimbs[..10]) % Prime()
    ensures fits <==> ((Value(inputLimbs[..10]) % Prime()) / Pow2(127)) % 2 == 0
  {
    hide BytesValue, Pow2, Sum, Congruent, Prime, Written, ShiftsFit;
    var x := new int[10];
    forall i | 0 <= i < 10 {
      x[i] := inputLimbs[i];
    }
    ghost var x0 := x[..];
    assert x0 == inputLimbs[..10];
    Normalize(x);
    ghost var x1 := x[..];
    InWidthBound(x1);
    Representative(Value(x0), Value(x1));
    fits := WriteLimbs(output, x);
    ShiftsFitIff(x1);
    AllWritten(output[..], x1);
    assert inputLimbs[..10] == x0;
  }

  /** Shift the limbs into place and write them. */
  method WriteLimbs(output: array<int>, x: array<int>) returns (ghost fits: bool)
    requires output.Length == 32 && x.Length == 10 && output != x && InWidth(x[..])
    modifies output
    ensures Written(output[..], x[..], 10) && fits == ShiftsFit(x[..])
  {
    hide BytesValue, Pow2, Sum, Written, ShiftsFit;
    ghost var x1 := x[..];
    output[0] := 0;
    output[16] := 0;
    NothingWritten(output[..], x1);
    SmallPowers();
    ghost var f0 := PutNext(output, x, 0, 1);
    ghost var f1 := PutNext(output, x, 1, 4);
    ghost var f2 := PutNext(output, x, 2, 8);
    ghost var f3 := PutNext(output, x, 3, 32);
    ghost var f4 := PutNext(output, x, 4, 64);
    ghost var f5 := PutNext(output, x, 5, 1);
    ghost var f6 := PutNext(output, x, 6, 2);
    ghost var f7 := PutNext(output, x, 7, 8);
    ghost var f8 := PutNext(output, x, 8, 16);
    ghost var f9 := PutNext(output, x, 9, 64);
    fits := f0 && f1 && f2 && f3 && f4 && f5 && f6 && f7 && f8 && f9;
    TenShifts(x1);
  }

  lemma TenShifts(x: seq<int>)
    requires |x| == 10
    ensures ShiftsFit(x) <==>
            Fits32(x[0]) && Fits32(x[1] * 4) && Fits32(x[2] * 8) && Fits32(x[3] * 32) && Fits32(x[4] * 64) &&
            Fits32(x[5]) && Fits32(x[6] * 2) && Fits32(x[7] * 8) && Fits32(x[8] * 16) && Fits32(x[9] * 64)
  {
    hide Pow2;
    SmallPowers();
  }

  lemma NothingWritten(out: seq<int>, x: seq<int>)
    requires |out| == 32 && |x| == 10 && out[0] == 0 && out[16] == 0
    ensures Written(out, x, 0)
  {
    hide Pow2;
    SmallPowers();
    assert BytesValue(out, 1) == BytesValue(out, 0) + Pow2(0) * out[0];
  }

  lemma AllWritten(out: seq<int>, x: seq<int>)
    requires Written(out, x, 10)
    ensures Bytes(out) && BytesValue(out, 32) == Value(x)
  {
  }

  /** The canonical limbs: borrow twice, once more from the first, carry twice, subtract the prime. */
  method Normalize(x: array<int>)
    requires x.Length == 10 && Below(x[..], 0x400_0000)
    modifies x
    ensures InWidth(x[..]) && Value(x[..]) < Prime() && Congruent(Value(x[..]), Value(old(x[..])))
  {
    hide Pow2, Sum, Congruent, Prime;
    ghost var x0 := x[..];
    BorrowPass(x, true);
    ghost var x1 := x[..];
    BorrowPass(x, false);
    ghost var x2 := x[..];
    CongruentTrans(Value(x2), Value(x1), Value(x0));
    var mask := x[0] / 0x8000_0000;
    var carry := -(Masked(x[0], mask) / 0x400_0000);
    x[0] := x[0] + carry * 0x400_0000;
    x[1] := x[1] - carry;
    assert x[..] == x2;
    CarryPass(x, true);
    ghost var x3 := x[..];
    CongruentTrans(Value(x3), Value(x2), Value(x0));
    CarryPass(x, false);
    ghost var x4 := x[..];
    CongruentTrans(Value(x4), Value(x3), Value(x0));
    SubtractPrime(x);
    CongruentTrans(Value(x[..]), Value(x4), Value(x0));
  }

  /** Congruent numbers below the prime are equal: the encoding is unique. */
  lemma CanonicalUnique(a: int, b: int)
    requires 0 <= a < Prime() && 0 <= b < Prime() && Congruent(a, b)
    ensures a == b
  {
    hide Prime;
    var q: int :| a - b == q * Prime();
    Multiples(q, Prime());
  }

  lemma Multiples(q: int, p: int)
    requires p > 0
    ensures (q >= 1 ==> q * p >= p) && (q <= -1 ==> q * p <= -p)
  {
  }

  /** Contracting what a canonical encoding expands to gives the encoding back. */
  method RoundTrip(input: array<int>) returns (output: array<int>)
    requires input.Length == 32 && Bytes(input[..]) && BytesValue(input[..], 32) < Prime()
    ensures fresh(output) && output[..] == input[..]
  {
    hide BytesValue, Pow2, Sum, Congruent;
    ghost var b := input[..];
    var limbs := new int[10];
    FExpand(limbs, input);
    BytesBound(b, 32);
    assert Value(limbs[..10]) == BytesValue(b, 32) by {
      SmallMod(BytesValue(b, 32), Pow2(255));
    }
    assert Below(limbs[..10], 0x400_0000);
    output := new int[32];
    ghost var _ := FContract(output, limbs);
    SmallMod(BytesValue(b, 32), Prime());
    BytesUnique(output[..], b, 32);
    assert output[..][..32] == output[..] && b[..32] == b;
  }

  lemma SmallMod(x: int, d: int)
    requires 0 <= x < d
    ensures x % d == x
  {
    DivModIs(x, d, 0, x);
  }
}
