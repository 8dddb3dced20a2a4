/** Branch-free masks on unsigned words, as arithmetic on numbers below 2^n. */
module ConstantTime {
  import opened Arithmetic

  // ---------------------------------------------------------------- words

  predicate Word(n: nat, x: int) {
    0 <= x < Pow2(n)
  }

  function And(n: nat, a: nat, b: nat): nat {
    if n == 0 then 0 else 2 * And(n - 1, a / 2, b / 2) + if a % 2 == 1 && b % 2 == 1 then 1 else 0
  }

  function Or(n: nat, a: nat, b: nat): nat {
    if n == 0 then 0 else 2 * Or(n - 1, a / 2, b / 2) + if a % 2 == 1 || b % 2 == 1 then 1 else 0
  }

  function Xor(n: nat, a: nat, b: nat): nat {
    if n == 0 then 0 else 2 * Xor(n - 1, a / 2, b / 2) + if a % 2 != b % 2 then 1 else 0
  }

  function Not(n: nat, a: nat): nat
    requires Word(n, a)
  {
    Pow2(n) - 1 - a
  }

  function Minus(n: nat, a: nat, b: nat): nat
    requires Word(n, a) && Word(n, b)
  {
    if a >= b then a - b else a - b + Pow2(n)
  }

  predicate Top(n: nat, x: nat) {
    n > 0 && x >= Pow2(n - 1)
  }

  /** Bitwise operations give words, and act on the top bit alone. */
  lemma {:induction false} BitwiseTop(n: nat, a: nat, b: nat)
    requires Word(n, a) && Word(n, b)
    ensures Word(n, And(n, a, b)) && Word(n, Or(n, a, b)) && Word(n, Xor(n, a, b))
    ensures n > 0 ==> (Top(n, And(n, a, b)) <==> Top(n, a) && Top(n, b))
    ensures n > 0 ==> (Top(n, Or(n, a, b)) <==> Top(n, a) || Top(n, b))
    ensures n > 0 ==> (Top(n, Xor(n, a, b)) <==> Top(n, a) != Top(n, b))
  {
    if n > 0 {
      BitwiseTop(n - 1, a / 2, b / 2);
    }
  }

  lemma {:induction false} XorZero(n: nat, a: nat, b: nat)
    requires Word(n, a) && Word(n, b)
    ensures Xor(n, a, b) == 0 <==> a == b
  {
    if n > 0 {
      XorZero(n - 1, a / 2, b / 2);
    }
  }

  /** All ones keeps a word, all zeros clears it. */
  lemma {:induction false} MaskedWord(n: nat, a: nat)
    requires Word(n, a)
    ensures And(n, Pow2(n) - 1, a) == a && And(n, a, Pow2(n) - 1) == a && And(n, 0, a) == 0 && And(n, a, 0) == 0
    ensures Or(n, a, 0) == a && Or(n, 0, a) == a && Or(n, Pow2(n) - 1, a) == Pow2(n) - 1
  {
    if n > 0 {
      MaskedWord(n - 1, a / 2);
      assert (Pow2(n) - 1) / 2 == Pow2(n - 1) - 1 && (Pow2(n) - 1) % 2 == 1;
    }
  }

  lemma SmallSizes()
    ensures Pow2(8) == 0x100 && Pow2(31) == 0x8000_0000 && Pow2(32) == 0x1_0000_0000
  {
    assert Pow2(8) == 256;
    assert Pow2(16) == 0x1_0000 by {
      assert Pow2(12) == 0x1000;
    }
    assert Pow2(24) == 0x100_0000 by {
      assert Pow2(20) == 0x10_0000;
    }
    assert Pow2(28) == 0x1000_0000;
    assert Pow2(31) == 0x8000_0000;
  }

  // ---------------------------------------------------------------- masks

  /** All ones if the top bit is set. */
  function Msb(a: nat): nat
    requires Word(32, a)
  {
    Minus(32, 0, if Top(32, a) then 1 else 0)
  }

  function MaskIf(n: nat, p: bool): nat {
    if p then Pow2(n) - 1 else 0
  }

  lemma MsbIs(a: nat)
    requires Word(32, a)
    ensures Msb(a) == MaskIf(32, Top(32, a)) && Word(32, Msb(a))
  {
    hide Pow2;
    SmallSizes();
  }

  function Lt(a: nat, b: nat): nat
    requires Word(32, a) && Word(32, b)
  {
    BitwiseTop(32, a, b);
    BitwiseTop(32, Minus(32, a, b), b);
    BitwiseTop(32, Xor(32, a, b), Xor(32, Minus(32, a, b), b));
    BitwiseTop(32, a, Or(32, Xor(32, a, b), Xor(32, Minus(32, a, b), b)));
    Msb(Xor(32, a, Or(32, Xor(32, a, b), Xor(32, Minus(32, a, b), b))))
  }

  function Ge(a: nat, b: nat): nat
    requires Word(32, a) && Word(32, b)
  {
    LtIs(a, b);
    Not(32, Lt(a, b))
  }

  function IsZero(a: nat): nat
    requires Word(32, a)
  {
    SmallSizes();
    BitwiseTop(32, Not(32, a), Minus(32, a, 1));
    Msb(And(32, Not(32, a), Minus(32, a, 1)))
  }

  function Eq(a: nat, b: nat): nat
    requires Word(32, a) && Word(32, b)
  {
    BitwiseTop(32, a, b);
    IsZero(Xor(32, a, b))
  }

  function Select(n: nat, mask: nat, a: nat, b: nat): nat
    requires Word(n, mask)
  {
    Or(n, And(n, mask, a), And(n, Not(n, mask), b))
  }

  lemma LtIs(a: nat, b: nat)
    requires Word(32, a) && Word(32, b)
    ensures Lt(a, b) == MaskIf(32, a < b) && Word(32, Lt(a, b))
  {
    hide Pow2, Xor, Or;
    SmallSizes();
    var d := Minus(32, a, b);
    BitwiseTop(32, a, b);
    BitwiseTop(32, d, b);
    BitwiseTop(32, Xor(32, a, b), Xor(32, d, b));
    BitwiseTop(32, a, Or(32, Xor(32, a, b), Xor(32, d, b)));
    MsbIs(Xor(32, a, Or(32, Xor(32, a, b), Xor(32, d, b))));
  }

  lemma GeIs(a: nat, b: nat)
    requires Word(32, a) && Word(32, b)
    ensures Ge(a, b) == MaskIf(32, a >= b)
  {
    hide Pow2, Lt;
    LtIs(a, b);
  }

  lemma IsZeroIs(a: nat)
    requires Word(32, a)
    ensures IsZero(a) == MaskIf(32, a == 0)
  {
    hide Pow2, And;
    SmallSizes();
    BitwiseTop(32, Not(32, a), Minus(32, a, 1));
    MsbIs(And(32, Not(32, a), Minus(32, a, 1)));
  }

  lemma EqIs(a: nat, b: nat)
    requires Word(32, a) && Word(32, b)
    ensures Eq(a, b) == MaskIf(32, a == b)
  {
    hide Pow2, Xor, IsZero;
    BitwiseTop(32, a, b);
    XorZero(32, a, b);
    IsZeroIs(Xor(32, a, b));
  }

  /** A mask of all ones or all zeros selects. */
  lemma SelectIs(n: nat, p: bool, a: nat, b: nat)
    requires Word(n, a) && Word(n, b)
    ensures Select(n, MaskIf(n, p), a, b) == if p then a else b
  {
    MaskedWord(n, a);
    MaskedWord(n, b);
  }

  // ---------------------------------------------------------------- eight-bit masks

  function Ge8(a: nat, b: nat): nat
    requires Word(32, a) && Word(32, b)
  {
    Ge(a, b) % 0x100
  }

  function Eq8(a: nat, b: nat): nat
    requires Word(32, a) && Word(32, b)
  {
    Eq(a, b) % 0x100
  }

  lemma ByteMasks(a: nat, b: nat)
    requires Word(32, a) && Word(32, b)
    ensures Ge8(a, b) == MaskIf(8, a >= b) && Eq8(a, b) == MaskIf(8, a == b)
  {
    hide Pow2, Ge, Eq;
    SmallSizes();
    GeIs(a, b);
    EqIs(a, b);
  }

  // ---------------------------------------------------------------- equality by folding

  function ShiftLeft(n: nat, a: nat, k: nat): nat {
    (a * Pow2(k)) % Pow2(n)
  }

  function Fold(a: nat, k: nat): nat {
    And(32, a, ShiftLeft(32, a, k))
  }

  /** The conjunction of all bits of the complement of the difference, copied to all bits. */
  function FoldedEq(a: nat, b: nat): nat
    requires Word(32, a) && Word(32, b)
  {
    BitwiseTop(32, a, b);
    var x := Fold(Fold(Fold(Fold(Fold(Not(32, Xor(32, a, b)), 16), 8), 4), 2), 1);
    FoldWord(Fold(Fold(Fold(Fold(Not(32, Xor(32, a, b)), 16), 8), 4), 2), 1);
    Msb(x)
  }

  predicate Bit(x: nat, i: nat) {
    (x / Pow2(i)) % 2 == 1
  }

  lemma BitHalf(x: nat, i: nat)
    ensures Bit(x, 0) <==> x % 2 == 1
    ensures i > 0 ==> (Bit(x, i) <==> Bit(x / 2, i - 1))
  {
    assert x / Pow2(0) == x;
    if i > 0 {
      var p := Pow2(i - 1);
      var q, r := (x / 2) / p, (x / 2) % p;
      assert x / 2 == q * p + r;
      assert q * Pow2(i) == 2 * (q * p) by {
        Twofold(q, p);
      }
      DivModIs(x, Pow2(i), q, 2 * r + x % 2);
    }
  }

  lemma {:induction false} BitOfAnd(n: nat, a: nat, b: nat, i: nat)
    requires i < n
    ensures Bit(And(n, a, b), i) <==> Bit(a, i) && Bit(b, i)
    decreases i
  {
    hide Bit;
    BitHalf(And(n, a, b), i);
    BitHalf(a, i);
    BitHalf(b, i);
    if i > 0 {
      BitOfAnd(n - 1, a / 2, b / 2, i - 1);
    }
  }

  lemma {:induction false} BitOfXor(n: nat, a: nat, b: nat, i: nat)
    requires i < n
    ensures Bit(Xor(n, a, b), i) <==> (Bit(a, i) <==> !Bit(b, i))
    decreases i
  {
    hide Bit;
    BitHalf(Xor(n, a, b), i);
    BitHalf(a, i);
    BitHalf(b, i);
    if i > 0 {
      BitOfXor(n - 1, a / 2, b / 2, i - 1);
    }
  }

  lemma {:induction false} BitOfMultiple(a: nat, k: nat, i: nat)
    ensures Bit(a * Pow2(k), i) <==> i >= k && Bit(a, i - k)
    decreases k
  {
    hide Bit;
    if k > 0 {
      var x := a * Pow2(k - 1);
      BitHalf(2 * x, i);
      assert a * Pow2(k) == 2 * x by {
        Twofold(a, Pow2(k - 1));
      }
      if i > 0 {
        BitOfMultiple(a, k - 1, i - 1);
      }
    }
  }

  lemma Twofold(c: int, p: int)
    ensures c * (2 * p) == 2 * (c * p)
  {
  }

  lemma {:induction false} BitOfRemainder(n: nat, x: nat, i: nat)
    requires i < n
    ensures Bit(x % Pow2(n), i) <==> Bit(x, i)
    decreases i
  {
    var q, r := x / Pow2(n), x % Pow2(n);
    var h, p := r / 2, Pow2(n - 1);
    assert x == q * Pow2(n) + r;
    assert q * Pow2(n) == 2 * (q * p) by {
      Twofold(q, p);
    }
    DivModIs(x, 2, q * p + h, r % 2);
    DivModIs(x / 2, p, q, h);
    BitHalf(x, i);
    BitHalf(r, i);
    if i > 0 {
      BitOfRemainder(n - 1, x / 2, i - 1);
    }
  }

  lemma BitOfFold(a: nat, k: nat, i: nat)
    requires i < 32
    ensures Bit(Fold(a, k), i) <==> Bit(a, i) && i >= k && Bit(a, i - k)
  {
    hide Bit, Pow2, And;
    BitOfAnd(32, a, ShiftLeft(32, a, k), i);
    BitOfRemainder(32, a * Pow2(k), i);
    BitOfMultiple(a, k, i);
  }

  lemma FoldWord(a: nat, k: nat)
    ensures Word(32, Fold(a, k))
  {
    hide Pow2, And;
    AndWord(32, a, ShiftLeft(32, a, k));
  }

  lemma {:induction false} AndWord(n: nat, a: nat, b: nat)
    ensures Word(n, And(n, a, b))
  {
    if n > 0 {
      AndWord(n - 1, a / 2, b / 2);
    }
  }

  /** All bits from `lo` to 31 are set. */
  ghost predicate Ones(x: nat, lo: nat) {
    forall i: nat :: lo <= i < 32 ==> Bit(x, i)
  }

  /** Folding by `k` gathers the bits of the upper 2k places in the upper k. */
  lemma FoldGathers(x: nat, k: nat)
    requires 0 < k <= 16
    ensures Ones(Fold(x, k), 32 - k) <==> Ones(x, 32 - 2 * k)
  {
    hide Bit, Fold;
    if Ones(Fold(x, k), 32 - k) {
      forall i: nat | 32 - 2 * k <= i < 32
        ensures Bit(x, i)
      {
        var j: nat := if i < 32 - k then i + k else i;
        assert Bit(Fold(x, k), j);
        BitOfFold(x, k, j);
      }
    }
    if Ones(x, 32 - 2 * k) {
      forall i: nat | 32 - k <= i < 32
        ensures Bit(Fold(x, k), i)
      {
        BitOfFold(x, k, i);
      }
    }
  }

  lemma {:induction false} AllBits(n: nat, x: nat)
    requires Word(n, x)
    ensures (forall i: nat :: i < n ==> Bit(x, i)) <==> x == Pow2(n) - 1
  {
    hide Bit;
    if n > 0 {
      AllBits(n - 1, x / 2);
      BitHalf(x, 0);
      if forall i: nat :: i < n ==> Bit(x, i) {
        assert Bit(x, 0);
        forall i: nat | i < n - 1
          ensures Bit(x / 2, i)
        {
          assert Bit(x, i + 1);
          BitHalf(x, i + 1);
        }
      }
      if x == Pow2(n) - 1 {
        forall i: nat | i < n
          ensures Bit(x, i)
        {
          BitHalf(x, i);
        }
      }
    }
  }

  lemma {:induction false} TopIsBit(n: nat, x: nat)
    requires n > 0 && Word(n, x)
    ensures Top(n, x) <==> Bit(x, n - 1)
  {
    hide Bit;
    BitHalf(x, n - 1);
    if n > 1 {
      TopIsBit(n - 1, x / 2);
    }
  }

  /** All ones exactly for equal words. */
  lemma FoldedEqIs(a: nat, b: nat)
    requires Word(32, a) && Word(32, b)
    ensures FoldedEq(a, b) == MaskIf(32, a == b)
  {
    hide Pow2, Xor, Fold, Bit, Top;
    BitwiseTop(32, a, b);
    var x0 := Not(32, Xor(32, a, b));
    var x1 := Fold(x0, 16);
    var x2 := Fold(x1, 8);
    var x3 := Fold(x2, 4);
    var x4 := Fold(x3, 2);
    var x5 := Fold(x4, 1);
    FoldGathers(x0, 16);
    FoldGathers(x1, 8);
    FoldGathers(x2, 4);
    FoldGathers(x3, 2);
    FoldGathers(x4, 1);
    FoldWord(x4, 1);
    TopIsBit(32, x5);
    MsbIs(x5);
    XorZero(32, a, b);
    AllBits(32, x0);
    assert Ones(x5, 31) <==> Bit(x5, 31);
  }
}
