/** The streaming hash collector: bytes are gathered into blocks of 64 and compressed;
    the end is padded as section 5.1.1 of FIPS 180-4 asks. The compression function
    is any function of a state and a block. */
module HashCollector {
  import opened Arithmetic

  type Bytes = seq<nat>

  const BLOCK: nat := 64

  ghost predicate IsBytes(s: Bytes) {
    forall i :: 0 <= i < |s| ==> s[i] < 256
  }

  // ---------------------------------------------------------------- folding blocks

  /** Compress the whole blocks of `m` in turn. */
  ghost function Fold<S>(f: (S, Bytes) -> S, s: S, m: Bytes): S
    decreases |m|
  {
    if |m| < BLOCK then s else Fold(f, f(s, m[..BLOCK]), m[BLOCK..])
  }

  lemma {:induction false} FoldAppend<S>(f: (S, Bytes) -> S, s: S, a: Bytes, b: Bytes)
    requires |a| % BLOCK == 0
    ensures Fold(f, s, a + b) == Fold(f, Fold(f, s, a), b)
    decreases |a|
  {
    if a == [] {
      assert a + b == b;
    } else {
      var t := f(s, a[..BLOCK]);
      FoldAppend(f, t, a[BLOCK..], b);
      assert (a + b)[..BLOCK] == a[..BLOCK] && (a + b)[BLOCK..] == a[BLOCK..] + b;
    }
  }

  lemma FoldOne<S>(f: (S, Bytes) -> S, s: S, b: Bytes)
    requires |b| == BLOCK
    ensures Fold(f, s, b) == f(s, b)
  {
    assert b[..BLOCK] == b && b[BLOCK..] == [];
    assert Fold(f, f(s, b), []) == f(s, b);
  }

  /** The part of a message that fills whole blocks, and the rest. */
  ghost function Whole(m: Bytes): (w: Bytes)
    ensures |w| % BLOCK == 0 && w + Rest(m) == m
  {
    m[..|m| / BLOCK * BLOCK]
  }

  ghost function Rest(m: Bytes): (r: Bytes)
    ensures |r| == |m| % BLOCK
  {
    m[|m| / BLOCK * BLOCK..]
  }

  lemma WholeUnique(m: Bytes, w: Bytes, r: Bytes)
    requires m == w + r && |w| % BLOCK == 0 && |r| < BLOCK
    ensures Whole(m) == w && Rest(m) == r
  {
    var q := |w| / BLOCK;
    assert |w| == q * BLOCK && |m| == q * BLOCK + |r|;
    assert |m| / BLOCK == q;
  }

  // ---------------------------------------------------------------- padding

  ghost function Zeros(n: nat): (z: Bytes)
    ensures |z| == n && forall i :: 0 <= i < n ==> z[i] == 0
  {
    seq(n, _ => 0)
  }

  /** The number that bytes stand for, most significant first. */
  ghost function Number(s: Bytes): nat {
    if s == [] then 0 else 0x100 * Number(s[..|s| - 1]) + s[|s| - 1]
  }

  /** Four bytes, most significant first. */
  function BigEndian(x: nat): (b: Bytes)
    ensures |b| == 4
  {
    [(x / 0x100_0000) % 0x100, (x / 0x1_0000) % 0x100, (x / 0x100) % 0x100, x % 0x100]
  }

  lemma NumberOfFour(a: nat, b: nat, c: nat, d: nat)
    ensures Number([a, b, c, d]) == a * 0x100_0000 + b * 0x1_0000 + c * 0x100 + d
  {
    assert [a, b, c, d][..3] == [a, b, c] && [a, b, c][..2] == [a, b] && [a, b][..1] == [a] && [a][..0] == [];
    assert Number([a]) == a && Number([a, b]) == 0x100 * a + b && Number([a, b, c]) == 0x100 * Number([a, b]) + c;
  }

  lemma BigEndianIs(x: nat)
    ensures IsBytes(BigEndian(x)) && Number(BigEndian(x)) == x % 0x1_0000_0000
  {
    var q1 := x / 0x100;
    var q2 := q1 / 0x100;
    var q3 := q2 / 0x100;
    assert x == q1 * 0x100 + x % 0x100 && q1 == q2 * 0x100 + q1 % 0x100 && q2 == q3 * 0x100 + q2 % 0x100;
    assert q3 == (q3 / 0x100) * 0x100 + q3 % 0x100;
    assert x / 0x1_0000 == q2 && x / 0x100_0000 == q3;
    DivModIs(x, 0x1_0000_0000, q3 / 0x100, (q3 % 0x100) * 0x100_0000 + (q2 % 0x100) * 0x1_0000 + (q1 % 0x100) * 0x100 +
             x % 0x100);
    NumberOfFour(q3 % 0x100, q2 % 0x100, q1 % 0x100, x % 0x100);
  }

  lemma {:induction false} NumberOfTwo(a: Bytes, b: Bytes)
    requires |b| == 4
    ensures Number(a + b) == Number(a) * 0x1_0000_0000 + Number(b)
  {
    var s := a + b;
    assert b == [b[0], b[1], b[2], b[3]];
    NumberOfFour(b[0], b[1], b[2], b[3]);
    var s3, s2, s1 := s[..|s| - 1], s[..|s| - 2], s[..|s| - 3];
    assert s3[..|s3| - 1] == s2 && s2[..|s2| - 1] == s1 && s1[..|s1| - 1] == a;
    assert Number(s1) == 0x100 * Number(a) + b[0];
    assert Number(s2) == 0x100 * Number(s1) + b[1];
    assert Number(s3) == 0x100 * Number(s2) + b[2];
    assert Number(s) == 0x100 * Number(s3) + b[3];
  }

  /** Bytes are determined by their number. */
  lemma {:induction false} NumberUnique(a: Bytes, b: Bytes)
    requires |a| == |b| && IsBytes(a) && IsBytes(b) && Number(a) == Number(b)
    ensures a == b
    decreases |a|
  {
    if a != [] {
      var m := |a| - 1;
      NumberUnique(a[..m], b[..m]);
      assert a == a[..m] + [a[m]] && b == b[..m] + [b[m]];
    }
  }

  lemma LengthNumber(n: nat)
    ensures var b := BigEndian((8 * n) / 0x1_0000_0000 % 0x1_0000_0000) + BigEndian((8 * n) % 0x1_0000_0000);
            IsBytes(b) && Number(b) == (8 * n) % 0x1_0000_0000_0000_0000
  {
    hide BigEndian, Number;
    var h, l := (8 * n) / 0x1_0000_0000, (8 * n) % 0x1_0000_0000;
    BigEndianIs(h % 0x1_0000_0000);
    BigEndianIs(l);
    NumberOfTwo(BigEndian(h % 0x1_0000_0000), BigEndian(l));
    assert h == (h / 0x1_0000_0000) * 0x1_0000_0000 + h % 0x1_0000_0000;
    assert 8 * n == h * 0x1_0000_0000 + l;
    DivModIs(8 * n, 0x1_0000_0000_0000_0000, h / 0x1_0000_0000, (h % 0x1_0000_0000) * 0x1_0000_0000 + l);
  }

  /** The message length in bits modulo 2^64, as eight bytes, most significant first. */
  ghost function Length(n: nat): (b: Bytes)
    ensures |b| == 8 && IsBytes(b) && Number(b) == (8 * n) % 0x1_0000_0000_0000_0000
  {
    LengthNumber(n);
    BigEndian((8 * n) / 0x1_0000_0000 % 0x1_0000_0000) + BigEndian((8 * n) % 0x1_0000_0000)
  }

  /** How many zeros the padding of `n` bytes needs. */
  function Gap(n: nat): (k: nat)
    ensures k < BLOCK && (n + 1 + k) % BLOCK == BLOCK - 8
  {
    if n % BLOCK <= 55 then 55 - n % BLOCK else 119 - n % BLOCK
  }

  ghost function Padding(n: nat): (p: Bytes) {
    [0x80] + Zeros(Gap(n)) + Length(n)
  }

  /** Padding fills whole blocks, with as few zeros as possible. */
  lemma PaddingFills(n: nat, k: nat)
    ensures (n + |Padding(n)|) % BLOCK == 0
    ensures (n + 1 + k + 8) % BLOCK == 0 ==> Gap(n) <= k
  {
    hide Length;
    assert |Padding(n)| == 9 + Gap(n);
    var q := n / BLOCK;
    assert n == q * BLOCK + n % BLOCK;
  }

  // ---------------------------------------------------------------- the collector

  /** Nh:Nl counts the bits of `n` bytes, modulo 2^64. */
  ghost predicate Counts(nh: nat, nl: nat, n: nat) {
    nh < 0x1_0000_0000 && nl < 0x1_0000_0000 && nh * 0x1_0000_0000 + nl == (8 * n) % 0x1_0000_0000_0000_0000
  }

  /** The 32-bit carry is caught. */
  lemma CountMore(nh: nat, nl: nat, n: nat, len: nat)
    requires Counts(nh, nl, n)
    ensures var add := ((len % 0x1_0000_0000) * 8) % 0x1_0000_0000;
            var l := (nl + add) % 0x1_0000_0000;
            var h := (nh + (if l < nl then 1 else 0) + (len / 0x2000_0000) % 0x1_0000_0000) % 0x1_0000_0000;
            Counts(h, l, n + len)
  {
    var add := ((len % 0x1_0000_0000) * 8) % 0x1_0000_0000;
    var l := (nl + add) % 0x1_0000_0000;
    var carry := if l < nl then 1 else 0;
    var q := len / 0x2000_0000;
    Low29(len);
    AddLow(nl, add);
    var h0 := nh + carry + q % 0x1_0000_0000;
    AddHigh(8 * n, 8 * len, nh, nl, q, add, l, carry, h0);
  }

  lemma AddLow(nl: nat, add: nat)
    requires nl < 0x1_0000_0000 && add < 0x1_0000_0000
    ensures var l := (nl + add) % 0x1_0000_0000;
            nl + add == l + (if l < nl then 0x1_0000_0000 else 0)
  {
  }

  lemma AddHigh(x: nat, y: nat, nh: nat, nl: nat, q: nat, add: nat, l: nat, carry: nat, h0: nat)
    requires nh * 0x1_0000_0000 + nl == x % 0x1_0000_0000_0000_0000 && y == q * 0x1_0000_0000 + add
    requires nl + add == l + carry * 0x1_0000_0000 && l < 0x1_0000_0000 && h0 == nh + carry + q % 0x1_0000_0000
    ensures (h0 % 0x1_0000_0000) * 0x1_0000_0000 + l == (x + y) % 0x1_0000_0000_0000_0000
  {
    var k, j, t := q / 0x1_0000_0000, h0 / 0x1_0000_0000, x / 0x1_0000_0000_0000_0000;
    assert q == k * 0x1_0000_0000 + q % 0x1_0000_0000;
    assert h0 == j * 0x1_0000_0000 + h0 % 0x1_0000_0000;
    assert x == t * 0x1_0000_0000_0000_0000 + (nh * 0x1_0000_0000 + nl);
    DivModIs(x + y, 0x1_0000_0000_0000_0000, t + k + j, (h0 % 0x1_0000_0000) * 0x1_0000_0000 + l);
  }

  lemma Low29(len: nat)
    ensures ((len % 0x1_0000_0000) * 8) % 0x1_0000_0000 == 8 * (len % 0x2000_0000)
    ensures 8 * len == (len / 0x2000_0000) * 0x1_0000_0000 + 8 * (len % 0x2000_0000)
  {
    var a, r := len / 0x2000_0000, len % 0x2000_0000;
    var b, c := a / 8, a % 8;
    assert len == a * 0x2000_0000 + r && a == b * 8 + c;
    assert len == b * 0x1_0000_0000 + (c * 0x2000_0000 + r);
    DivModIs(len, 0x1_0000_0000, b, c * 0x2000_0000 + r);
    assert (c * 0x2000_0000 + r) * 8 == c * 0x1_0000_0000 + 8 * r;
    DivModIs((c * 0x2000_0000 + r) * 8, 0x1_0000_0000, c, 8 * r);
  }

  class Collector<S(!new)> {
    const compress: (S, Bytes) -> S
    ghost const start: S
    var state: S
    var nl: nat
    var nh: nat
    var num: nat
    const data: array<nat>
    /** All bytes taken since the start. */
    ghost var taken: Bytes

    ghost predicate Valid()
      reads this, data
    {
      && data.Length == BLOCK && num < BLOCK
      && state == Fold(compress, start, Whole(taken))
      && num == |Rest(taken)| && data[..num] == Rest(taken)
      && Counts(nh, nl, |taken|)
    }

    constructor (compress: (S, Bytes) -> S, start: S)
      ensures Valid() && fresh(data) && taken == [] && this.compress == compress && this.start == start
    {
      this.compress, this.start, state := compress, start, start;
      nl, nh, num, taken := 0, 0, 0, [];
      data := new nat[BLOCK](_ => 0);
    }

    /** Compress `n` blocks. */
    method BlockDataOrder(p: Bytes, n: nat)
      requires |p| >= n * BLOCK
      modifies this`state
      ensures state == Fold(compress, old(state), p[..n * BLOCK])
    {
      for i := 0 to n
        invariant state == Fold(compress, old(state), p[..i * BLOCK])
      {
        var b := p[i * BLOCK..(i + 1) * BLOCK];
        assert p[..(i + 1) * BLOCK] == p[..i * BLOCK] + b;
        FoldAppend(compress, old(state), p[..i * BLOCK], b);
        FoldOne(compress, state, b);
        state := compress(state, b);
      }
    }

    /** Take in more bytes. */
    method Update(bytes: Bytes)
      requires Valid()
      modifies this, data
      ensures Valid() && taken == old(taken) + bytes
    {
      if |bytes| == 0 {
        assert taken + bytes == taken;
        return;
      }
      ghost var was := taken;
      CountMore(nh, nl, |taken|, |bytes|);
      var l := (nl + ((|bytes| % 0x1_0000_0000) * 8) % 0x1_0000_0000) % 0x1_0000_0000;
      var h := nh;
      if l < nl {
        h := h + 1;
      }
      nh := (h + (|bytes| / 0x2000_0000) % 0x1_0000_0000) % 0x1_0000_0000;
      nl := l;
      assert Counts(nh, nl, |was + bytes|);
      Absorb(bytes, was);
      taken := was + bytes;
    }

    /** Everything but the bit count. */
    ghost predicate Holds(m: Bytes)
      reads this`state, this`num, data
    {
      && data.Length == BLOCK && num < BLOCK
      && state == Fold(compress, start, Whole(m))
      && num == |Rest(m)| && data[..num] == Rest(m)
    }

    method Copy(at: nat, bytes: Bytes)
      requires data.Length == BLOCK && at + |bytes| <= BLOCK
      modifies data
      ensures data[..] == old(data[..at]) + bytes + old(data[at + |bytes|..])
    {
      forall i | at <= i < at + |bytes| {
        data[i] := bytes[i - at];
      }
    }

    /** Fill the buffer first, then compress straight from the input, then keep the rest. */
    method Absorb(bytes: Bytes, ghost was: Bytes)
      requires Holds(was)
      modifies this`state, this`num, data
      ensures Holds(was + bytes)
    {
      hide Fold, Whole, Rest;
      ghost var w, r := Whole(was), Rest(was);
      if num != 0 {
        if |bytes| >= BLOCK || |bytes| + num >= BLOCK {
          var k := BLOCK - num;
          FillBuffer(bytes[..k], w, r);
          assert was + bytes == w + (r + bytes[..k]) + bytes[k..];
          KeepRest(bytes[k..], was + bytes, w + (r + bytes[..k]));
        } else {
          Copy(num, bytes);
          num := num + |bytes|;
          assert data[..num] == r + bytes;
          assert was + bytes == w + (r + bytes);
          WholeUnique(was + bytes, w, r + bytes);
        }
      } else {
        assert r == [];
        assert was + bytes == w + bytes;
        KeepRest(bytes, was + bytes, w);
      }
    }

    /** Complete the buffered block, compress it, and clear the buffer. */
    method FillBuffer(bytes: Bytes, ghost w: Bytes, ghost r: Bytes)
      requires data.Length == BLOCK && num < BLOCK && num + |bytes| == BLOCK && data[..num] == r && |w| % BLOCK == 0
      requires state == Fold(compress, start, w)
      modifies this`state, this`num, data
      ensures num == 0 && state == Fold(compress, start, w + (r + bytes))
    {
      hide Fold;
      Copy(num, bytes);
      assert data[..] == r + bytes;
      BlockDataOrder(data[..], 1);
      assert data[..][..1 * BLOCK] == data[..];
      FoldAppend(compress, start, w, r + bytes);
      num := 0;
      Copy(0, seq(BLOCK, _ => 0));
    }

    /** With an empty buffer: compress whole blocks of the input, and buffer what is left. */
    method KeepRest(bytes: Bytes, ghost m: Bytes, ghost done: Bytes)
      requires data.Length == BLOCK && num == 0 && state == Fold(compress, start, done) && |done| % BLOCK == 0
      requires m == done + bytes
      modifies this`state, this`num, data
      ensures Holds(m)
    {
      hide Fold, Whole, Rest;
      var rest := bytes;
      var n := |rest| / BLOCK;
      ghost var all := done;
      if n > 0 {
        BlockDataOrder(rest, n);
        FoldAppend(compress, start, done, rest[..n * BLOCK]);
        all := done + rest[..n * BLOCK];
        rest := rest[n * BLOCK..];
      }
      assert m == all + rest;
      WholeUnique(m, all, rest);
      if |rest| != 0 {
        num := |rest|;
        Copy(0, rest);
      }
      assert data[..num] == rest;
    }

    /** Pad, compress what is left, and start over with an empty buffer. */
    method Final() returns (md: S)
      requires Valid()
      modifies this, data
      ensures md == Fold(compress, start, old(taken) + Padding(|old(taken)|))
    {
      hide Fold, Whole, Rest, Counts, Padding;
      ghost var m := taken;
      ghost var w, r := Whole(m), Rest(m);
      var n := num;
      Copy(n, [0x80]);
      n := n + 1;
      ghost var done, tail := w, r + [0x80];
      assert data[..n] == tail;
      if n > BLOCK - 8 {
        Copy(n, seq(BLOCK - n, _ => 0));
        done := w + (tail + Zeros(BLOCK - n));
        assert data[..] == tail + Zeros(BLOCK - n);
        BlockDataOrder(data[..], 1);
        assert data[..][..1 * BLOCK] == data[..];
        FoldAppend(compress, start, w, tail + Zeros(BLOCK - n));
        n, tail := 0, [];
      }
      Copy(n, seq(BLOCK - 8 - n, _ => 0));
      Copy(BLOCK - 8, BigEndian(nh) + BigEndian(nl));
      assert data[..] == tail + Zeros(BLOCK - 8 - n) + (BigEndian(nh) + BigEndian(nl));
      BlockDataOrder(data[..], 1);
      assert data[..][..1 * BLOCK] == data[..];
      FoldAppend(compress, start, done, tail + Zeros(BLOCK - 8 - n) + (BigEndian(nh) + BigEndian(nl)));
      PaddedIs(m, nh, nl);
      md := state;
      num := 0;
      Copy(0, seq(BLOCK, _ => 0));
    }
  }

  /** What is compressed last is the padded message. */
  lemma PaddedIs(m: Bytes, nh: nat, nl: nat)
    requires Counts(nh, nl, |m|)
    ensures var w, r, len := Whole(m), Rest(m), BigEndian(nh) + BigEndian(nl);
            m + Padding(|m|) ==
              if |r| + 1 > BLOCK - 8 then w + (r + [0x80] + Zeros(BLOCK - |r| - 1)) + ([] + Zeros(BLOCK - 8) + len)
                                else w + (r + [0x80] + Zeros(BLOCK - 8 - |r| - 1) + len)
  {
    hide Whole, Rest;
    var r := Rest(m);
    LengthIs(|m|, nh, nl);
    if |r| + 1 > BLOCK - 8 {
      assert Gap(|m|) == (BLOCK - |r| - 1) + (BLOCK - 8);
      assert Zeros(Gap(|m|)) == Zeros(BLOCK - |r| - 1) + Zeros(BLOCK - 8);
    } else {
      assert Gap(|m|) == BLOCK - 8 - |r| - 1;
    }
  }

  lemma LengthIs(n: nat, nh: nat, nl: nat)
    requires Counts(nh, nl, n)
    ensures Length(n) == BigEndian(nh) + BigEndian(nl)
  {
    var M := 0x1_0000_0000;
    var x := (8 * n) % (M * M);
    var q := (8 * n) / (M * M);
    assert 8 * n == q * (M * M) + x;
    assert (8 * n) % M == nl && ((8 * n) / M) % M == nh;
  }

  /** Feeding a message in pieces collects the message. */
  method UpdateAll<S(!new)>(c: Collector<S>, pieces: seq<Bytes>)
    requires c.Valid()
    modifies c, c.data
    ensures c.Valid() && c.taken == old(c.taken) + Joined(pieces)
  {
    hide *;
    JoinedNone(pieces, c.taken);
    for i := 0 to |pieces|
      invariant c.Valid() && c.taken == old(c.taken) + Joined(pieces[..i])
    {
      JoinedNext(pieces, i, old(c.taken));
      c.Update(pieces[i]);
    }
    assert pieces[..|pieces|] == pieces;
  }

  lemma JoinedNone(pieces: seq<Bytes>, m: Bytes)
    ensures m == m + Joined(pieces[..0])
  {
  }

  lemma JoinedNext(pieces: seq<Bytes>, i: nat, m: Bytes)
    requires i < |pieces|
    ensures m + Joined(pieces[..i + 1]) == m + Joined(pieces[..i]) + pieces[i]
  {
    assert pieces[..i + 1][..i] == pieces[..i] && pieces[..i + 1][i] == pieces[i];
  }

  ghost function Joined(pieces: seq<Bytes>): Bytes {
    if pieces == [] then [] else Joined(pieces[..|pieces| - 1]) + pieces[|pieces| - 1]
  }
}
