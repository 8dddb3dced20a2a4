/** The MAC of a TLS record in constant time. The record's real length is secret, so the
    last blocks of the inner hash are all computed and the right one is picked by masks.
    HMAC is section 2 of RFC 2104, the record MAC section 6.2.3.1 of RFC 5246. The
    compression function is any function of a state and a block. */
module RecordDigest {
  import opened Arithmetic
  import opened HashCollector
  import CT = ConstantTime

  const HEADER: nat := 13
  const MD_SIZE: nat := 20
  const LENGTH_SIZE: nat := 8
  const VARIANCE_BLOCKS: nat := 6
  /** The size of the largest hash block, which the buffer for the key has. */
  const MAX_KEY: nat := 128

  // ---------------------------------------------------------------- what is to be hashed

  /** The record's header and data, up to the MAC. */
  ghost function Message(header: Bytes, data: Bytes, dataPlusMac: nat): Bytes
    requires |header| == HEADER && MD_SIZE <= dataPlusMac <= |data|
  {
    header + data[..dataPlusMac - MD_SIZE]
  }

  /** The key block: the key, filled up with zeros, against 0x36 in every byte. */
  ghost function InnerPad(secret: Bytes): (p: Bytes)
    ensures |p| == BLOCK
  {
    seq<nat>(BLOCK, i requires 0 <= i < BLOCK => CT.Xor(8, if i < |secret| then secret[i] else 0, 0x36))
  }

  /** Build the key block in a buffer for the longest key. */
  method PadKey(secret: Bytes) returns (pad: array<nat>)
    requires |secret| <= MAX_KEY
    ensures fresh(pad) && pad.Length == MAX_KEY
    ensures forall i :: 0 <= i < BLOCK ==> pad[i] == CT.Xor(8, if i < |secret| then secret[i] else 0, 0x36)
  {
    hide CT.Xor;
    pad := new nat[MAX_KEY](_ => 0);
    for i := 0 to |secret|
      invariant forall x :: 0 <= x < MAX_KEY ==> pad[x] == if x < i then secret[x] else 0
    {
      pad[i] := secret[i];
    }
    for i := 0 to BLOCK
      invariant forall x :: 0 <= x < i ==> pad[x] == CT.Xor(8, if x < |secret| then secret[x] else 0, 0x36)
      invariant forall x :: i <= x < MAX_KEY ==> pad[x] == if x < |secret| then secret[x] else 0
    {
      pad[i] := CT.Xor(8, pad[i], 0x36);
    }
  }

  /** The key block's bits: those of the key byte, with bits 1, 2, 4 and 5 turned over. */
  lemma PadBits(secret: Bytes, i: nat, k: nat)
    requires i < BLOCK && k < 8
    ensures var b := if i < |secret| then secret[i] else 0;
            CT.Bit(InnerPad(secret)[i], k) <==>
              if k == 1 || k == 2 || k == 4 || k == 5 then !CT.Bit(b, k) else CT.Bit(b, k)
  {
    hide CT.Xor;
    var b := if i < |secret| then secret[i] else 0;
    CT.BitOfXor(8, b, 0x36, k);
    assert Pow2(0) == 1 && Pow2(1) == 2 && Pow2(2) == 4 && Pow2(3) == 8 && Pow2(4) == 16 && Pow2(5) == 32 &&
           Pow2(6) == 64 && Pow2(7) == 128;
  }

  lemma PadIs(secret: Bytes, p: Bytes)
    requires |p| == BLOCK
    requires forall i :: 0 <= i < BLOCK ==> p[i] == CT.Xor(8, if i < |secret| then secret[i] else 0, 0x36)
    ensures p == InnerPad(secret)
  {
  }

  /** Of a key longer than a block only the first block counts. */
  lemma LongKeyTruncated(secret: Bytes)
    requires |secret| >= BLOCK
    ensures InnerPad(secret) == InnerPad(secret[..BLOCK])
  {
    var p, q := InnerPad(secret), InnerPad(secret[..BLOCK]);
    forall i | 0 <= i < BLOCK
      ensures p[i] == q[i]
    {
      assert secret[..BLOCK][i] == secret[i];
    }
  }

  /** The inner hash of HMAC as it is defined for keys of at most a block: the padded key
      block and the message, hashed plainly. The definition hashes longer keys first. */
  ghost function InnerHash<S>(f: (S, Bytes) -> S, start: S, secret: Bytes, msg: Bytes): S {
    var all := InnerPad(secret) + msg;
    Fold(f, start, all + Padding(|all|))
  }

  /** The message with the padding of the whole hash input, without the key block. */
  ghost function Padded(msg: Bytes): Bytes {
    msg + Padding(BLOCK + |msg|)
  }

  lemma InnerHashIs<S>(f: (S, Bytes) -> S, start: S, secret: Bytes, msg: Bytes)
    ensures InnerHash(f, start, secret, msg) == Fold(f, f(start, InnerPad(secret)), Padded(msg))
  {
    hide Fold, Padding;
    var p := InnerPad(secret);
    assert p + msg + Padding(|p + msg|) == p + Padded(msg);
    FoldAppend(f, start, p, Padded(msg));
    FoldOne(f, start, p);
  }

  // ---------------------------------------------------------------- where things fall

  function IndexA(n: nat): nat {
    n / BLOCK
  }

  function IndexB(n: nat): nat {
    (n + LENGTH_SIZE) / BLOCK
  }

  /** The length in bits of key block and message, most significant byte first, in the lower four of eight bytes. */
  function LengthBytes(n: nat): (b: Bytes)
    ensures |b| == LENGTH_SIZE && IsBytes(b)
    ensures n < 0x1000_0000 ==> Number(b) == 8 * (n + BLOCK)
  {
    LengthBytesAre(n);
    [0, 0, 0, 0] + BigEndian(8 * n + 8 * BLOCK)
  }

  lemma LengthBytesAre(n: nat)
    ensures var b := [0, 0, 0, 0] + BigEndian(8 * n + 8 * BLOCK);
            IsBytes(b) && (n < 0x1000_0000 ==> Number(b) == 8 * (n + BLOCK))
  {
    hide BigEndian;
    BigEndianIs(8 * n + 8 * BLOCK);
    NumberOfFour(0, 0, 0, 0);
    NumberOfTwo([0, 0, 0, 0], BigEndian(8 * n + 8 * BLOCK));
  }

  lemma LengthBytesRight(n: nat)
    requires n < 0x20_0000
    ensures Length(BLOCK + n) == LengthBytes(n)
  {
    hide Number, BigEndian;
    NumberUnique(Length(BLOCK + n), LengthBytes(n));
  }

  /** The padded message, byte by byte. */
  ghost predicate PaddedBytes(msg: Bytes, p: Bytes) {
    var n := |msg|;
    && |p| == BLOCK * (IndexB(n) + 1) && n + 9 <= |p|
    && (forall x :: 0 <= x < n ==> p[x] == msg[x])
    && p[n] == 0x80
    && (forall x :: n < x < |p| - 8 ==> p[x] == 0)
    && (forall x :: |p| - 8 <= x < |p| ==> p[x] == LengthBytes(n)[x - (|p| - 8)])
  }

  lemma PaddedIs(msg: Bytes)
    requires |msg| < 0x20_0000
    ensures PaddedBytes(msg, Padded(msg))
  {
    hide Length;
    var n := |msg|;
    LengthBytesRight(n);
    var k := Gap(BLOCK + n);
    PadSize(n);
    assert Padded(msg) == msg + [0x80] + Zeros(k) + LengthBytes(n);
  }

  lemma PadSize(n: nat)
    ensures n + 1 + Gap(BLOCK + n) + 8 == BLOCK * (IndexB(n) + 1)
  {
    var q, r := n / BLOCK, n % BLOCK;
    assert n == q * BLOCK + r && (BLOCK + n) % BLOCK == r;
  }

  /** Everything that depends on the secret length falls into the blocks computed last, whatever the padding. */
  lemma InVariance(size: nat, dataPlusMac: nat)
    requires MD_SIZE <= dataPlusMac <= size <= dataPlusMac + 256
    ensures var n := dataPlusMac + HEADER - MD_SIZE;
            StartingBlocks(size) <= IndexA(n) <= IndexB(n) <= StartingBlocks(size) + VARIANCE_BLOCKS &&
              StartingBlocks(size) * BLOCK <= n
  {
  }

  function NumBlocks(size: nat): nat
    requires size >= MD_SIZE
  {
    (size + HEADER - MD_SIZE - 1 + 1 + LENGTH_SIZE + BLOCK - 1) / BLOCK
  }

  /** As many blocks as the padded message has when the record has only the least padding, one byte. */
  lemma NumBlocksIs(size: nat)
    requires size >= MD_SIZE
    ensures NumBlocks(size) == IndexB(size - 1 + HEADER - MD_SIZE) + 1
  {
    var m := size - 1 + HEADER - MD_SIZE;
    assert (m + 1 + LENGTH_SIZE + BLOCK - 1) / BLOCK == (m + LENGTH_SIZE) / BLOCK + 1;
  }

  function StartingBlocks(size: nat): nat
    requires size >= MD_SIZE
  {
    if NumBlocks(size) > VARIANCE_BLOCKS then NumBlocks(size) - VARIANCE_BLOCKS else 0
  }

  // ---------------------------------------------------------------- one byte of a block

  lemma AndMasks(p: bool, q: bool)
    ensures CT.And(8, CT.MaskIf(8, p), CT.MaskIf(8, q)) == CT.MaskIf(8, p && q)
  {
    hide CT.And;
    CT.SmallSizes();
    CT.MaskedWord(8, CT.MaskIf(8, p));
    CT.MaskedWord(8, CT.MaskIf(8, q));
  }

  lemma NotMask(p: bool)
    ensures CT.Word(8, CT.MaskIf(8, p)) && CT.Not(8, CT.MaskIf(8, p)) == CT.MaskIf(8, !p)
  {
    CT.SmallSizes();
  }

  lemma OrMasks(p: bool, q: bool)
    ensures CT.Or(8, CT.MaskIf(8, p), CT.MaskIf(8, q)) == CT.MaskIf(8, p || q)
  {
    hide CT.Or;
    CT.SmallSizes();
    CT.MaskedWord(8, CT.MaskIf(8, p));
    CT.MaskedWord(8, CT.MaskIf(8, q));
  }

  lemma Clear(b: nat, p: bool)
    requires b < 256
    ensures CT.And(8, b, CT.MaskIf(8, p)) == if p then b else 0
  {
    CT.SmallSizes();
    CT.MaskedWord(8, b);
  }

  /** What the masks make of a byte. */
  ghost function Picked(raw: nat, isA: bool, isB: bool, j: nat, c: nat, length: Bytes): nat
    requires |length| == LENGTH_SIZE && j < BLOCK
  {
    if isB && j >= BLOCK - LENGTH_SIZE then length[j - (BLOCK - LENGTH_SIZE)]
    else if isB && !isA then 0
    else if isA && j > c then 0
    else if isA && j == c then 0x80
    else raw
  }

  /** Byte `j` of a block, without branching on what is secret. */
  method PickByte(raw: nat, isBlockA: nat, isBlockB: nat, j: nat, c: nat, length: Bytes, ghost isA: bool,
                  ghost isB: bool)
    returns (b: nat)
    requires raw < 256 && j < BLOCK && c < BLOCK && |length| == LENGTH_SIZE && IsBytes(length)
    requires isBlockA == CT.MaskIf(8, isA) && isBlockB == CT.MaskIf(8, isB)
    ensures b == Picked(raw, isA, isB, j, c, length) && b < 256
  {
    hide CT.And, CT.Or, CT.Ge8, Pow2, CT.MaskIf, CT.Select;
    CT.SmallSizes();
    CT.ByteMasks(j, c);
    CT.ByteMasks(j, c + 1);
    AndMasks(isA, j >= c);
    AndMasks(isA, j >= c + 1);
    var isPastC := CT.And(8, isBlockA, CT.Ge8(j, c));
    var isPastCp1 := CT.And(8, isBlockA, CT.Ge8(j, c + 1));
    NotMask(isA && j >= c);
    NotMask(isA && j >= c + 1);
    NotMask(isB);
    OrMasks(!isB, isA);
    CT.SelectIs(8, isA && j >= c, 0x80, raw);
    b := CT.Select(8, isPastC, 0x80, raw);
    Clear(b, !(isA && j >= c + 1));
    b := CT.And(8, b, CT.Not(8, isPastCp1));
    Clear(b, !isB || isA);
    b := CT.And(8, b, CT.Or(8, CT.Not(8, isBlockB), isBlockA));
    if j >= BLOCK - LENGTH_SIZE {
      CT.SelectIs(8, isB, length[j - (BLOCK - LENGTH_SIZE)], b);
      b := CT.Select(8, isBlockB, length[j - (BLOCK - LENGTH_SIZE)], b);
    }
  }

  /** The byte at offset `k` of header and data, or zero beyond them. */
  function RawByte(header: Bytes, data: Bytes, k: nat): nat {
    if k < |header| then header[k] else if k < |data| + |header| then data[k - |header|] else 0
  }

  /** Up to the block with the length, the picked bytes are those of the padded message. */
  lemma PickedIsPadded(header: Bytes, data: Bytes, msg: Bytes, p: Bytes, i: nat, j: nat)
    requires PaddedBytes(msg, p) && i <= IndexB(|msg|) && j < BLOCK
    requires |msg| <= |header| + |data| && forall x :: 0 <= x < |msg| ==> msg[x] == RawByte(header, data, x)
    ensures i * BLOCK + j < |p|
    ensures Picked(RawByte(header, data, i * BLOCK + j), i == IndexA(|msg|), i ==
                   IndexB(|msg|), j, |msg| % BLOCK, LengthBytes(|msg|)) == p[i * BLOCK + j]
  {
    hide RawByte, LengthBytes;
    var n, x := |msg|, i * BLOCK + j;
    var a, b, c := IndexA(n), IndexB(n), n % BLOCK;
    assert n == a * BLOCK + c;
    assert |p| == b * BLOCK + BLOCK;
    if i < a {
      assert x < n;
    } else if i == b {
      assert j >= BLOCK - 8 <==> x >= |p| - 8;
    }
  }

  // ---------------------------------------------------------------- the digest

  lemma RawIsMessage(header: Bytes, data: Bytes, dataPlusMac: nat)
    requires |header| == HEADER && MD_SIZE <= dataPlusMac <= |data|
    ensures var msg := Message(header, data, dataPlusMac);
            |msg| == dataPlusMac + HEADER - MD_SIZE && forall x :: 0 <= x < |msg| ==> msg[x] == RawByte(header, data, x)
  {
  }

  /** Build block `i` byte by byte. */
  method BuildBlock(header: Bytes, data: Bytes, i: nat, n: nat, block: array<nat>, ghost msg: Bytes, ghost p: Bytes)
    requires |header| == HEADER && IsBytes(header) && IsBytes(data) && block.Length == BLOCK && i < 0x10_0000
    requires n < 0x20_0000
    requires |msg| == n && PaddedBytes(msg, p) && |msg| <= |header| + |data|
    requires forall x :: 0 <= x < |msg| ==> msg[x] == RawByte(header, data, x)
    modifies block
    ensures i <= IndexB(n) ==> (i + 1) * BLOCK <= |p| && block[..] == p[i * BLOCK..(i + 1) * BLOCK]
  {
    hide Picked, PaddedBytes, CT.MaskIf, CT.Eq8, Pow2, LengthBytes, RawByte, IsBytes, Number, IndexA, IndexB;
    CT.SmallSizes();
    IndexSmall(n);
    CT.ByteMasks(i, IndexA(n));
    CT.ByteMasks(i, IndexB(n));
    var isBlockA := CT.Eq8(i, IndexA(n));
    var isBlockB := CT.Eq8(i, IndexB(n));
    var length := LengthBytes(n);
    PaddedSize(msg, p);
    var k := i * BLOCK;
    for j := 0 to BLOCK
      invariant k == i * BLOCK + j
      invariant i <= IndexB(n) ==> forall x :: 0 <= x < j ==> block[x] == p[i * BLOCK + x]
    {
      var raw := RawByte(header, data, k);
      RawIsByte(header, data, k);
      k := k + 1;
      block[j] := PickByte(raw, isBlockA, isBlockB, j, n % BLOCK, length, i == IndexA(n), i == IndexB(n));
      if i <= IndexB(n) {
        PickedIsPadded(header, data, msg, p, i, j);
      }
    }
  }

  lemma IndexSmall(n: nat)
    requires n < 0x20_0000
    ensures IndexA(n) < 0x10_0000 && IndexB(n) < 0x10_0000
  {
  }

  lemma PaddedSize(msg: Bytes, p: Bytes)
    requires PaddedBytes(msg, p)
    ensures |p| == BLOCK * (IndexB(|msg|) + 1)
  {
  }

  lemma RawIsByte(header: Bytes, data: Bytes, k: nat)
    requires IsBytes(header) && IsBytes(data)
    ensures RawByte(header, data, k) < 256
  {
  }

  /** Hash the blocks that the padding cannot reach. */
  method StartBlocks<S>(f: (S, Bytes) -> S, s0: S, header: Bytes, data: Bytes, count: nat, ghost p: Bytes)
    returns (state: S)
    requires |header| == HEADER && count * BLOCK <= HEADER + |data| && count * BLOCK <= |p|
    requires forall x :: 0 <= x < count * BLOCK ==> p[x] == RawByte(header, data, x)
    ensures state == Fold(f, s0, p[..count * BLOCK])
  {
    hide Fold;
    state := s0;
    if count > 0 {
      var firstBlock := header + data[..BLOCK - HEADER];
      assert p[..BLOCK] == firstBlock;
      FoldOne(f, s0, p[..BLOCK]);
      state := f(state, firstBlock);
      for i := 1 to count
        invariant state == Fold(f, s0, p[..i * BLOCK])
      {
        var block := data[BLOCK * i - HEADER..BLOCK * (i + 1) - HEADER];
        assert p[i * BLOCK..(i + 1) * BLOCK] == block;
        NextBlock(f, s0, p, i);
        state := f(state, block);
      }
    } else {
      FoldNone(f, s0, p);
    }
  }

  lemma FoldNone<S>(f: (S, Bytes) -> S, s0: S, p: Bytes)
    ensures Fold(f, s0, p[..0]) == s0
  {
  }

  lemma NextBlock<S>(f: (S, Bytes) -> S, s0: S, p: Bytes, i: nat)
    requires (i + 1) * BLOCK <= |p|
    ensures Fold(f, s0, p[..(i + 1) * BLOCK]) == f(Fold(f, s0, p[..i * BLOCK]), p[i * BLOCK..(i + 1) * BLOCK])
  {
    hide Fold;
    assert p[..(i + 1) * BLOCK] == p[..i * BLOCK] + p[i * BLOCK..(i + 1) * BLOCK];
    FoldAppend(f, s0, p[..i * BLOCK], p[i * BLOCK..(i + 1) * BLOCK]);
    FoldOne(f, Fold(f, s0, p[..i * BLOCK]), p[i * BLOCK..(i + 1) * BLOCK]);
  }

  /** Add the hash to the output if the mask is all ones. */
  method Collect(macOut: array<nat>, raw: Bytes, isBlockB: nat, ghost isB: bool)
    requires macOut.Length == MD_SIZE && |raw| == MD_SIZE && IsBytes(raw) && isBlockB == CT.MaskIf(8, isB)
    requires IsBytes(macOut[..])
    requires isB ==> forall j :: 0 <= j < MD_SIZE ==> macOut[j] == 0
    modifies macOut
    ensures macOut[..] == if isB then raw else old(macOut[..])
  {
    hide CT.And, CT.Or, Pow2, CT.MaskIf;
    CT.SmallSizes();
    ghost var was := macOut[..];
    for j := 0 to MD_SIZE
      invariant forall x :: 0 <= x < j ==> macOut[x] == if isB then raw[x] else was[x]
      invariant forall x :: j <= x < MD_SIZE ==> macOut[x] == was[x]
    {
      assert was[j] < 256;
      Clear(raw[j], isB);
      CT.MaskedWord(8, raw[j]);
      CT.MaskedWord(8, was[j]);
      macOut[j] := CT.Or(8, macOut[j], CT.And(8, raw[j], isBlockB));
    }
  }

  /** Every state has a digest of the right size. */
  ghost predicate GivesDigests<S(!new)>(finalRaw: S -> Bytes) {
    forall s :: |finalRaw(s)| == MD_SIZE && IsBytes(finalRaw(s))
  }

  lemma DigestOf<S(!new)>(finalRaw: S -> Bytes, s: S)
    requires GivesDigests(finalRaw)
    ensures |finalRaw(s)| == MD_SIZE && IsBytes(finalRaw(s))
  {
  }

  /** Hash the key block. */
  method HashKey<S>(f: (S, Bytes) -> S, start: S, secret: Bytes) returns (s0: S)
    requires |secret| <= MAX_KEY
    ensures s0 == f(start, InnerPad(secret))
  {
    var pad := PadKey(secret);
    PadIs(secret, pad[..BLOCK]);
    s0 := f(start, pad[..BLOCK]);
  }

  /** The inner hash of a record's MAC. */
  method DigestRecord<S(!new)>(f: (S, Bytes) -> S, finalRaw: S -> Bytes, start: S, header: Bytes, data: Bytes,
                               dataPlusMac: nat, secret: Bytes)
    returns (macOut: array<nat>)
    requires |header| == HEADER && IsBytes(header) && IsBytes(data) && |data| < 0x10_0000 && |secret| <= MAX_KEY
    requires MD_SIZE <= dataPlusMac <= |data| <= dataPlusMac + 256
    requires GivesDigests(finalRaw)
    ensures fresh(macOut) && macOut[..] == finalRaw(InnerHash(f, start, secret, Message(header, data, dataPlusMac)))
  {
    hide Fold, PaddedBytes, Padded, InnerHash, InnerPad, CT.MaskIf, CT.Eq8, Pow2, Message, Number;
    ghost var msg := Message(header, data, dataPlusMac);
    var n := dataPlusMac + HEADER - MD_SIZE;
    RawIsMessage(header, data, dataPlusMac);
    ghost var p := Padded(msg);
    PaddedIs(msg);
    PaddedSize(msg, p);
    InVariance(|data|, dataPlusMac);
    var first := StartingBlocks(|data|);
    var s0 := HashKey(f, start, secret);
    PaddedPrefix(header, data, msg, p, first * BLOCK);
    var state := StartBlocks(f, s0, header, data, first, p);
    macOut := new nat[MD_SIZE](_ => 0);
    ghost var zeros := macOut[..];
    var block := new nat[BLOCK];
    var i := first;
    while i <= first + VARIANCE_BLOCKS
      invariant first <= i <= first + VARIANCE_BLOCKS + 1 && first <= 0x4010
      invariant i <= IndexB(n) + 1 ==> state == Fold(f, s0, p[..i * BLOCK])
      invariant macOut[..] == if i <= IndexB(n) then zeros else finalRaw(Fold(f, s0, p))
      decreases first + VARIANCE_BLOCKS + 1 - i
    {
      BuildBlock(header, data, i, n, block, msg, p);
      if i <= IndexB(n) {
        NextBlock(f, s0, p, i);
      }
      state := f(state, block[..]);
      CT.SmallSizes();
      CT.ByteMasks(i, IndexB(n));
      assert i == IndexB(n) ==> p[..(i + 1) * BLOCK] == p;
      DigestOf(finalRaw, state);
      DigestOf(finalRaw, Fold(f, s0, p));
      Collect(macOut, finalRaw(state), CT.Eq8(i, IndexB(n)), i == IndexB(n));
      i := i + 1;
    }
    InnerHashIs(f, start, secret, msg);
  }

  lemma PaddedPrefix(header: Bytes, data: Bytes, msg: Bytes, p: Bytes, k: nat)
    requires PaddedBytes(msg, p) && k <= |msg| && forall x :: 0 <= x < |msg| ==> msg[x] == RawByte(header, data, x)
    ensures k <= |p| && forall x :: 0 <= x < k ==> p[x] == RawByte(header, data, x)
  {
    hide RawByte;
  }
}
