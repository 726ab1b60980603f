/** The hash function of FIPS 180-4, sections 4.1.1, 4.2.1, 5.1.1, 5.2.1, 5.3.1 and 6.1.2. */
module Sha1Spec {
  import opened Bytes
  import opened Endian

  const WORDS: nat := 0x1_0000_0000

  type Word = x: int | 0 <= x < WORDS

  function On32(op: BitOp, x: Word, y: Word): Word {
    BitsBound(op, 32, x, y);
    Pow2At32();
    Bits(op, 32, x, y)
  }

  function Xor32(x: Word, y: Word): Word {
    On32(XOR, x, y)
  }

  function And32(x: Word, y: Word): Word {
    On32(AND, x, y)
  }

  function Or32(x: Word, y: Word): Word {
    On32(OR, x, y)
  }

  function Not32(x: Word): Word {
    WORDS - 1 - x
  }

  function Add(x: nat): Word {
    x % WORDS
  }

  // Rotations, as sums: the two shifted parts have no bit in common (`RotationsAreShifts`).

  function Rol1(x: Word): Word {
    2 * x % WORDS + x / 0x8000_0000
  }

  function Rol5(x: Word): Word {
    32 * x % WORDS + x / 0x800_0000
  }

  function Rol30(x: Word): Word {
    0x4000_0000 * x % WORDS + x / 4
  }

  /** Bits shifted left past the bits of a smaller number are joined to it by adding. */
  lemma {:induction false} JoinedBits(n: nat, k: nat, high: nat, low: nat)
    requires k <= n && low < Pow2(k) && high * Pow2(k) + low < Pow2(n)
    ensures Bits(OR, n, high * Pow2(k), low) == high * Pow2(k) + low
  {
    var a := high * Pow2(k);
    if k > 0 {
      Halved(high, Pow2(k - 1));
      JoinedBits(n - 1, k - 1, high, low / 2);
    } else if n > 0 {
      JoinedBits(n - 1, 0, high / 2, 0);
    }
  }

  lemma Halved(x: nat, y: nat)
    ensures x * (2 * y) % 2 == 0 && x * (2 * y) / 2 == x * y
  {
    assert x * (2 * y) == 2 * (x * y);
  }

  /** `k` bits to the left: the low bits of the word move up and its top `k` bits come in below. */
  lemma ShiftedUnion(x: Word, k: nat, p: nat, q: nat)
    requires k <= 32 && p == Pow2(k) && q > 0 && p * q == WORDS
    ensures Bits(OR, 32, p * x % WORDS, x / q) == p * x % WORDS + x / q
  {
    Pow2At32();
    Rotated(x, p, q);
    JoinedBits(32, k, x % q, x / q);
  }

  lemma Rotated(x: Word, p: nat, q: nat)
    requires p > 0 && q > 0 && p * q == WORDS
    ensures p * x % WORDS == (x % q) * p && x / q < p <= WORDS && (x % q) * p + x / q < WORDS
  {
    var high, low := x % q, x / q;
    assert x == q * low + high;
    assert p * x == (p * q) * low + high * p;
    Smaller(low, p, q);
    assert high * p <= (q - 1) * p;
    assert (q - 1) * p == WORDS - p;
    assert p <= p * q;
    SmallRest(low, high * p);
  }

  lemma Smaller(a: nat, b: nat, q: nat)
    requires q * a < q * b
    ensures a < b
  {
  }

  lemma SmallRest(low: nat, rest: nat)
    requires rest < WORDS
    ensures (WORDS * low + rest) % WORDS == rest
  {
  }

  /** The rotations are what the two shifts give when their bits are united. */
  lemma RotationsAreShifts(x: Word)
    ensures Rol1(x) == Or32(2 * x % WORDS, x / 0x8000_0000)
    ensures Rol5(x) == Or32(32 * x % WORDS, x / 0x800_0000)
    ensures Rol30(x) == Or32(0x4000_0000 * x % WORDS, x / 4)
  {
    Powers();
    hide Bits, Pow2;
    ShiftedUnion(x, 1, 2, 0x8000_0000);
    ShiftedUnion(x, 5, 32, 0x800_0000);
    ShiftedUnion(x, 30, 0x4000_0000, 4);
  }

  lemma Powers()
    ensures Pow2(1) == 2 && Pow2(5) == 32 && Pow2(30) == 0x4000_0000
  {
    assert Pow2(8) == 256;
    Pow2Sum(8, 8);
    Pow2Sum(16, 8);
    Pow2Sum(24, 6);
    assert Pow2(6) == 64;
  }

  function Ch(x: Word, y: Word, z: Word): Word {
    Xor32(And32(x, y), And32(Not32(x), z))
  }

  function Parity(x: Word, y: Word, z: Word): Word {
    Xor32(Xor32(x, y), z)
  }

  function Maj(x: Word, y: Word, z: Word): Word {
    Xor32(Xor32(And32(x, y), And32(x, z)), And32(y, z))
  }

  function F(t: nat, x: Word, y: Word, z: Word): Word {
    if t < 20 then Ch(x, y, z) else if 40 <= t < 60 then Maj(x, y, z) else Parity(x, y, z)
  }

  function K(t: nat): Word {
    if t < 20 then 0x5a827999 else if t < 40 then 0x6ed9eba1 else if t < 60 then 0x8f1bbcdc else 0xca62c1d6
  }

  /** The message schedule: word `t` of the 80. */
  function W(m: seq<Word>, t: nat): Word
    requires |m| == 16
  {
    if t < 16 then m[t]
    else Rol1(Xor32(Xor32(Xor32(W(m, t - 3), W(m, t - 8)), W(m, t - 14)), W(m, t - 16)))
  }

  datatype Regs = Regs(a: Word, b: Word, c: Word, d: Word, e: Word)

  function Round(t: nat, r: Regs, w: Word): Regs {
    Regs(Add(Rol5(r.a) + F(t, r.b, r.c, r.d) + r.e + K(t) + w), r.a, Rol30(r.b), r.c, r.d)
  }

  /** The working variables after the first `t` rounds. */
  function Rounds(m: seq<Word>, h: Regs, t: nat): Regs
    requires |m| == 16
  {
    if t == 0 then h else Round(t - 1, Rounds(m, h, t - 1), W(m, t - 1))
  }

  function AddRegs(h: Regs, r: Regs): Regs {
    Regs(Add(h.a + r.a), Add(h.b + r.b), Add(h.c + r.c), Add(h.d + r.d), Add(h.e + r.e))
  }

  function Compress(h: Regs, m: seq<Word>): Regs
    requires |m| == 16
  {
    AddRegs(h, Rounds(m, h, 80))
  }

  const BLOCK_BYTES: nat := 64
  const LENGTHS: nat := 0x1_0000_0000_0000_0000

  const INITIAL: Regs := Regs(0x67452301, 0xefcdab89, 0x98badcfe, 0x10325476, 0xc3d2e1f0)

  function WordAt(data: seq<byte>, i: nat): Word
    requires 4 * i + 4 <= |data|
  {
    FourBound(data[4 * i..4 * i + 4]);
    BigEndian(data[4 * i..4 * i + 4])
  }

  function BlockOf(data: seq<byte>): (m: seq<Word>)
    requires |data| == BLOCK_BYTES
    ensures |m| == 16
  {
    seq(16, i requires 0 <= i < 16 => WordAt(data, i))
  }

  /** The hash value after all the blocks of `data`. */
  function HashBlocks(data: seq<byte>): Regs {
    var n := |data| - BLOCK_BYTES;
    if n < 0 then INITIAL else Compress(HashBlocks(data[..n]), BlockOf(data[n..]))
  }

  function Zeros(n: nat): seq<byte> {
    seq(n, _ => 0)
  }

  /** How many zero bytes follow the byte 0x80. */
  function ZeroCount(len: nat): nat {
    (119 - len % BLOCK_BYTES) % BLOCK_BYTES
  }

  /** Padding for a message of `len` bytes; the standard defines it for fewer than 2^64 bits. */
  function Padding(len: nat): seq<byte> {
    [0x80] + Zeros(ZeroCount(len)) + ToBigEndian(8 * len % LENGTHS, 8)
  }

  function Sha1(msg: seq<byte>): Regs {
    HashBlocks(msg + Padding(|msg|))
  }

  function WordBytes(ws: seq<Word>): seq<byte> {
    if ws == [] then [] else WordBytes(ws[..|ws| - 1]) + ToBigEndian(ws[|ws| - 1], 4)
  }

  function DigestBytes(r: Regs): seq<byte> {
    WordBytes([r.a, r.b, r.c, r.d, r.e])
  }

  function PaddedLength(len: nat, zeros: nat): nat {
    len + 1 + zeros + 8
  }

  /** The padded message is a whole number of blocks, and no shorter run of zeros would make it so. */
  lemma PaddingFills(len: nat)
    ensures len + |Padding(len)| == PaddedLength(len, ZeroCount(len))
    ensures PaddedLength(len, ZeroCount(len)) % BLOCK_BYTES == 0
    ensures forall k :: 0 <= k < ZeroCount(len) ==> PaddedLength(len, k) % BLOCK_BYTES != 0
  {
    var q, r := len / BLOCK_BYTES, len % BLOCK_BYTES;
    assert len == BLOCK_BYTES * q + r;
    assert ZeroCount(len) == if r < 56 then 55 - r else 119 - r;
    forall k | 0 <= k <= ZeroCount(len)
      ensures PaddedLength(len, k) % BLOCK_BYTES == 0 <==> k == ZeroCount(len)
    {
      Remainder(q, r + 9 + k);
    }
  }

  lemma Remainder(q: nat, r: nat)
    requires r <= 2 * BLOCK_BYTES
    ensures (BLOCK_BYTES * q + r) % BLOCK_BYTES == if r < 64 then r else if r < 128 then r - 64 else 0
  {
  }

  lemma FourBound(s: seq<byte>)
    requires |s| == 4
    ensures BigEndian(s) < WORDS
  {
    BigEndianBound(s);
    assert Pow256(3) == 0x100_0000;
  }
}
