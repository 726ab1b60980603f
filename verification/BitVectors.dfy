/** Bit vectors of eight bits, and the operations on integers that they agree with. */
module BitVectors {
  import opened Bytes

  function Int(p: bv8): byte {
    p as int
  }

  function On8(op: BitOp, a: bv8, b: bv8): bv8 {
    match op
    case XOR => a ^ b
    case AND => a & b
    case OR => a | b
  }

  function Last(p: bv8): bv8 {
    p & 1
  }

  function Rest(p: bv8): bv8 {
    p >> 1
  }

  lemma Halved(p: bv8)
    ensures Int(p) == 2 * Int(Rest(p)) + Int(Last(p)) && Int(Last(p)) < 2
  {
  }

  lemma RestXor(a: bv8, b: bv8)
    ensures Rest(a ^ b) == Rest(a) ^ Rest(b)
  {
  }

  lemma RestAnd(a: bv8, b: bv8)
    ensures Rest(a & b) == Rest(a) & Rest(b)
  {
  }

  lemma RestOr(a: bv8, b: bv8)
    ensures Rest(a | b) == Rest(a) | Rest(b)
  {
  }

  lemma RestOn(op: BitOp, a: bv8, b: bv8)
    ensures Rest(On8(op, a, b)) == On8(op, Rest(a), Rest(b))
  {
    hide Rest;
    RestXor(a, b);
    RestAnd(a, b);
    RestOr(a, b);
  }

  lemma LastOn(op: BitOp, a: bv8, b: bv8)
    ensures Int(Last(a)) < 2 && Int(Last(b)) < 2
    ensures OnBits(op, Int(Last(a)), Int(Last(b))) == Int(Last(On8(op, a, b)))
  {
  }

  lemma NoBits(op: BitOp, a: bv8, b: bv8)
    requires Int(a) < Pow2(0) && Int(b) < Pow2(0)
    ensures Bits(op, 0, Int(a), Int(b)) == Int(On8(op, a, b))
  {
    assert a == 0 && b == 0;
  }

  /** Bit by bit on integers is what the machine does on vectors. */
  lemma {:induction false} BitsAreVectors(op: BitOp, n: nat, a: bv8, b: bv8)
    requires n <= 8 && Int(a) < Pow2(n) && Int(b) < Pow2(n)
    ensures Bits(op, n, Int(a), Int(b)) == Int(On8(op, a, b))
    decreases n
  {
    hide Int, On8, OnBits, Last, Rest, Bits, Pow2;
    if n == 0 {
      NoBits(op, a, b);
    } else {
      Halved(a);
      Halved(b);
      Halved(On8(op, a, b));
      RestOn(op, a, b);
      LastOn(op, a, b);
      OneMore(op, n, Int(Rest(a)), Int(Last(a)), Int(Rest(b)), Int(Last(b)));
      BitsAreVectors(op, n - 1, Rest(a), Rest(b));
    }
  }

  lemma OneMore(op: BitOp, n: nat, x: nat, p: bit, y: nat, q: bit)
    requires n > 0 && 2 * x + p < Pow2(n) && 2 * y + q < Pow2(n)
    ensures Bits(op, n, 2 * x + p, 2 * y + q) == OnBits(op, p, q) + 2 * Bits(op, n - 1, x, y)
    ensures x < Pow2(n - 1) && y < Pow2(n - 1)
  {
    hide OnBits;
    assert (2 * x + p) % 2 == p && (2 * x + p) / 2 == x;
    assert (2 * y + q) % 2 == q && (2 * y + q) / 2 == y;
  }

  lemma AndByte(a: bv8, b: bv8)
    ensures Bits(AND, 8, Int(a), Int(b)) == Int(a & b)
  {
    hide Bits, Pow2;
    Pow2At8();
    BitsAreVectors(AND, 8, a, b);
  }

  lemma XorByte(a: bv8, b: bv8)
    ensures Bits(XOR, 8, Int(a), Int(b)) == Int(a ^ b)
  {
    hide Bits, Pow2;
    Pow2At8();
    BitsAreVectors(XOR, 8, a, b);
  }

  lemma NotByte(p: bv8)
    ensures Int(!p) == 255 - Int(p)
  {
  }

  lemma VectorOf(x: byte)
    ensures Int(x as bv8) == x
  {
  }

  /** The exclusive or of two bytes is the machine's. */
  lemma XorIsVectors(a: byte, b: byte)
    ensures Xor(a, b) == ((a as bv8) ^ (b as bv8)) as int
  {
    VectorOf(a);
    VectorOf(b);
    XorByte(a as bv8, b as bv8);
    hide Bits;
  }

  lemma Pow2At8()
    ensures Pow2(8) == 256
  {
  }

  // Numbers in two parts

  /** The number whose last `k` bits are `l` and whose other bits are `h`. */
  function Joined(k: nat, h: nat, l: nat): nat {
    if k == 0 then h else 2 * Joined(k - 1, h, l / 2) + l % 2
  }

  lemma {:induction false} JoinedIs(k: nat, h: nat, l: nat)
    requires l < Pow2(k)
    ensures Joined(k, h, l) == h * Pow2(k) + l
  {
    if k > 0 {
      var p := Pow2(k - 1);
      assert Pow2(k) == 2 * p && Joined(k, h, l) == 2 * Joined(k - 1, h, l / 2) + l % 2;
      hide Pow2, Joined;
      JoinedIs(k - 1, h, l / 2);
      Doubled(h, p);
    }
  }

  lemma Doubled(h: nat, p: nat)
    ensures h * (2 * p) == 2 * (h * p)
  {
  }

  lemma {:induction false} JoinedBits(op: BitOp, n: nat, k: nat, h: nat, l: nat, h': nat, l': nat)
    ensures Bits(op, n + k, Joined(k, h, l), Joined(k, h', l')) == Joined(k, Bits(op, n, h, h'), Bits(op, k, l, l'))
    decreases k
  {
    if k > 0 {
      BitsSplit(op, k, l, l');
      JoinedBits(op, n, k - 1, h, l / 2, h', l' / 2);
    }
  }

  lemma JoinedBytes(op: BitOp, h: byte, l: byte, h': byte, l': byte)
    ensures Bits(op, 16, 256 * h + l, 256 * h' + l') == 256 * Bits(op, 8, h, h') + Bits(op, 8, l, l')
  {
    hide Bits, Pow2, Joined;
    Pow2At8();
    BitsBound(op, 8, l, l');
    JoinedBits(op, 8, 8, h, l, h', l');
    JoinedIs(8, h, l);
    JoinedIs(8, h', l');
    JoinedIs(8, Bits(op, 8, h, h'), Bits(op, 8, l, l'));
  }

  lemma JoinedHalves(op: BitOp, h: nat, l: nat, h': nat, l': nat)
    requires l < 0x1_0000 && l' < 0x1_0000
    ensures Bits(op, 32, 0x1_0000 * h + l, 0x1_0000 * h' + l') == 0x1_0000 * Bits(op, 16, h, h') + Bits(op, 16, l, l')
  {
    hide Bits, Pow2, Joined;
    Pow2At8();
    Pow2Sum(8, 8);
    BitsBound(op, 16, l, l');
    JoinedBits(op, 16, 16, h, l, h', l');
    JoinedIs(16, h, l);
    JoinedIs(16, h', l');
    JoinedIs(16, Bits(op, 16, h, h'), Bits(op, 16, l, l'));
  }
}
