/** Bytes, bitwise operations, and flattening a sequence of pieces. */
module Bytes {

  type byte = x: int | 0 <= x < 256

  datatype BitOp = XOR | AND | OR

  type bit = b: int | 0 <= b < 2

  function OnBits(op: BitOp, p: bit, q: bit): bit {
    match op
    case XOR => if p == q then 0 else 1
    case AND => if p == 1 then q else 0
    case OR => if p == 1 then 1 else q
  }

  /** The operation on the low `n` bits of `a` and `b`, bit by bit. */
  function Bits(op: BitOp, n: nat, a: nat, b: nat): nat {
    if n == 0 then 0 else OnBits(op, a % 2, b % 2) + 2 * Bits(op, n - 1, a / 2, b / 2)
  }

  function Pow2(n: nat): nat {
    if n == 0 then 1 else 2 * Pow2(n - 1)
  }

  lemma {:induction false} Pow2Sum(a: nat, b: nat)
    ensures Pow2(a + b) == Pow2(a) * Pow2(b)
  {
    if a > 0 {
      Pow2Sum(a - 1, b);
    }
  }

  lemma Pow2At32()
    ensures Pow2(32) == 0x1_0000_0000
  {
    assert Pow2(8) == 256;
    Pow2Sum(8, 8);
    Pow2Sum(16, 16);
  }

  lemma {:induction false} BitsBound(op: BitOp, n: nat, a: nat, b: nat)
    ensures Bits(op, n, a, b) < Pow2(n)
  {
    if n > 0 {
      BitsBound(op, n - 1, a / 2, b / 2);
    }
  }

  lemma BitsSplit(op: BitOp, n: nat, a: nat, b: nat)
    requires n > 0
    ensures Bits(op, n, a, b) % 2 == OnBits(op, a % 2, b % 2)
    ensures Bits(op, n, a, b) / 2 == Bits(op, n - 1, a / 2, b / 2)
  {
  }

  lemma {:induction false} XorBitsTwice(n: nat, a: nat, k: nat)
    requires a < Pow2(n)
    ensures Bits(XOR, n, Bits(XOR, n, a, k), k) == a
  {
    if n > 0 {
      BitsSplit(XOR, n, a, k);
      XorBitsTwice(n - 1, a / 2, k / 2);
    }
  }

  function Xor(a: byte, b: byte): byte {
    BitsBound(XOR, 8, a, b);
    assert Pow2(8) == 256;
    Bits(XOR, 8, a, b)
  }

  lemma XorTwice(a: byte, k: byte)
    ensures Xor(Xor(a, k), k) == a
  {
    assert Pow2(8) == 256;
    XorBitsTwice(8, a, k);
  }

  function Flatten<T>(parts: seq<seq<T>>): seq<T> {
    if parts == [] then [] else parts[0] + Flatten(parts[1..])
  }

  lemma {:induction false} FlattenAppend<T>(a: seq<seq<T>>, b: seq<seq<T>>)
    ensures Flatten(a + b) == Flatten(a) + Flatten(b)
  {
    if a == [] {
      assert a + b == b;
    } else {
      assert (a + b)[1..] == a[1..] + b;
      FlattenAppend(a[1..], b);
    }
  }

  lemma FlattenPush<T>(a: seq<seq<T>>, x: seq<T>)
    ensures Flatten(a + [x]) == Flatten(a) + x
  {
    FlattenAppend(a, [x]);
    assert Flatten([x]) == x + Flatten<T>([]);
  }

  lemma FlattenFrom<T>(a: seq<seq<T>>, i: nat)
    requires i < |a|
    ensures Flatten(a[i..]) == a[i] + Flatten(a[i + 1..])
  {
    assert a[i..][1..] == a[i + 1..];
  }

  lemma FlattenNone<T>(a: seq<seq<T>>)
    requires a == []
    ensures Flatten(a) == []
  {
  }

  method TotalSize<T>(data: seq<seq<T>>) returns (size: nat)
    ensures size == |Flatten(data)|
  {
    size := 0;
    for i := 0 to |data|
      invariant size + |Flatten(data[i..])| == |Flatten(data)|
    {
      size := size + |data[i]|;
      assert data[i..][1..] == data[i + 1..];
    }
  }
}
