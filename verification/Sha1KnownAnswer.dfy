/**
 * The hash of "abc" worked out round by round.  The words are 32-bit vectors here, on which the
 * bitwise operations are the machine's own; their values follow the integer model step by step.
 */
module Sha1KnownAnswer {
  import opened Bytes
  import opened Endian
  import opened Sha1Spec
  import opened Sha1Stream
  import opened BitVectors

  // A word as a bit vector

  function Top(p: bv32): bv8 {
    ((p >> 24) & 0xff) as bv8
  }

  function High(p: bv32): bv8 {
    ((p >> 16) & 0xff) as bv8
  }

  function Low(p: bv32): bv8 {
    ((p >> 8) & 0xff) as bv8
  }

  function Bottom(p: bv32): bv8 {
    (p & 0xff) as bv8
  }

  function Upper(p: bv32): nat {
    256 * Int(Top(p)) + Int(High(p))
  }

  function Lower(p: bv32): nat {
    256 * Int(Low(p)) + Int(Bottom(p))
  }

  /** The number a vector stands for. */
  function Val(p: bv32): Word {
    0x1_0000 * Upper(p) + Lower(p)
  }

  function And(p: bv32, q: bv32): bv32 {
    p & q
  }

  function Xor(p: bv32, q: bv32): bv32 {
    p ^ q
  }

  function Not(p: bv32): bv32 {
    !p
  }

  lemma AndTop(p: bv32, q: bv32)
    ensures Top(And(p, q)) == Top(p) & Top(q)
  {
  }

  lemma AndHigh(p: bv32, q: bv32)
    ensures High(And(p, q)) == High(p) & High(q)
  {
  }

  lemma AndLow(p: bv32, q: bv32)
    ensures Low(And(p, q)) == Low(p) & Low(q)
  {
  }

  lemma AndBottom(p: bv32, q: bv32)
    ensures Bottom(And(p, q)) == Bottom(p) & Bottom(q)
  {
  }

  lemma XorTop(p: bv32, q: bv32)
    ensures Top(Xor(p, q)) == Top(p) ^ Top(q)
  {
  }

  lemma XorHigh(p: bv32, q: bv32)
    ensures High(Xor(p, q)) == High(p) ^ High(q)
  {
  }

  lemma XorLow(p: bv32, q: bv32)
    ensures Low(Xor(p, q)) == Low(p) ^ Low(q)
  {
  }

  lemma XorBottom(p: bv32, q: bv32)
    ensures Bottom(Xor(p, q)) == Bottom(p) ^ Bottom(q)
  {
  }

  lemma NotTop(p: bv32)
    ensures Top(Not(p)) == !Top(p)
  {
  }

  lemma NotHigh(p: bv32)
    ensures High(Not(p)) == !High(p)
  {
  }

  lemma NotLow(p: bv32)
    ensures Low(Not(p)) == !Low(p)
  {
  }

  lemma NotBottom(p: bv32)
    ensures Bottom(Not(p)) == !Bottom(p)
  {
  }

  lemma AndUpper(p: bv32, q: bv32)
    ensures Bits(AND, 16, Upper(p), Upper(q)) == Upper(And(p, q))
  {
    hide Bits, Int, Top, High, And;
    AndTop(p, q);
    AndHigh(p, q);
    AndByte(Top(p), Top(q));
    AndByte(High(p), High(q));
    JoinedBytes(AND, Int(Top(p)), Int(High(p)), Int(Top(q)), Int(High(q)));
  }

  lemma AndLower(p: bv32, q: bv32)
    ensures Bits(AND, 16, Lower(p), Lower(q)) == Lower(And(p, q))
  {
    hide Bits, Int, Low, Bottom, And;
    AndLow(p, q);
    AndBottom(p, q);
    AndByte(Low(p), Low(q));
    AndByte(Bottom(p), Bottom(q));
    JoinedBytes(AND, Int(Low(p)), Int(Bottom(p)), Int(Low(q)), Int(Bottom(q)));
  }

  lemma AndVal(p: bv32, q: bv32)
    ensures And32(Val(p), Val(q)) == Val(And(p, q))
  {
    Halves(p);
    Halves(q);
    hide Bits, Upper, Lower, And;
    AndUpper(p, q);
    AndLower(p, q);
    JoinedHalves(AND, Upper(p), Lower(p), Upper(q), Lower(q));
  }

  lemma XorUpper(p: bv32, q: bv32)
    ensures Bits(XOR, 16, Upper(p), Upper(q)) == Upper(Xor(p, q))
  {
    hide Bits, Int, Top, High, Xor;
    XorTop(p, q);
    XorHigh(p, q);
    XorByte(Top(p), Top(q));
    XorByte(High(p), High(q));
    JoinedBytes(XOR, Int(Top(p)), Int(High(p)), Int(Top(q)), Int(High(q)));
  }

  lemma XorLower(p: bv32, q: bv32)
    ensures Bits(XOR, 16, Lower(p), Lower(q)) == Lower(Xor(p, q))
  {
    hide Bits, Int, Low, Bottom, Xor;
    XorLow(p, q);
    XorBottom(p, q);
    XorByte(Low(p), Low(q));
    XorByte(Bottom(p), Bottom(q));
    JoinedBytes(XOR, Int(Low(p)), Int(Bottom(p)), Int(Low(q)), Int(Bottom(q)));
  }

  lemma XorVal(p: bv32, q: bv32)
    ensures Xor32(Val(p), Val(q)) == Val(Xor(p, q))
  {
    Halves(p);
    Halves(q);
    hide Bits, Upper, Lower, Xor;
    XorUpper(p, q);
    XorLower(p, q);
    JoinedHalves(XOR, Upper(p), Lower(p), Upper(q), Lower(q));
  }

  lemma Halves(p: bv32)
    ensures Upper(p) < 0x1_0000 && Lower(p) < 0x1_0000
  {
  }

  lemma NotVal(p: bv32)
    ensures Not32(Val(p)) == Val(Not(p))
  {
    hide Int, Top, High, Low, Bottom, Not;
    NotTop(p);
    NotHigh(p);
    NotLow(p);
    NotBottom(p);
    NotByte(Top(p));
    NotByte(High(p));
    NotByte(Low(p));
    NotByte(Bottom(p));
  }

  // The round function

  function FOn(t: nat, x: bv32, y: bv32, z: bv32): bv32 {
    if t < 20 then Xor(And(x, y), And(Not(x), z))
    else if 40 <= t < 60 then Xor(Xor(And(x, y), And(x, z)), And(y, z))
    else Xor(Xor(x, y), z)
  }

  lemma ChVal(x: bv32, y: bv32, z: bv32)
    ensures Ch(Val(x), Val(y), Val(z)) == Val(Xor(And(x, y), And(Not(x), z)))
  {
    hide Val, And32, Xor32, Not32, And, Xor, Not;
    NotVal(x);
    AndVal(x, y);
    AndVal(Not(x), z);
    XorVal(And(x, y), And(Not(x), z));
  }

  lemma MajVal(x: bv32, y: bv32, z: bv32)
    ensures Maj(Val(x), Val(y), Val(z)) == Val(Xor(Xor(And(x, y), And(x, z)), And(y, z)))
  {
    hide Val, And32, Xor32, And, Xor;
    AndVal(x, y);
    AndVal(x, z);
    AndVal(y, z);
    XorVal(And(x, y), And(x, z));
    XorVal(Xor(And(x, y), And(x, z)), And(y, z));
  }

  lemma ParityVal(x: bv32, y: bv32, z: bv32)
    ensures Parity(Val(x), Val(y), Val(z)) == Val(Xor(Xor(x, y), z))
  {
    hide Val, Xor32, Xor;
    XorVal(x, y);
    XorVal(Xor(x, y), z);
  }

  lemma FVal(t: nat, x: bv32, y: bv32, z: bv32)
    ensures F(t, Val(x), Val(y), Val(z)) == Val(FOn(t, x, y, z))
  {
    hide Val, Ch, Maj, Parity, And, Xor, Not;
    ChVal(x, y, z);
    MajVal(x, y, z);
    ParityVal(x, y, z);
  }

  // Rotations and sums, with the part that is carried around given

  lemma Rolled1(x: Word, q: nat)
    requires 0x8000_0000 * q <= x < 0x8000_0000 * (q + 1)
    ensures Rol1(x) == 2 * (x - 0x8000_0000 * q) + q
  {
  }

  lemma Rolled5(x: Word, q: nat)
    requires 0x800_0000 * q <= x < 0x800_0000 * (q + 1)
    ensures Rol5(x) == 32 * (x - 0x800_0000 * q) + q
  {
    assert 32 * x == WORDS * q + 32 * (x - 0x800_0000 * q);
  }

  lemma Rolled30(x: Word, q: nat)
    requires 4 * q <= x < 4 * (q + 1)
    ensures Rol30(x) == 0x4000_0000 * (x - 4 * q) + q
  {
    assert 0x4000_0000 * x == WORDS * q + 0x4000_0000 * (x - 4 * q);
  }

  lemma Carried(x: nat, k: nat)
    requires WORDS * k <= x < WORDS * (k + 1)
    ensures Add(x) == x - WORDS * k
  {
  }

  // The words of the message schedule

  /** The one block of the padded message. */
  predicate IsAbc(m: seq<Word>) {
    |m| == 16 && m[0] == 0x61626380 && m[15] == 24 && forall i :: 0 < i < 15 ==> m[i] == 0
  }

  /** Word `t` of the schedule from the four before it that it is made of; `q` is the bit rotated around. */
  lemma NextWord(m: seq<Word>, t: nat, p: bv32, p8: bv32, p14: bv32, p16: bv32, x: bv32, q: nat)
    requires |m| == 16 && 16 <= t && W(m, t - 3) == Val(p) && W(m, t - 8) == Val(p8)
    requires W(m, t - 14) == Val(p14) && W(m, t - 16) == Val(p16)
    requires x == Xor(Xor(Xor(p, p8), p14), p16) && 0x8000_0000 * q <= Val(x) < 0x8000_0000 * (q + 1)
    ensures W(m, t) == 2 * (Val(x) - 0x8000_0000 * q) + q
  {
    hide Val, Xor, Xor32, Rol1;
    XorVal(p, p8);
    XorVal(Xor(p, p8), p14);
    XorVal(Xor(Xor(p, p8), p14), p16);
    Rolled1(Val(x), q);
  }

  lemma Words0(m: seq<Word>)
    requires IsAbc(m)
    ensures W(m, 0) == 0x61626380 && W(m, 1) == 0x00000000 && W(m, 2) == 0x00000000 && W(m, 3) == 0x00000000
  {
  }

  lemma Words4(m: seq<Word>)
    requires IsAbc(m)
    ensures W(m, 4) == 0x00000000 && W(m, 5) == 0x00000000 && W(m, 6) == 0x00000000 && W(m, 7) == 0x00000000
  {
  }

  lemma Words8(m: seq<Word>)
    requires IsAbc(m)
    ensures W(m, 8) == 0x00000000 && W(m, 9) == 0x00000000 && W(m, 10) == 0x00000000 && W(m, 11) == 0x00000000
  {
  }

  lemma Words12(m: seq<Word>)
    requires IsAbc(m)
    ensures W(m, 12) == 0x00000000 && W(m, 13) == 0x00000000 && W(m, 14) == 0x00000000 && W(m, 15) == 0x00000018
  {
  }

  lemma Words16(m: seq<Word>)
    requires IsAbc(m)
    ensures W(m, 16) == 0xc2c4c700 && W(m, 17) == 0x00000000 && W(m, 18) == 0x00000030 && W(m, 19) == 0x85898e01
  {
    hide W;
    Words0(m);
    Words4(m);
    Words8(m);
    Words12(m);
    NextWord(m, 16, 0x00000000, 0x00000000, 0x00000000, 0x61626380, 0x61626380, 0);
    NextWord(m, 17, 0x00000000, 0x00000000, 0x00000000, 0x00000000, 0x00000000, 0);
    NextWord(m, 18, 0x00000018, 0x00000000, 0x00000000, 0x00000000, 0x00000018, 0);
    NextWord(m, 19, 0xc2c4c700, 0x00000000, 0x00000000, 0x00000000, 0xc2c4c700, 1);
  }

  lemma Words20(m: seq<Word>)
    requires IsAbc(m)
    ensures W(m, 20) == 0x00000000 && W(m, 21) == 0x00000060 && W(m, 22) == 0x0b131c03 && W(m, 23) == 0x00000030
  {
    hide W;
    Words4(m);
    Words8(m);
    Words12(m);
    Words16(m);
    NextWord(m, 20, 0x00000000, 0x00000000, 0x00000000, 0x00000000, 0x00000000, 0);
    NextWord(m, 21, 0x00000030, 0x00000000, 0x00000000, 0x00000000, 0x00000030, 0);
    NextWord(m, 22, 0x85898e01, 0x00000000, 0x00000000, 0x00000000, 0x85898e01, 1);
    NextWord(m, 23, 0x00000000, 0x00000018, 0x00000000, 0x00000000, 0x00000018, 0);
  }

  lemma Words24(m: seq<Word>)
    requires IsAbc(m)
    ensures W(m, 24) == 0x85898ec1 && W(m, 25) == 0x16263806 && W(m, 26) == 0x00000000 && W(m, 27) == 0x00000180
  {
    hide W;
    Words8(m);
    Words12(m);
    Words16(m);
    Words20(m);
    NextWord(m, 24, 0x00000060, 0xc2c4c700, 0x00000000, 0x00000000, 0xc2c4c760, 1);
    NextWord(m, 25, 0x0b131c03, 0x00000000, 0x00000000, 0x00000000, 0x0b131c03, 0);
    NextWord(m, 26, 0x00000030, 0x00000030, 0x00000000, 0x00000000, 0x00000000, 0);
    NextWord(m, 27, 0x85898ec1, 0x85898e01, 0x00000000, 0x00000000, 0x000000c0, 0);
  }

  lemma Words28(m: seq<Word>)
    requires IsAbc(m)
    ensures W(m, 28) == 0x2c4c700c && W(m, 29) == 0x000000f0 && W(m, 30) == 0x93afb507 && W(m, 31) == 0x5898e048
  {
    hide W;
    Words12(m);
    Words16(m);
    Words20(m);
    Words24(m);
    NextWord(m, 28, 0x16263806, 0x00000000, 0x00000000, 0x00000000, 0x16263806, 0);
    NextWord(m, 29, 0x00000000, 0x00000060, 0x00000018, 0x00000000, 0x00000078, 0);
    NextWord(m, 30, 0x00000180, 0x0b131c03, 0xc2c4c700, 0x00000000, 0xc9d7da83, 1);
    NextWord(m, 31, 0x2c4c700c, 0x00000030, 0x00000000, 0x00000018, 0x2c4c7024, 0);
  }

  lemma Words32(m: seq<Word>)
    requires IsAbc(m)
    ensures W(m, 32) == 0x8e9a9202 && W(m, 33) == 0x00000600 && W(m, 34) == 0xb131c0f0 && W(m, 35) == 0x16263bc6
  {
    hide W;
    Words16(m);
    Words20(m);
    Words24(m);
    Words28(m);
    NextWord(m, 32, 0x000000f0, 0x85898ec1, 0x00000030, 0xc2c4c700, 0x474d4901, 0);
    NextWord(m, 33, 0x93afb507, 0x16263806, 0x85898e01, 0x00000000, 0x00000300, 0);
    NextWord(m, 34, 0x5898e048, 0x00000000, 0x00000000, 0x00000030, 0x5898e078, 0);
    NextWord(m, 35, 0x8e9a9202, 0x00000180, 0x00000060, 0x85898e01, 0x0b131de3, 0);
  }

  lemma Words36(m: seq<Word>)
    requires IsAbc(m)
    ensures W(m, 36) == 0x4ebed41e && W(m, 37) == 0x626380a1 && W(m, 38) == 0x16263806 && W(m, 39) == 0x000018c0
  {
    hide W;
    Words20(m);
    Words24(m);
    Words28(m);
    Words32(m);
    NextWord(m, 36, 0x00000600, 0x2c4c700c, 0x0b131c03, 0x00000000, 0x275f6a0f, 0);
    NextWord(m, 37, 0xb131c0f0, 0x000000f0, 0x00000030, 0x00000060, 0xb131c050, 1);
    NextWord(m, 38, 0x16263bc6, 0x93afb507, 0x85898ec1, 0x0b131c03, 0x0b131c03, 0);
    NextWord(m, 39, 0x4ebed41e, 0x5898e048, 0x16263806, 0x00000030, 0x00000c60, 0);
  }

  lemma Words40(m: seq<Word>)
    requires IsAbc(m)
    ensures W(m, 40) == 0xd2e138c4 && W(m, 41) == 0x00000f00 && W(m, 42) == 0x3afb5079 && W(m, 43) == 0x898e04e5
  {
    hide W;
    Words24(m);
    Words28(m);
    Words32(m);
    Words36(m);
    NextWord(m, 40, 0x626380a1, 0x8e9a9202, 0x00000000, 0x85898ec1, 0x69709c62, 0);
    NextWord(m, 41, 0x16263806, 0x00000600, 0x00000180, 0x16263806, 0x00000780, 0);
    NextWord(m, 42, 0x000018c0, 0xb131c0f0, 0x2c4c700c, 0x00000000, 0x9d7da83c, 1);
    NextWord(m, 43, 0xd2e138c4, 0x16263bc6, 0x000000f0, 0x00000180, 0xc4c70272, 1);
  }

  lemma Words44(m: seq<Word>)
    requires IsAbc(m)
    ensures W(m, 44) == 0xe2ba3c2b && W(m, 45) == 0x000060c0 && W(m, 46) == 0x053a37cd && W(m, 47) == 0x74458547
  {
    hide W;
    Words28(m);
    Words32(m);
    Words36(m);
    Words40(m);
    NextWord(m, 44, 0x00000f00, 0x4ebed41e, 0x93afb507, 0x2c4c700c, 0xf15d1e15, 1);
    NextWord(m, 45, 0x3afb5079, 0x626380a1, 0x5898e048, 0x000000f0, 0x00003060, 0);
    NextWord(m, 46, 0x898e04e5, 0x16263806, 0x8e9a9202, 0x93afb507, 0x829d1be6, 1);
    NextWord(m, 47, 0xe2ba3c2b, 0x000018c0, 0x00000600, 0x5898e048, 0xba22c2a3, 1);
  }

  lemma Words48(m: seq<Word>)
    requires IsAbc(m)
    ensures W(m, 48) == 0xda9415ed && W(m, 49) == 0x26380a16 && W(m, 50) == 0x626383a1 && W(m, 51) == 0x4ebf54de
  {
    hide W;
    Words32(m);
    Words36(m);
    Words40(m);
    Words44(m);
    NextWord(m, 48, 0x000060c0, 0xd2e138c4, 0xb131c0f0, 0x8e9a9202, 0xed4a0af6, 1);
    NextWord(m, 49, 0x053a37cd, 0x00000f00, 0x16263bc6, 0x00000600, 0x131c050b, 0);
    NextWord(m, 50, 0x74458547, 0x3afb5079, 0x4ebed41e, 0xb131c0f0, 0xb131c1d0, 1);
    NextWord(m, 51, 0xda9415ed, 0x898e04e5, 0x626380a1, 0x16263bc6, 0x275faa6f, 0);
  }

  lemma Words52(m: seq<Word>)
    requires IsAbc(m)
    ensures W(m, 52) == 0x3835b44b && W(m, 53) == 0x0000f600 && W(m, 54) == 0x1e84c7a3 && W(m, 55) == 0x98e04d98
  {
    hide W;
    Words36(m);
    Words40(m);
    Words44(m);
    Words48(m);
    NextWord(m, 52, 0x26380a16, 0xe2ba3c2b, 0x16263806, 0x4ebed41e, 0x9c1ada25, 1);
    NextWord(m, 53, 0x626383a1, 0x000060c0, 0x000018c0, 0x626380a1, 0x00007b00, 0);
    NextWord(m, 54, 0x4ebf54de, 0x053a37cd, 0xd2e138c4, 0x16263806, 0x8f4263d1, 1);
    NextWord(m, 55, 0x3835b44b, 0x74458547, 0x00000f00, 0x000018c0, 0x4c7026cc, 0);
  }

  lemma Words56(m: seq<Word>)
    requires IsAbc(m)
    ensures W(m, 56) == 0x651d16a0 && W(m, 57) == 0x62658ca1 && W(m, 58) == 0x458544d6 && W(m, 59) == 0x44584cb7
  {
    hide W;
    Words40(m);
    Words44(m);
    Words48(m);
    Words52(m);
    NextWord(m, 56, 0x0000f600, 0xda9415ed, 0x3afb5079, 0xd2e138c4, 0x328e8b50, 0);
    NextWord(m, 57, 0x1e84c7a3, 0x26380a16, 0x898e04e5, 0x00000f00, 0xb132c650, 1);
    NextWord(m, 58, 0x98e04d98, 0x626383a1, 0xe2ba3c2b, 0x3afb5079, 0x22c2a26b, 0);
    NextWord(m, 59, 0x651d16a0, 0x4ebf54de, 0x000060c0, 0x898e04e5, 0xa22c265b, 1);
  }

  lemma Words60(m: seq<Word>)
    requires IsAbc(m)
    ensures W(m, 60) == 0x7ba06619 && W(m, 61) == 0x6380aea2 && W(m, 62) == 0x0ae55269 && W(m, 63) == 0x627b49a1
  {
    hide W;
    Words44(m);
    Words48(m);
    Words52(m);
    Words56(m);
    NextWord(m, 60, 0x62658ca1, 0x3835b44b, 0x053a37cd, 0xe2ba3c2b, 0xbdd0330c, 1);
    NextWord(m, 61, 0x458544d6, 0x0000f600, 0x74458547, 0x000060c0, 0x31c05751, 0);
    NextWord(m, 62, 0x44584cb7, 0x1e84c7a3, 0xda9415ed, 0x053a37cd, 0x8572a934, 1);
    NextWord(m, 63, 0x7ba06619, 0x98e04d98, 0x26380a16, 0x74458547, 0xb13da4d0, 1);
  }

  lemma Words64(m: seq<Word>)
    requires IsAbc(m)
    ensures W(m, 64) == 0x7cd45c9d && W(m, 65) == 0x000f0000 && W(m, 66) == 0xfb50753a && W(m, 67) == 0xec6765e8
  {
    hide W;
    Words48(m);
    Words52(m);
    Words56(m);
    Words60(m);
    NextWord(m, 64, 0x6380aea2, 0x651d16a0, 0x626383a1, 0xda9415ed, 0xbe6a2e4e, 1);
    NextWord(m, 65, 0x0ae55269, 0x62658ca1, 0x4ebf54de, 0x26380a16, 0x00078000, 0);
    NextWord(m, 66, 0x627b49a1, 0x458544d6, 0x3835b44b, 0x626383a1, 0x7da83a9d, 0);
    NextWord(m, 67, 0x7cd45c9d, 0x44584cb7, 0x0000f600, 0x4ebf54de, 0x7633b2f4, 0);
  }

  lemma Words68(m: seq<Word>)
    requires IsAbc(m)
    ensures W(m, 68) == 0xba3c2be2 && W(m, 69) == 0x0060c000 && W(m, 70) == 0x3a37cd05 && W(m, 71) == 0x458546f4
  {
    hide W;
    Words52(m);
    Words56(m);
    Words60(m);
    Words64(m);
    NextWord(m, 68, 0x000f0000, 0x7ba06619, 0x1e84c7a3, 0x3835b44b, 0x5d1e15f1, 0);
    NextWord(m, 69, 0xfb50753a, 0x6380aea2, 0x98e04d98, 0x0000f600, 0x00306000, 0);
    NextWord(m, 70, 0xec6765e8, 0x0ae55269, 0x651d16a0, 0x1e84c7a3, 0x9d1be682, 1);
    NextWord(m, 71, 0xba3c2be2, 0x627b49a1, 0x62658ca1, 0x98e04d98, 0x22c2a37a, 0);
  }

  lemma Words72(m: seq<Word>)
    requires IsAbc(m)
    ensures W(m, 72) == 0xb8599dd6 && W(m, 73) == 0x380a1a26 && W(m, 74) == 0x01e02203 && W(m, 75) == 0xe7cc3456
  {
    hide W;
    Words56(m);
    Words60(m);
    Words64(m);
    Words68(m);
    NextWord(m, 72, 0x0060c000, 0x7cd45c9d, 0x458544d6, 0x651d16a0, 0x5c2cceeb, 0);
    NextWord(m, 73, 0x3a37cd05, 0x000f0000, 0x44584cb7, 0x62658ca1, 0x1c050d13, 0);
    NextWord(m, 74, 0x458546f4, 0xfb50753a, 0x7ba06619, 0x458544d6, 0x80f01101, 1);
    NextWord(m, 75, 0xb8599dd6, 0xec6765e8, 0x6380aea2, 0x44584cb7, 0x73e61a2b, 0);
  }

  lemma Words76(m: seq<Word>)
    requires IsAbc(m)
    ensures W(m, 76) == 0xe6e60b69 && W(m, 77) == 0x00f60a00 && W(m, 78) == 0x5795ef4f && W(m, 79) == 0x822e0879
  {
    hide W;
    Words60(m);
    Words64(m);
    Words68(m);
    Words72(m);
    NextWord(m, 76, 0x380a1a26, 0xba3c2be2, 0x0ae55269, 0x7ba06619, 0xf37305b4, 1);
    NextWord(m, 77, 0x01e02203, 0x0060c000, 0x627b49a1, 0x6380aea2, 0x007b0500, 0);
    NextWord(m, 78, 0xe7cc3456, 0x3a37cd05, 0x7cd45c9d, 0x0ae55269, 0xabcaf7a7, 1);
    NextWord(m, 79, 0xe6e60b69, 0x458546f4, 0x000f0000, 0x627b49a1, 0xc117043c, 1);
  }

  // The rounds

  /**
   * Round `t`: `x`, `y` and `z` are the second to fourth registers and `f` what the round function makes of them;
   * `q5` and `q30` are the bits rotated around, and `k` is the carry of the sum.
   */
  lemma Step(m: seq<Word>, t: nat, r: Regs, w: Word, x: bv32, y: bv32, z: bv32, f: bv32, q5: nat, q30: nat, k: nat)
    returns (next: Regs)
    requires |m| == 16 && Rounds(m, INITIAL, t) == r && W(m, t) == w
    requires r.b == Val(x) && r.c == Val(y) && r.d == Val(z) && f == FOn(t, x, y, z)
    requires 0x800_0000 * q5 <= r.a < 0x800_0000 * (q5 + 1) && 4 * q30 <= r.b < 4 * (q30 + 1)
    requires var sum := 32 * (r.a - 0x800_0000 * q5) + q5 + Val(f) + r.e + K(t) + w;
             WORDS * k <= sum < WORDS * (k + 1)
    ensures next.a == 32 * (r.a - 0x800_0000 * q5) + q5 + Val(f) + r.e + K(t) + w - WORDS * k
    ensures next.c == 0x4000_0000 * (r.b - 4 * q30) + q30
    ensures next == Regs(next.a, r.a, next.c, r.c, r.d) && Rounds(m, INITIAL, t + 1) == next
  {
    hide F, FOn, Val, Rol5, Rol30, Add;
    Rolled5(r.a, q5);
    Rolled30(r.b, q30);
    FVal(t, x, y, z);
    Carried(Rol5(r.a) + Val(f) + r.e + K(t) + w, k);
    hide K;
    next := Round(t, r, w);
  }

  lemma Rounds0(m: seq<Word>)
    requires IsAbc(m)
    ensures Rounds(m, INITIAL, 0) == INITIAL
  {
  }

  lemma Rounds4(m: seq<Word>)
    requires IsAbc(m)
    ensures Rounds(m, INITIAL, 4) == Regs(0xcdd8e11b, 0xa1390f08, 0x626414db, 0xc045bf0c, 0x59d148c0)
  {
    hide Rounds, W;
    Rounds0(m);
    Words0(m);
    var r := Regs(0x67452301, 0xefcdab89, 0x98badcfe, 0x10325476, 0xc3d2e1f0);
    r := Step(m, 0, r, 0x61626380, 0xefcdab89, 0x98badcfe, 0x10325476, 0x98badcfe, 12, 1005808354, 3);
    r := Step(m, 1, r, 0x00000000, 0x67452301, 0x7bf36ae2, 0x98badcfe, 0xfbfbfefe, 0, 433146048, 1);
    r := Step(m, 2, r, 0x00000000, 0x0116fc33, 0x59d148c0, 0x7bf36ae2, 0x7bf14ac0, 17, 4570892, 1);
    r := Step(m, 3, r, 0x00000000, 0x8990536d, 0xc045bf0c, 0x59d148c0, 0xd0411b8c, 20, 576984283, 1);
  }

  lemma Rounds8(m: seq<Word>)
    requires IsAbc(m)
    ensures Rounds(m, INITIAL, 8) == Regs(0x9e8c07d4, 0x993e30c1, 0x0ff1f290, 0xb3f52677, 0xf3763846)
  {
    hide Rounds, W;
    Rounds4(m);
    Words4(m);
    var r := Regs(0xcdd8e11b, 0xa1390f08, 0x626414db, 0xc045bf0c, 0x59d148c0);
    r := Step(m, 4, r, 0x00000000, 0xa1390f08, 0x626414db, 0xc045bf0c, 0x6064b40c, 25, 676217794, 1);
    r := Step(m, 5, r, 0x00000000, 0xcdd8e11b, 0x284e43c2, 0x626414db, 0x2a6c55c2, 25, 863385670, 2);
    r := Step(m, 6, r, 0x00000000, 0xcfd499de, 0xf3763846, 0x284e43c2, 0xe35e5a46, 7, 871704183, 2);
    r := Step(m, 7, r, 0x00000000, 0x3fc7ca40, 0xb3f52677, 0xf3763846, 0xf3f53246, 19, 267514512, 1);
  }

  lemma Rounds12(m: seq<Word>)
    requires IsAbc(m)
    ensures Rounds(m, INITIAL, 12) == Regs(0x63188fe4, 0xfbda9e89, 0x60d47e4a, 0x12dab8ca, 0x27a301f5)
  {
    hide Rounds, W;
    Rounds8(m);
    Words8(m);
    var r := Regs(0x9e8c07d4, 0x993e30c1, 0x0ff1f290, 0xb3f52677, 0xf3763846);
    r := Step(m, 8, r, 0x00000000, 0x993e30c1, 0x0ff1f290, 0xb3f52677, 0x2bf136b6, 19, 642747440, 2);
    r := Step(m, 9, r, 0x00000000, 0x9e8c07d4, 0x664f8c30, 0x0ff1f290, 0x077df410, 9, 664994293, 1);
    r := Step(m, 10, r, 0x00000000, 0x4b6ae328, 0x27a301f5, 0x664f8c30, 0x27270d30, 16, 316324042, 0);
    r := Step(m, 11, r, 0x00000000, 0x8351f929, 0x12dab8ca, 0x27a301f5, 0x26f2b8dc, 31, 550796874, 1);
  }

  lemma Rounds16(m: seq<Word>)
    requires IsAbc(m)
    ensures Rounds(m, INITIAL, 16) == Regs(0x20bdd62f, 0x196bee77, 0x644a3da5, 0x1181ed99, 0x18c623f9)
  {
    hide Rounds, W;
    Rounds12(m);
    Words12(m);
    var r := Regs(0x63188fe4, 0xfbda9e89, 0x60d47e4a, 0x12dab8ca, 0x27a301f5);
    r := Step(m, 12, r, 0x00000000, 0xfbda9e89, 0x60d47e4a, 0x12dab8ca, 0x60d03e4a, 12, 1056352162, 1);
    r := Step(m, 13, r, 0x00000000, 0x63188fe4, 0x7ef6a7a2, 0x60d47e4a, 0x62d4f7aa, 8, 415638521, 1);
    r := Step(m, 14, r, 0x00000000, 0x4607b664, 0x18c623f9, 0x7ef6a7a2, 0x38f623e2, 18, 293727641, 1);
    r := Step(m, 15, r, 0x00000018, 0x9128f695, 0x1181ed99, 0x18c623f9, 0x19c6e5f9, 3, 608845221, 1);
  }

  lemma Rounds20(m: seq<Word>)
    requires IsAbc(m)
    ensures Rounds(m, INITIAL, 20) == Regs(0xfd9e1d7d, 0xdc64901d, 0x20aa99ca, 0xd3a49608, 0xc82f758b)
  {
    hide Rounds, W;
    Rounds16(m);
    Words16(m);
    var r := Regs(0x20bdd62f, 0x196bee77, 0x644a3da5, 0x1181ed99, 0x18c623f9);
    r := Step(m, 16, r, 0xc2c4c700, 0x196bee77, 0x644a3da5, 0x1181ed99, 0x00ca2dad, 4, 106625949, 1);
    r := Step(m, 17, r, 0x00000000, 0x20bdd62f, 0xc65afb9d, 0x644a3da5, 0x445afb8d, 9, 137328011, 1);
    r := Step(m, 18, r, 0x00000030, 0x4e925823, 0xc82f758b, 0xc65afb9d, 0xc84af39f, 16, 329553416, 1);
    r := Step(m, 19, r, 0x85898e01, 0x82aa6728, 0xd3a49608, 0xc82f758b, 0xcaa5168b, 27, 548051402, 2);
  }

  lemma Rounds24(m: seq<Word>)
    requires IsAbc(m)
    ensures Rounds(m, INITIAL, 24) == Regs(0xd541f12d, 0x21283486, 0x0ce88eff, 0x868dec32, 0x7f67875f)
  {
    hide Rounds, W;
    Rounds20(m);
    Words20(m);
    var r := Regs(0xfd9e1d7d, 0xdc64901d, 0x20aa99ca, 0xd3a49608, 0xc82f758b);
    r := Step(m, 20, r, 0x00000000, 0xdc64901d, 0x20aa99ca, 0xd3a49608, 0x2f6a9fdf, 31, 924394503, 2);
    r := Step(m, 21, r, 0x00000060, 0xfd9e1d7d, 0x77192407, 0x20aa99ca, 0xaa2da0b0, 3, 1063749471, 2);
    r := Step(m, 22, r, 0x0b131c03, 0x1a37b0ca, 0x7f67875f, 0x77192407, 0x12491392, 6, 109964338, 1);
    r := Step(m, 23, r, 0x00000030, 0x33a23bfc, 0x868dec32, 0x7f67875f, 0xca485091, 4, 216567551, 1);
  }

  lemma Rounds28(m: seq<Word>)
    requires IsAbc(m)
    ensures Rounds(m, INITIAL, 28) == Regs(0x4aa84d97, 0xbe35fbd5, 0x12104ee9, 0xb1d59f71, 0x75507c4b)
  {
    hide Rounds, W;
    Rounds24(m);
    Words24(m);
    var r := Regs(0xd541f12d, 0x21283486, 0x0ce88eff, 0x868dec32, 0x7f67875f);
    r := Step(m, 24, r, 0x85898ec1, 0x21283486, 0x0ce88eff, 0x868dec32, 0xab4d564b, 26, 139070753, 2);
    r := Step(m, 25, r, 0x16263806, 0xd541f12d, 0x884a0d21, 0x0ce88eff, 0x51e372f3, 24, 894467147, 2);
    r := Step(m, 26, r, 0x00000000, 0xc7567dc6, 0x75507c4b, 0x884a0d21, 0x3a4c0cac, 9, 836083569, 0);
    r := Step(m, 27, r, 0x00000180, 0x48413ba4, 0xb1d59f71, 0x75507c4b, 0x8cc4d89e, 23, 303058665, 2);
  }

  lemma Rounds32(m: seq<Word>)
    requires IsAbc(m)
    ensures Rounds(m, INITIAL, 32) == Regs(0x3b845d33, 0x1267b407, 0x717eebd7, 0xa0dc2d4b, 0xd2aa1365)
  {
    hide Rounds, W;
    Rounds28(m);
    Words28(m);
    var r := Regs(0x4aa84d97, 0xbe35fbd5, 0x12104ee9, 0xb1d59f71, 0x75507c4b);
    r := Step(m, 28, r, 0x2c4c700c, 0xbe35fbd5, 0x12104ee9, 0xb1d59f71, 0x1df02a4d, 9, 797802229, 1);
    r := Step(m, 29, r, 0x000000f0, 0x4aa84d97, 0x6f8d7ef5, 0x12104ee9, 0x37357d8b, 16, 313135973, 1);
    r := Step(m, 30, r, 0x93afb507, 0x8370b52e, 0xd2aa1365, 0x6f8d7ef5, 0x3e57d8be, 24, 551300427, 2);
    r := Step(m, 31, r, 0x5898e048, 0xc5fbaf5d, 0xa0dc2d4b, 0xd2aa1365, 0xb78d9173, 2, 830401495, 2);
  }

  lemma Rounds36(m: seq<Word>)
    requires IsAbc(m)
    ensures Rounds(m, INITIAL, 36) == Regs(0xdcbbb0cb, 0x21796ad4, 0x4b03af04, 0x811bea82, 0xcee1174c)
  {
    hide Rounds, W;
    Rounds32(m);
    Words32(m);
    var r := Regs(0x3b845d33, 0x1267b407, 0x717eebd7, 0xa0dc2d4b, 0xd2aa1365);
    r := Step(m, 32, r, 0x8e9a9202, 0x1267b407, 0x717eebd7, 0xa0dc2d4b, 0xc3c5729b, 7, 77196545, 3);
    r := Step(m, 33, r, 0x00000600, 0x3b845d33, 0xc499ed01, 0x717eebd7, 0x8e635be5, 0, 249632588, 2);
    r := Step(m, 34, r, 0xb131c0f0, 0x046faa0a, 0xcee1174c, 0xc499ed01, 0x0e175047, 5, 18606722, 2);
    r := Step(m, 35, r, 0x16263bc6, 0x2c0ebc11, 0x811bea82, 0xcee1174c, 0x63f441df, 4, 184790788, 1);
  }

  lemma Rounds40(m: seq<Word>)
    requires IsAbc(m)
    ensures Rounds(m, INITIAL, 40) == Regs(0x32de1cba, 0x4c986405, 0xf718e5cf, 0x03d447f6, 0xf72eec32)
  {
    hide Rounds, W;
    Rounds36(m);
    Words36(m);
    var r := Regs(0xdcbbb0cb, 0x21796ad4, 0x4b03af04, 0x811bea82, 0xcee1174c);
    r := Step(m, 36, r, 0x4ebed41e, 0x21796ad4, 0x4b03af04, 0x811bea82, 0xeb612f52, 27, 140401333, 3);
    r := Step(m, 37, r, 0x626380a1, 0xdcbbb0cb, 0x085e5ab5, 0x4b03af04, 0x9fe6457a, 1, 925822002, 2);
    r := Step(m, 38, r, 0x16263806, 0x0f511fd8, 0xf72eec32, 0x085e5ab5, 0xf021a95f, 27, 64243702, 2);
    r := Step(m, 39, r, 0x000018c0, 0xdc63973f, 0x03d447f6, 0xf72eec32, 0x28993cfb, 9, 924378575, 1);
  }

  lemma Rounds44(m: seq<Word>)
    requires IsAbc(m)
    ensures Rounds(m, INITIAL, 44) == Regs(0xee1b1aaf, 0x7f193dc5, 0x25c28357, 0xff21f7b7, 0x8cb7872e)
  {
    hide Rounds, W;
    Rounds40(m);
    Words40(m);
    var r := Regs(0x32de1cba, 0x4c986405, 0xf718e5cf, 0x03d447f6, 0xf72eec32);
    r := Step(m, 40, r, 0xd2e138c4, 0x4c986405, 0xf718e5cf, 0x03d447f6, 0x479865c7, 6, 321263873, 2);
    r := Step(m, 41, r, 0x00000f00, 0x32de1cba, 0x53261901, 0xf718e5cf, 0x731e1d8b, 31, 213354286, 1);
    r := Step(m, 42, r, 0x3afb5079, 0xfc87dedf, 0x8cb7872e, 0x53261901, 0xdca79f0f, 18, 1059190711, 3);
    r := Step(m, 43, r, 0x898e04e5, 0x970a0d5c, 0xff21f7b7, 0x8cb7872e, 0x9f23873e, 15, 633504599, 2);
  }

  lemma Rounds48(m: seq<Word>)
    requires IsAbc(m)
    ensures Rounds(m, INITIAL, 48) == Regs(0xbead02ca, 0xa01b846c, 0x8714787c, 0x503ca382, 0xfb86c6ab)
  {
    hide Rounds, W;
    Rounds44(m);
    Words44(m);
    var r := Regs(0xee1b1aaf, 0x7f193dc5, 0x25c28357, 0xff21f7b7, 0x8cb7872e);
    r := Step(m, 44, r, 0xe2ba3c2b, 0x7f193dc5, 0x25c28357, 0xff21f7b7, 0x7f01b7d7, 29, 533090161, 3);
    r := Step(m, 45, r, 0x000060c0, 0xee1b1aaf, 0x5fc64f71, 0x25c28357, 0x6fc20b77, 8, 998688427, 2);
    r := Step(m, 46, r, 0x053a37cd, 0x40f28e09, 0xfb86c6ab, 0x5fc64f71, 0x5bc6ce29, 3, 272409474, 1);
    r := Step(m, 47, r, 0x74458547, 0x1c51e1f2, 0x503ca382, 0xfb86c6ab, 0x5814e3a2, 20, 118782076, 1);
  }

  lemma Rounds52(m: seq<Word>)
    requires IsAbc(m)
    ensures Rounds(m, INITIAL, 52) == Regs(0x3847ad66, 0x641db2ce, 0x4481cc71, 0xeebce4cd, 0xafab40b2)
  {
    hide Rounds, W;
    Rounds48(m);
    Words48(m);
    var r := Regs(0xbead02ca, 0xa01b846c, 0x8714787c, 0x503ca382, 0xfb86c6ab);
    r := Step(m, 48, r, 0xda9415ed, 0xa01b846c, 0x8714787c, 0x503ca382, 0x801ca06c, 23, 671539483, 3);
    r := Step(m, 49, r, 0x26380a16, 0xbead02ca, 0x2806e11b, 0x8714787c, 0xae04605a, 23, 799752370, 2);
    r := Step(m, 50, r, 0x626383a1, 0xbaf39337, 0xafab40b2, 0x2806e11b, 0xaaa3c133, 2, 784131277, 2);
    r := Step(m, 51, r, 0x4ebf54de, 0x120731c5, 0xeebce4cd, 0xafab40b2, 0xaeaf60c5, 12, 75615345, 2);
  }

  lemma Rounds56(m: seq<Word>)
    requires IsAbc(m)
    ensures Rounds(m, INITIAL, 56) == Regs(0x5e6456af, 0x7b71f76d, 0x09fa7c76, 0x792410db, 0x8e11eb59)
  {
    hide Rounds, W;
    Rounds52(m);
    Words52(m);
    var r := Regs(0x3847ad66, 0x641db2ce, 0x4481cc71, 0xeebce4cd, 0xafab40b2);
    r := Step(m, 52, r, 0x3835b44b, 0x641db2ce, 0x4481cc71, 0xeebce4cd, 0x649de4cd, 7, 419916979, 1);
    r := Step(m, 53, r, 0x0000f600, 0x3847ad66, 0x99076cb3, 0x4481cc71, 0x1807ec73, 28, 236055385, 2);
    r := Step(m, 54, r, 0x1e84c7a3, 0xe490436d, 0x8e11eb59, 0x99076cb3, 0x8c116b79, 4, 958664923, 2);
    r := Step(m, 55, r, 0x98e04d98, 0x27e9f1d8, 0x792410db, 0x8e11eb59, 0x2f21f1d9, 15, 167410806, 2);
  }

  lemma Rounds60(m: seq<Word>)
    requires IsAbc(m)
    ensures Rounds(m, INITIAL, 60) == Regs(0x3f52de5a, 0x09d785fd, 0x3498bfd4, 0xf211824f, 0xd79915ab)
  {
    hide Rounds, W;
    Rounds56(m);
    Words56(m);
    var r := Regs(0x5e6456af, 0x7b71f76d, 0x09fa7c76, 0x792410db, 0x8e11eb59);
    r := Step(m, 56, r, 0x651d16a0, 0x7b71f76d, 0x09fa7c76, 0x792410db, 0x7970747f, 11, 517766619, 2);
    r := Step(m, 57, r, 0x62658ca1, 0x5e6456af, 0x5edc7ddb, 0x09fa7c76, 0x5efc7cff, 25, 395908523, 1);
    r := Step(m, 58, r, 0x458544d6, 0xc846093f, 0xd79915ab, 0x5edc7ddb, 0xdedc1dbb, 26, 840008271, 2);
    r := Step(m, 59, r, 0x44584cb7, 0xd262ff50, 0xf211824f, 0xd79915ab, 0xd211974b, 1, 882425812, 2);
  }

  lemma Rounds64(m: seq<Word>)
    requires IsAbc(m)
    ensures Rounds(m, INITIAL, 64) == Regs(0x6b61c9e1, 0xb66c020b, 0x9523272c, 0xf5d5b051, 0x8fd4b796)
  {
    hide Rounds, W;
    Rounds60(m);
    Words60(m);
    var r := Regs(0x3f52de5a, 0x09d785fd, 0x3498bfd4, 0xf211824f, 0xd79915ab);
    r := Step(m, 60, r, 0x7ba06619, 0x09d785fd, 0x3498bfd4, 0xf211824f, 0xcf5eb866, 7, 41279871, 3);
    r := Step(m, 61, r, 0x6380aea2, 0x3f52de5a, 0x4275e17f, 0x3498bfd4, 0x49bf80f1, 26, 265598870, 3);
    r := Step(m, 62, r, 0x0ae55269, 0xd756c147, 0x8fd4b796, 0x4275e17f, 0x1af797ae, 10, 903196753, 1);
    r := Step(m, 63, r, 0x627b49a1, 0x548c9cb2, 0xf5d5b051, 0x8fd4b796, 0x2e8d9b75, 22, 354625324, 2);
  }

  lemma Rounds68(m: seq<Word>)
    requires IsAbc(m)
    ensures Rounds(m, INITIAL, 68) == Regs(0x78dd4d2b, 0x0c3df2b4, 0x4405957e, 0x0677e9eb, 0x5ad87278)
  {
    hide Rounds, W;
    Rounds64(m);
    Words64(m);
    var r := Regs(0x6b61c9e1, 0xb66c020b, 0x9523272c, 0xf5d5b051, 0x8fd4b796);
    r := Step(m, 64, r, 0x7cd45c9d, 0xb66c020b, 0x9523272c, 0xf5d5b051, 0xd69a9576, 13, 765132930, 3);
    r := Step(m, 65, r, 0x000f0000, 0x6b61c9e1, 0xed9b0082, 0x9523272c, 0x13d9ee4f, 3, 450392696, 2);
    r := Step(m, 66, r, 0xfb50753a, 0x19dfa7ac, 0x5ad87278, 0xed9b0082, 0xae9cd556, 2, 108521963, 3);
    r := Step(m, 67, r, 0xec6765e8, 0x101655f9, 0x0677e9eb, 0x5ad87278, 0x4cb9ce6a, 1, 67474814, 3);
  }

  lemma Rounds72(m: seq<Word>)
    requires IsAbc(m)
    ensures Rounds(m, INITIAL, 72) == Regs(0x39859de7, 0xc199f8c7, 0x8fc96230, 0x125c24f0, 0xde37534a)
  {
    hide Rounds, W;
    Rounds68(m);
    Words68(m);
    var r := Regs(0x78dd4d2b, 0x0c3df2b4, 0x4405957e, 0x0677e9eb, 0x5ad87278);
    r := Step(m, 68, r, 0xba3c2be2, 0x0c3df2b4, 0x4405957e, 0x0677e9eb, 0x4e4f8e21, 15, 51346605, 2);
    r := Step(m, 69, r, 0x0060c000, 0x78dd4d2b, 0x030f7cad, 0x4405957e, 0x3fd7a4f8, 9, 506942282, 1);
    r := Step(m, 70, r, 0x3a37cd05, 0x497093c0, 0xde37534a, 0x030f7cad, 0x9448bc27, 7, 308028656, 2);
    r := Step(m, 71, r, 0x458546f4, 0x3f2588c2, 0x125c24f0, 0xde37534a, 0xf34eff78, 24, 264856112, 2);
  }

  lemma Rounds76(m: seq<Word>)
    requires IsAbc(m)
    ensures Rounds(m, INITIAL, 76) == Regs(0x63f7dab7, 0x5ee76897, 0xc45e4fdb, 0x3b6d0b79, 0xce616779)
  {
    hide Rounds, W;
    Rounds72(m);
    Words72(m);
    var r := Regs(0x39859de7, 0xc199f8c7, 0x8fc96230, 0x125c24f0, 0xde37534a);
    r := Step(m, 72, r, 0xb8599dd6, 0xc199f8c7, 0x8fc96230, 0x125c24f0, 0x5c0cbe07, 7, 812023345, 2);
    r := Step(m, 73, r, 0x380a1a26, 0x39859de7, 0xf0667e31, 0x8fc96230, 0x462a81e6, 29, 241264505, 2);
    r := Step(m, 74, r, 0x01e02203, 0xedb42de4, 0xce616779, 0xf0667e31, 0xd3b334ac, 2, 997002105, 2);
    r := Step(m, 75, r, 0xe7cc3456, 0x11793f6f, 0x3b6d0b79, 0xce616779, 0xe475536f, 11, 73289691, 4);
  }

  lemma Rounds80(m: seq<Word>)
    requires IsAbc(m)
    ensures Rounds(m, INITIAL, 80) == Regs(0x42541b35, 0x5738d5e1, 0x21834873, 0x681e6df6, 0xd8fdf6ad)
  {
    hide Rounds, W;
    Rounds76(m);
    Words76(m);
    var r := Regs(0x63f7dab7, 0x5ee76897, 0xc45e4fdb, 0x3b6d0b79, 0xce616779);
    r := Step(m, 76, r, 0xe6e60b69, 0x5ee76897, 0xc45e4fdb, 0x3b6d0b79, 0xa1d42c35, 12, 398055973, 3);
    r := Step(m, 77, r, 0x00f60a00, 0x63f7dab7, 0xd7b9da25, 0xc45e4fdb, 0x70104f49, 20, 419296941, 1);
    r := Step(m, 78, r, 0x5795ef4f, 0xa079b7d9, 0xd8fdf6ad, 0xd7b9da25, 0xaf3d9b51, 16, 673082870, 3);
    r := Step(m, 79, r, 0x822e0879, 0x860d21cc, 0x681e6df6, 0xd8fdf6ad, 0x36eeba97, 10, 562251891, 3);
  }

  // The digest

  lemma AbcPadded()
    ensures [97, 98, 99] + Padding(3) == [97, 98, 99, 0x80] + Zeros(52) + [0, 0, 0, 0, 0, 0, 0, 24]
  {
    EightBytes(24);
    assert ToBigEndian(24, 8) == [0, 0, 0, 0, 0, 0, 0, 24];
  }

  lemma AbcBlock(padded: seq<byte>)
    requires padded == [97, 98, 99, 0x80] + Zeros(52) + [0, 0, 0, 0, 0, 0, 0, 24]
    ensures |padded| == BLOCK_BYTES && IsAbc(BlockOf(padded))
  {
    hide BigEndian;
    assert padded[0..4] == [97, 98, 99, 0x80] && padded[60..64] == [0, 0, 0, 24];
    BigEndianFour(97, 98, 99, 0x80);
    BigEndianFour(0, 0, 0, 24);
    BigEndianFour(0, 0, 0, 0);
    assert forall k :: 4 <= k < 60 ==> padded[k] == 0;
    hide Zeros;
    forall i | 0 < i < 15
      ensures WordAt(padded, i) == 0
    {
      assert padded[4 * i..4 * i + 4] == [0, 0, 0, 0];
    }
  }

  lemma AbcHash()
    ensures Sha1([97, 98, 99]) == Regs(0xa9993e36, 0x4706816a, 0xba3e2571, 0x7850c26c, 0x9cd0d89d)
  {
    assert HashBlocks([]) == INITIAL;
    hide Padding, BlockOf, Compress, HashBlocks, IsAbc;
    var padded := [97, 98, 99] + Padding(3);
    AbcPadded();
    AbcBlock(padded);
    NextBlock([], padded);
    assert [] + padded == padded;
    AbcCompress(BlockOf(padded));
  }

  lemma AbcCompress(m: seq<Word>)
    requires IsAbc(m)
    ensures |m| == 16 && Compress(INITIAL, m) == Regs(0xa9993e36, 0x4706816a, 0xba3e2571, 0x7850c26c, 0x9cd0d89d)
  {
    hide Rounds;
    Rounds80(m);
  }

  lemma WordIs(a: byte, b: byte, c: byte, d: byte)
    ensures ToBigEndian(0x100_0000 * a + 0x1_0000 * b + 256 * c + d, 4) == [a, b, c, d]
  {
    var low: nat, high: nat := 256 * c + d, 256 * a + b;
    var n: nat := 0x100_0000 * a + 0x1_0000 * b + low;
    assert n / 256 == 256 * high + c && n % 256 == d;
    assert n / 0x1_0000 == high && n / 0x100_0000 == a;
    assert high % 256 == b && (256 * high + c) % 256 == c;
    hide ToBigEndian;
    ToBigEndianFour(n);
  }

  lemma WordBytesPush(ws: seq<Word>, w: Word)
    ensures WordBytes(ws + [w]) == WordBytes(ws) + ToBigEndian(w, 4)
  {
    hide ToBigEndian;
    assert (ws + [w])[..|ws|] == ws;
  }

  lemma DigestIs(r: Regs)
    ensures DigestBytes(r) == ToBigEndian(r.a, 4) + ToBigEndian(r.b, 4) + ToBigEndian(r.c, 4) + ToBigEndian(r.d, 4)
                              + ToBigEndian(r.e, 4)
  {
    assert WordBytes([]) == [];
    hide ToBigEndian, WordBytes;
    WordBytesPush([], r.a);
    WordBytesPush([r.a], r.b);
    WordBytesPush([r.a, r.b], r.c);
    WordBytesPush([r.a, r.b, r.c], r.d);
    WordBytesPush([r.a, r.b, r.c, r.d], r.e);
    assert [] + [r.a] == [r.a] && [r.a] + [r.b] == [r.a, r.b] && [r.a, r.b] + [r.c] == [r.a, r.b, r.c];
    assert [r.a, r.b, r.c] + [r.d] == [r.a, r.b, r.c, r.d];
    assert [r.a, r.b, r.c, r.d] + [r.e] == [r.a, r.b, r.c, r.d, r.e];
  }

  /** The digest of "abc", as FIPS 180-4 gives it in its example. */
  lemma AbcDigest()
    ensures DigestBytes(Sha1([97, 98, 99])) ==
            [0xa9, 0x99, 0x3e, 0x36, 0x47, 0x06, 0x81, 0x6a, 0xba, 0x3e,
             0x25, 0x71, 0x78, 0x50, 0xc2, 0x6c, 0x9c, 0xd0, 0xd8, 0x9d]
  {
    hide Sha1, ToBigEndian, WordBytes;
    AbcHash();
    DigestIs(Sha1([97, 98, 99]));
    WordIs(0xa9, 0x99, 0x3e, 0x36);
    WordIs(0x47, 0x06, 0x81, 0x6a);
    WordIs(0xba, 0x3e, 0x25, 0x71);
    WordIs(0x78, 0x50, 0xc2, 0x6c);
    WordIs(0x9c, 0xd0, 0xd8, 0x9d);
  }

  /** The four constants are the integer parts of 2^30 times the square roots of 2, 3, 5 and 10. */
  lemma RoundConstants(t: nat)
    requires t < 80
    ensures var n := if t < 20 then 2 else if t < 40 then 3 else if t < 60 then 5 else 10;
            K(t) * K(t) <= n * 0x1000_0000_0000_0000 < (K(t) + 1) * (K(t) + 1)
  {
  }

  /** The object gives that digest, here from two pieces. */
  method HashAbc() returns (out: seq<byte>)
    ensures out == [0xa9, 0x99, 0x3e, 0x36, 0x47, 0x06, 0x81, 0x6a, 0xba, 0x3e,
                    0x25, 0x71, 0x78, 0x50, 0xc2, 0x6c, 0x9c, 0xd0, 0xd8, 0x9d]
  {
    hide Sha1, DigestBytes;
    assert Flatten([[97, 98], [99]]) == [97, 98, 99] by {
      FlattenPush([[97, 98]], [99]);
      FlattenPush([], [97, 98]);
    }
    AbcDigest();
    out := HashPieces([[97, 98], [99]]);
  }
}
