/** The unrolled transform on a 16-word block that is its own circular schedule. */
module Sha1Transform {
  import opened Bytes
  import opened Sha1Spec

  const BLOCK_INTS: nat := 16

  // The schedule words and the working variables of all rounds, as sequences

  function Words(m: seq<Word>, n: nat): (ws: seq<Word>)
    requires |m| == 16
    ensures |ws| == n
  {
    if n == 0 then [] else Words(m, n - 1) + [W(m, n - 1)]
  }

  lemma {:induction false} WordsAt(m: seq<Word>, n: nat, t: nat)
    requires |m| == 16 && t < n
    ensures Words(m, n)[t] == W(m, t)
  {
    if t < n - 1 {
      WordsAt(m, n - 1, t);
    }
  }

  function Trace(m: seq<Word>, h: Regs, n: nat): (s: seq<Regs>)
    requires |m| == 16
    ensures |s| == n + 1
  {
    if n == 0 then [h] else Trace(m, h, n - 1) + [Rounds(m, h, n)]
  }

  lemma {:induction false} TraceAt(m: seq<Word>, h: Regs, n: nat, t: nat)
    requires |m| == 16 && t <= n
    ensures Trace(m, h, n)[t] == Rounds(m, h, t)
  {
    if t < n {
      TraceAt(m, h, n - 1, t);
    }
  }

  /** One run of the transform: block `m` from digest `h`. */
  datatype Job = Job(m: seq<Word>, h: Regs, ws: seq<Word>, s: seq<Regs>)

  ghost predicate IsJob(j: Job) {
    |j.m| == 16 && j.ws == Words(j.m, 80) && j.s == Trace(j.m, j.h, 80)
  }

  lemma NewJob(m: seq<Word>, h: Regs) returns (j: Job)
    requires |m| == 16
    ensures IsJob(j) && m == Slots(j.ws, 0) && j.s[0] == h
    ensures Compress(h, m) == AddRegs(h, j.s[80])
  {
    j := Job(m, h, Words(m, 80), Trace(m, h, 80));
    TraceAt(m, h, 80, 0);
    TraceAt(m, h, 80, 80);
    forall k | 0 <= k < 16
      ensures m[k] == j.ws[k]
    {
      WordsAt(m, 80, k);
    }
  }

  /**
   * The last round before `t` that stored its schedule word at index `k`; the message words count as
   * rounds 0 to 15.
   */
  function Stored(t: nat, k: nat): nat
    requires k < 16
  {
    if t <= 16 then k else t - 1 - (t - 1 - k) % 16
  }

  lemma StoredBack(t: nat, back: nat)
    requires 16 <= t && 1 <= back <= 16
    ensures Stored(t, (t + 16 - back) % 16) == t - back
  {
  }

  lemma StoredNext(t: nat, k: nat)
    requires 16 <= t && k < 16
    ensures Stored(t + 1, k) == if k == t % 16 then t else Stored(t, k)
  {
  }

  /** The block before round `t`: the message words, overwritten in turn by those of rounds 16, 17 and so on. */
  function Slots(ws: seq<Word>, t: nat): (block: seq<Word>)
    requires |ws| == 80 && t <= 80
    ensures |block| == 16
  {
    if t <= 16 then ws[..16] else Slots(ws, t - 1)[(t - 1) % 16 := ws[t - 1]]
  }

  lemma {:induction false} SlotsAt(ws: seq<Word>, t: nat, k: nat)
    requires |ws| == 80 && t <= 80 && k < 16
    ensures Stored(t, k) < 80 && Slots(ws, t)[k] == ws[Stored(t, k)]
  {
    if t > 16 {
      SlotsAt(ws, t - 1, k);
      StoredNext(t - 1, k);
    }
  }

  function Blk(block: seq<Word>, i: nat): Word
    requires |block| == 16 && i < 16
  {
    Rol1(Xor32(Xor32(Xor32(block[(i + 13) % 16], block[(i + 8) % 16]), block[(i + 2) % 16]), block[i]))
  }

  lemma NextWord(j: Job, t: nat)
    requires IsJob(j) && 16 <= t < 80
    ensures j.ws[t] == Rol1(Xor32(Xor32(Xor32(j.ws[t - 3], j.ws[t - 8]), j.ws[t - 14]), j.ws[t - 16]))
  {
    WordsAt(j.m, 80, t);
    WordsAt(j.m, 80, t - 3);
    WordsAt(j.m, 80, t - 8);
    WordsAt(j.m, 80, t - 14);
    WordsAt(j.m, 80, t - 16);
  }

  lemma ModAdd(t: nat, n: nat)
    ensures (t % 16 + n) % 16 == (t + n) % 16
  {
  }

  lemma Indices(t: nat)
    requires 16 <= t
    ensures Stored(t, (t % 16 + 13) % 16) == t - 3
    ensures Stored(t, (t % 16 + 8) % 16) == t - 8
    ensures Stored(t, (t % 16 + 2) % 16) == t - 14
    ensures Stored(t, t % 16) == t - 16
  {
    ModAdd(t, 13);
    ModAdd(t, 8);
    ModAdd(t, 2);
    StoredBack(t, 3);
    StoredBack(t, 8);
    StoredBack(t, 14);
    StoredBack(t, 16);
  }

  lemma FirstSlots(ws: seq<Word>, t: nat)
    requires |ws| == 80 && t < 16
    ensures Slots(ws, t + 1) == Slots(ws, t) && t % 16 == t && Slots(ws, t)[t] == ws[t]
  {
  }

  /** The word computed from the block is the next one of the schedule. */
  lemma BlkIsNext(j: Job, t: nat)
    requires IsJob(j) && 16 <= t < 80
    ensures Blk(Slots(j.ws, t), t % 16) == j.ws[t]
  {
    NextWord(j, t);
    Indices(t);
    var i := t % 16;
    SlotsAt(j.ws, t, (i + 13) % 16);
    SlotsAt(j.ws, t, (i + 8) % 16);
    SlotsAt(j.ws, t, (i + 2) % 16);
    SlotsAt(j.ws, t, i);
  }

  lemma NextRegs(j: Job, t: nat)
    requires IsJob(j) && t < 80
    ensures j.s[t + 1] == Round(t, j.s[t], j.ws[t])
  {
    WordsAt(j.m, 80, t);
    TraceAt(j.m, j.h, 80, t);
    TraceAt(j.m, j.h, 80, t + 1);
  }

  lemma {:induction false} ChBits(n: nat, w: nat, x: nat, y: nat)
    requires w < Pow2(n)
    ensures Bits(XOR, n, Bits(AND, n, w, Bits(XOR, n, x, y)), y)
         == Bits(XOR, n, Bits(AND, n, w, x), Bits(AND, n, Pow2(n) - 1 - w, y))
  {
    if n > 0 {
      var v := Pow2(n) - 1 - w;
      assert v % 2 == 1 - w % 2 && v / 2 == Pow2(n - 1) - 1 - w / 2;
      BitsSplit(XOR, n, x, y);
      BitsSplit(AND, n, w, Bits(XOR, n, x, y));
      BitsSplit(AND, n, w, x);
      BitsSplit(AND, n, v, y);
      ChBits(n - 1, w / 2, x / 2, y / 2);
    }
  }

  lemma {:induction false} MajBits(n: nat, w: nat, x: nat, y: nat)
    ensures Bits(OR, n, Bits(AND, n, Bits(OR, n, w, x), y), Bits(AND, n, w, x))
         == Bits(XOR, n, Bits(XOR, n, Bits(AND, n, w, x), Bits(AND, n, w, y)), Bits(AND, n, x, y))
  {
    if n > 0 {
      BitsSplit(OR, n, w, x);
      BitsSplit(AND, n, Bits(OR, n, w, x), y);
      BitsSplit(AND, n, w, x);
      BitsSplit(AND, n, w, y);
      BitsSplit(AND, n, x, y);
      BitsSplit(XOR, n, Bits(AND, n, w, x), Bits(AND, n, w, y));
      MajBits(n - 1, w / 2, x / 2, y / 2);
    }
  }

  /** The selection with one operation less than the standard's form. */
  lemma ChForm(w: Word, x: Word, y: Word)
    ensures Xor32(And32(w, Xor32(x, y)), y) == Ch(w, x, y)
  {
    Pow2At32();
    ChBits(32, w, x, y);
  }

  lemma MajForm(w: Word, x: Word, y: Word)
    ensures Or32(And32(Or32(w, x), y), And32(w, x)) == Maj(w, x, y)
  {
    MajBits(32, w, x, y);
  }

  method R0(block: array<Word>, v: Word, w: Word, x: Word, y: Word, z: Word, i: nat, ghost j: Job, ghost t: nat)
    returns (w': Word, z': Word)
    requires IsJob(j) && block.Length == 16 && t < 16 && i == t % 16
    requires block[..] == Slots(j.ws, t) && j.s[t] == Regs(v, w, x, y, z)
    ensures block[..] == Slots(j.ws, t + 1) && j.s[t + 1] == Regs(z', v, w', x, y)
  {
    NextRegs(j, t);
    FirstSlots(j.ws, t);
    ChForm(w, x, y);
    z' := Add(z + Xor32(And32(w, Xor32(x, y)), y) + block[i] + 0x5a827999 + Rol5(v));
    w' := Rol30(w);
  }

  method R1(block: array<Word>, v: Word, w: Word, x: Word, y: Word, z: Word, i: nat, ghost j: Job, ghost t: nat)
    returns (w': Word, z': Word)
    requires IsJob(j) && block.Length == 16 && 16 <= t < 20 && i == t % 16
    requires block[..] == Slots(j.ws, t) && j.s[t] == Regs(v, w, x, y, z)
    modifies block
    ensures block[..] == Slots(j.ws, t + 1) && j.s[t + 1] == Regs(z', v, w', x, y)
  {
    NextRegs(j, t);
    BlkIsNext(j, t);
    block[i] := Blk(block[..], i);
    ChForm(w, x, y);
    z' := Add(z + Xor32(And32(w, Xor32(x, y)), y) + block[i] + 0x5a827999 + Rol5(v));
    w' := Rol30(w);
  }

  method R2(block: array<Word>, v: Word, w: Word, x: Word, y: Word, z: Word, i: nat, ghost j: Job, ghost t: nat)
    returns (w': Word, z': Word)
    requires IsJob(j) && block.Length == 16 && 20 <= t < 40 && i == t % 16
    requires block[..] == Slots(j.ws, t) && j.s[t] == Regs(v, w, x, y, z)
    modifies block
    ensures block[..] == Slots(j.ws, t + 1) && j.s[t + 1] == Regs(z', v, w', x, y)
  {
    NextRegs(j, t);
    BlkIsNext(j, t);
    block[i] := Blk(block[..], i);
    z' := Add(z + Xor32(Xor32(w, x), y) + block[i] + 0x6ed9eba1 + Rol5(v));
    w' := Rol30(w);
  }

  method R3(block: array<Word>, v: Word, w: Word, x: Word, y: Word, z: Word, i: nat, ghost j: Job, ghost t: nat)
    returns (w': Word, z': Word)
    requires IsJob(j) && block.Length == 16 && 40 <= t < 60 && i == t % 16
    requires block[..] == Slots(j.ws, t) && j.s[t] == Regs(v, w, x, y, z)
    modifies block
    ensures block[..] == Slots(j.ws, t + 1) && j.s[t + 1] == Regs(z', v, w', x, y)
  {
    NextRegs(j, t);
    BlkIsNext(j, t);
    block[i] := Blk(block[..], i);
    MajForm(w, x, y);
    z' := Add(z + Or32(And32(Or32(w, x), y), And32(w, x)) + block[i] + 0x8f1bbcdc + Rol5(v));
    w' := Rol30(w);
  }

  method R4(block: array<Word>, v: Word, w: Word, x: Word, y: Word, z: Word, i: nat, ghost j: Job, ghost t: nat)
    returns (w': Word, z': Word)
    requires IsJob(j) && block.Length == 16 && 60 <= t < 80 && i == t % 16
    requires block[..] == Slots(j.ws, t) && j.s[t] == Regs(v, w, x, y, z)
    modifies block
    ensures block[..] == Slots(j.ws, t + 1) && j.s[t + 1] == Regs(z', v, w', x, y)
  {
    NextRegs(j, t);
    BlkIsNext(j, t);
    block[i] := Blk(block[..], i);
    z' := Add(z + Xor32(Xor32(w, x), y) + block[i] + 0xca62c1d6 + Rol5(v));
    w' := Rol30(w);
  }

  ghost function RegsOf(digest: array<Word>): Regs
    reads digest
    requires digest.Length == 5
  {
    Regs(digest[0], digest[1], digest[2], digest[3], digest[4])
  }

  method Rounds0(block: array<Word>, a0: Word, b0: Word, c0: Word, d0: Word, e0: Word, ghost j: Job)
    returns (a: Word, b: Word, c: Word, d: Word, e: Word)
    requires IsJob(j) && block.Length == 16
    requires block[..] == Slots(j.ws, 0) && j.s[0] == Regs(a0, b0, c0, d0, e0)
    modifies block
    ensures block[..] == Slots(j.ws, 20) && j.s[20] == Regs(a, b, c, d, e)
  {
    hide Words, Trace, Slots;
    a, b, c, d, e := a0, b0, c0, d0, e0;
    b, e := R0(block, a, b, c, d, e, 0, j, 0);
    a, d := R0(block, e, a, b, c, d, 1, j, 1);
    e, c := R0(block, d, e, a, b, c, 2, j, 2);
    d, b := R0(block, c, d, e, a, b, 3, j, 3);
    c, a := R0(block, b, c, d, e, a, 4, j, 4);
    b, e := R0(block, a, b, c, d, e, 5, j, 5);
    a, d := R0(block, e, a, b, c, d, 6, j, 6);
    e, c := R0(block, d, e, a, b, c, 7, j, 7);
    d, b := R0(block, c, d, e, a, b, 8, j, 8);
    c, a := R0(block, b, c, d, e, a, 9, j, 9);
    b, e := R0(block, a, b, c, d, e, 10, j, 10);
    a, d := R0(block, e, a, b, c, d, 11, j, 11);
    e, c := R0(block, d, e, a, b, c, 12, j, 12);
    d, b := R0(block, c, d, e, a, b, 13, j, 13);
    c, a := R0(block, b, c, d, e, a, 14, j, 14);
    b, e := R0(block, a, b, c, d, e, 15, j, 15);
    a, d := R1(block, e, a, b, c, d, 0, j, 16);
    e, c := R1(block, d, e, a, b, c, 1, j, 17);
    d, b := R1(block, c, d, e, a, b, 2, j, 18);
    c, a := R1(block, b, c, d, e, a, 3, j, 19);
  }

  method Rounds20(block: array<Word>, a0: Word, b0: Word, c0: Word, d0: Word, e0: Word, ghost j: Job)
    returns (a: Word, b: Word, c: Word, d: Word, e: Word)
    requires IsJob(j) && block.Length == 16
    requires block[..] == Slots(j.ws, 20) && j.s[20] == Regs(a0, b0, c0, d0, e0)
    modifies block
    ensures block[..] == Slots(j.ws, 40) && j.s[40] == Regs(a, b, c, d, e)
  {
    hide Words, Trace, Slots;
    a, b, c, d, e := a0, b0, c0, d0, e0;
    b, e := R2(block, a, b, c, d, e, 4, j, 20);
    a, d := R2(block, e, a, b, c, d, 5, j, 21);
    e, c := R2(block, d, e, a, b, c, 6, j, 22);
    d, b := R2(block, c, d, e, a, b, 7, j, 23);
    c, a := R2(block, b, c, d, e, a, 8, j, 24);
    b, e := R2(block, a, b, c, d, e, 9, j, 25);
    a, d := R2(block, e, a, b, c, d, 10, j, 26);
    e, c := R2(block, d, e, a, b, c, 11, j, 27);
    d, b := R2(block, c, d, e, a, b, 12, j, 28);
    c, a := R2(block, b, c, d, e, a, 13, j, 29);
    b, e := R2(block, a, b, c, d, e, 14, j, 30);
    a, d := R2(block, e, a, b, c, d, 15, j, 31);
    e, c := R2(block, d, e, a, b, c, 0, j, 32);
    d, b := R2(block, c, d, e, a, b, 1, j, 33);
    c, a := R2(block, b, c, d, e, a, 2, j, 34);
    b, e := R2(block, a, b, c, d, e, 3, j, 35);
    a, d := R2(block, e, a, b, c, d, 4, j, 36);
    e, c := R2(block, d, e, a, b, c, 5, j, 37);
    d, b := R2(block, c, d, e, a, b, 6, j, 38);
    c, a := R2(block, b, c, d, e, a, 7, j, 39);
  }

  method Rounds40(block: array<Word>, a0: Word, b0: Word, c0: Word, d0: Word, e0: Word, ghost j: Job)
    returns (a: Word, b: Word, c: Word, d: Word, e: Word)
    requires IsJob(j) && block.Length == 16
    requires block[..] == Slots(j.ws, 40) && j.s[40] == Regs(a0, b0, c0, d0, e0)
    modifies block
    ensures block[..] == Slots(j.ws, 60) && j.s[60] == Regs(a, b, c, d, e)
  {
    hide Words, Trace, Slots;
    a, b, c, d, e := a0, b0, c0, d0, e0;
    b, e := R3(block, a, b, c, d, e, 8, j, 40);
    a, d := R3(block, e, a, b, c, d, 9, j, 41);
    e, c := R3(block, d, e, a, b, c, 10, j, 42);
    d, b := R3(block, c, d, e, a, b, 11, j, 43);
    c, a := R3(block, b, c, d, e, a, 12, j, 44);
    b, e := R3(block, a, b, c, d, e, 13, j, 45);
    a, d := R3(block, e, a, b, c, d, 14, j, 46);
    e, c := R3(block, d, e, a, b, c, 15, j, 47);
    d, b := R3(block, c, d, e, a, b, 0, j, 48);
    c, a := R3(block, b, c, d, e, a, 1, j, 49);
    b, e := R3(block, a, b, c, d, e, 2, j, 50);
    a, d := R3(block, e, a, b, c, d, 3, j, 51);
    e, c := R3(block, d, e, a, b, c, 4, j, 52);
    d, b := R3(block, c, d, e, a, b, 5, j, 53);
    c, a := R3(block, b, c, d, e, a, 6, j, 54);
    b, e := R3(block, a, b, c, d, e, 7, j, 55);
    a, d := R3(block, e, a, b, c, d, 8, j, 56);
    e, c := R3(block, d, e, a, b, c, 9, j, 57);
    d, b := R3(block, c, d, e, a, b, 10, j, 58);
    c, a := R3(block, b, c, d, e, a, 11, j, 59);
  }

  method Rounds60(block: array<Word>, a0: Word, b0: Word, c0: Word, d0: Word, e0: Word, ghost j: Job)
    returns (a: Word, b: Word, c: Word, d: Word, e: Word)
    requires IsJob(j) && block.Length == 16
    requires block[..] == Slots(j.ws, 60) && j.s[60] == Regs(a0, b0, c0, d0, e0)
    modifies block
    ensures block[..] == Slots(j.ws, 80) && j.s[80] == Regs(a, b, c, d, e)
  {
    hide Words, Trace, Slots;
    a, b, c, d, e := a0, b0, c0, d0, e0;
    b, e := R4(block, a, b, c, d, e, 12, j, 60);
    a, d := R4(block, e, a, b, c, d, 13, j, 61);
    e, c := R4(block, d, e, a, b, c, 14, j, 62);
    d, b := R4(block, c, d, e, a, b, 15, j, 63);
    c, a := R4(block, b, c, d, e, a, 0, j, 64);
    b, e := R4(block, a, b, c, d, e, 1, j, 65);
    a, d := R4(block, e, a, b, c, d, 2, j, 66);
    e, c := R4(block, d, e, a, b, c, 3, j, 67);
    d, b := R4(block, c, d, e, a, b, 4, j, 68);
    c, a := R4(block, b, c, d, e, a, 5, j, 69);
    b, e := R4(block, a, b, c, d, e, 6, j, 70);
    a, d := R4(block, e, a, b, c, d, 7, j, 71);
    e, c := R4(block, d, e, a, b, c, 8, j, 72);
    d, b := R4(block, c, d, e, a, b, 9, j, 73);
    c, a := R4(block, b, c, d, e, a, 10, j, 74);
    b, e := R4(block, a, b, c, d, e, 11, j, 75);
    a, d := R4(block, e, a, b, c, d, 12, j, 76);
    e, c := R4(block, d, e, a, b, c, 13, j, 77);
    d, b := R4(block, c, d, e, a, b, 14, j, 78);
    c, a := R4(block, b, c, d, e, a, 15, j, 79);
  }

  method DoTransform(digest: array<Word>, block: array<Word>)
    requires digest.Length == 5 && block.Length == 16 && digest != block
    modifies digest, block
    ensures RegsOf(digest) == Compress(old(RegsOf(digest)), old(block[..]))
  {
    ghost var j := NewJob(block[..], RegsOf(digest));
    var a, b, c, d, e := digest[0], digest[1], digest[2], digest[3], digest[4];
    a, b, c, d, e := Rounds0(block, a, b, c, d, e, j);
    a, b, c, d, e := Rounds20(block, a, b, c, d, e, j);
    a, b, c, d, e := Rounds40(block, a, b, c, d, e, j);
    a, b, c, d, e := Rounds60(block, a, b, c, d, e, j);
    AddBack(digest, a, b, c, d, e);
  }

  method AddBack(digest: array<Word>, a: Word, b: Word, c: Word, d: Word, e: Word)
    requires digest.Length == 5
    modifies digest
    ensures RegsOf(digest) == AddRegs(old(RegsOf(digest)), Regs(a, b, c, d, e))
  {
    digest[0] := Add(digest[0] + a);
    digest[1] := Add(digest[1] + b);
    digest[2] := Add(digest[2] + c);
    digest[3] := Add(digest[3] + d);
    digest[4] := Add(digest[4] + e);
  }
}
