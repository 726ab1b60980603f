/** Hashing a message that arrives in pieces. */
module Sha1Stream {
  import opened Bytes
  import opened Endian
  import opened Sha1Spec
  import opened Sha1Transform

  method BufferToBlock(buffer: array<byte>, block: array<Word>)
    requires buffer.Length == BLOCK_BYTES && block.Length == BLOCK_INTS
    modifies block
    ensures block[..] == BlockOf(buffer[..])
  {
    for i := 0 to BLOCK_INTS
      invariant forall k :: 0 <= k < i ==> block[k] == WordAt(buffer[..], k)
    {
      var a: int, b: int, c: int, d: int := buffer[4 * i], buffer[4 * i + 1], buffer[4 * i + 2], buffer[4 * i + 3];
      BigEndianFour(a, b, c, d);
      assert buffer[..][4 * i..4 * i + 4] == [a, b, c, d];
      FourBound([a, b, c, d]);
      block[i] := d + 256 * c + 0x1_0000 * b + 0x100_0000 * a;
    }
  }

  // The last blocks

  lemma LastWords(front: seq<byte>, rest: seq<byte>, total: nat)
    requires |front| == 56 && |rest| == 8 && total < LENGTHS
    ensures BlockOf(front + ToBigEndian(total, 8))
         == BlockOf(front + rest)[14 := total / WORDS][15 := total % WORDS]
  {
    var p, q := front + ToBigEndian(total, 8), front + rest;
    ToBigEndianSplit(total, 4);
    LowWord(total / WORDS);
    LowWord(total);
    assert p == front + ToBigEndian(total / WORDS, 4) + ToBigEndian(total, 4);
    assert p[56..60] == ToBigEndian(total / WORDS, 4) && p[60..64] == ToBigEndian(total, 4);
    forall i | 0 <= i < 14
      ensures p[4 * i..4 * i + 4] == q[4 * i..4 * i + 4]
    {
    }
    assert WordAt(p, 14) == total / WORDS && WordAt(p, 15) == total % WORDS;
  }

  lemma LowWord(n: nat)
    ensures BigEndian(ToBigEndian(n, 4)) == n % WORDS
  {
    ToBigEndianFour(n);
    BigEndianFour(n / 0x100_0000 % 256, n / 0x1_0000 % 256, n / 256 % 256, n % 256);
    LowDigits(n);
  }

  lemma LowDigits(n: nat)
    ensures 0x100_0000 * (n / 0x100_0000 % 256) + 0x1_0000 * (n / 0x1_0000 % 256) + 256 * (n / 256 % 256) + n % 256
         == n % WORDS
  {
    var a := n / 256;
    var b := a / 256;
    DivDiv(n);
    DivDiv(a);
    assert b / 256 == n / 0x100_0000;
  }

  lemma ZeroBlock(i: nat)
    requires i < 16
    ensures BlockOf(Zeros(BLOCK_BYTES))[i] == 0
  {
    assert Zeros(BLOCK_BYTES)[4 * i..4 * i + 4] == [0, 0, 0, 0];
    BigEndianFour(0, 0, 0, 0);
  }

  lemma NextBlock(front: seq<byte>, block: seq<byte>)
    requires |block| == BLOCK_BYTES
    ensures HashBlocks(front + block) == Compress(HashBlocks(front), BlockOf(block))
  {
    var data := front + block;
    assert data[..|data| - BLOCK_BYTES] == front && data[|data| - BLOCK_BYTES..] == block;
  }

  /** A message whose last `|tail|` bytes are not hashed yet. */
  lemma PaddedMessage(hashed: seq<byte>, n: nat, tail: seq<byte>, total: nat)
    requires |hashed| == BLOCK_BYTES * n && |tail| < BLOCK_BYTES
    requires total == 8 * |hashed + tail| % LENGTHS
    ensures var msg, b := hashed + tail, |tail|;
            msg + Padding(|msg|) ==
            if b < 56 then hashed + (tail + [0x80] + Zeros(55 - b) + ToBigEndian(total, 8))
            else hashed + (tail + [0x80] + Zeros(63 - b)) + (Zeros(56) + ToBigEndian(total, 8))
  {
    var msg, b, length := hashed + tail, |tail|, ToBigEndian(total, 8);
    ZeroCountIs(n, b);
    assert Padding(|msg|) == [0x80] + Zeros(ZeroCount(|msg|)) + length;
    hide Padding, ZeroCount, ToBigEndian;
    if b >= 56 {
      assert Zeros(119 - b) == Zeros(63 - b) + Zeros(56);
    }
    hide Zeros;
    if b < 56 {
      OneBlock(hashed, tail, Zeros(55 - b), length);
    } else {
      TwoBlocks(hashed, tail, Zeros(63 - b), Zeros(56), length);
    }
  }

  lemma OneBlock(hashed: seq<byte>, tail: seq<byte>, zeros: seq<byte>, length: seq<byte>)
    ensures hashed + tail + ([0x80] + zeros + length) == hashed + (tail + [0x80] + zeros + length)
  {
  }

  lemma TwoBlocks(hashed: seq<byte>, tail: seq<byte>, zeros: seq<byte>, more: seq<byte>, length: seq<byte>)
    ensures hashed + tail + ([0x80] + (zeros + more) + length) == hashed + (tail + [0x80] + zeros) + (more + length)
  {
  }

  lemma ZeroCountIs(n: nat, b: nat)
    requires b < BLOCK_BYTES
    ensures ZeroCount(BLOCK_BYTES * n + b) == if b < 56 then 55 - b else 119 - b
  {
    Remainder(n, b);
  }

  lemma WrappedBits(n: nat, b: nat)
    ensures (n % LENGTHS * BLOCK_BYTES + b) * 8 % LENGTHS == 8 * (n * BLOCK_BYTES + b) % LENGTHS
  {
    var q := n / LENGTHS;
    assert n == q * LENGTHS + n % LENGTHS;
    assert 8 * (n * BLOCK_BYTES + b) == (n % LENGTHS * BLOCK_BYTES + b) * 8 + (512 * q) * LENGTHS;
    ModMultiple((n % LENGTHS * BLOCK_BYTES + b) * 8, 512 * q);
  }

  lemma {:induction false} ModMultiple(a: nat, k: nat)
    ensures (a + k * LENGTHS) % LENGTHS == a % LENGTHS
  {
    if k > 0 {
      ModMultiple(a, k - 1);
      assert a + k * LENGTHS == a + (k - 1) * LENGTHS + LENGTHS;
    }
  }

  lemma CountNext(n: nat)
    ensures (n % LENGTHS + 1) % LENGTHS == (n + 1) % LENGTHS
  {
  }

  class SHA1 {
    const digest: array<Word>
    const buffer: array<byte>
    var bufSize: nat
    var transforms: nat
    /** The bytes given so far, and how many whole blocks of them are hashed. */
    ghost var msg: seq<byte>
    ghost var blocks: nat

    ghost predicate Consistent()
      reads this, digest, buffer
    {
      && digest.Length == 5 && buffer.Length == BLOCK_BYTES
      && BLOCK_BYTES * blocks + bufSize == |msg| && bufSize <= BLOCK_BYTES
      && transforms == blocks % LENGTHS
      && RegsOf(digest) == HashBlocks(msg[..BLOCK_BYTES * blocks])
      && buffer[..bufSize] == msg[BLOCK_BYTES * blocks..]
    }

    ghost predicate Valid()
      reads this, digest, buffer
    {
      Consistent() && bufSize < BLOCK_BYTES
    }

    constructor ()
      ensures Valid() && fresh(digest) && fresh(buffer) && msg == []
    {
      digest := new Word[5];
      buffer := new byte[BLOCK_BYTES];
      bufSize, transforms, msg, blocks := 0, 0, [], 0;
      new;
      Reset();
    }

    method Reset()
      requires digest.Length == 5 && buffer.Length == BLOCK_BYTES
      modifies this, digest
      ensures Valid() && msg == []
    {
      digest[0], digest[1], digest[2] := 0x67452301, 0xefcdab89, 0x98badcfe;
      digest[3], digest[4] := 0x10325476, 0xc3d2e1f0;
      bufSize, transforms, msg, blocks := 0, 0, [], 0;
    }

    method Update(s: seq<byte>)
      requires Valid()
      modifies this, digest, buffer
      ensures Valid() && msg == old(msg) + s
    {
      hide HashBlocks;
      var rest := s;
      while true
        invariant Valid() && msg + rest == old(msg) + s
        decreases |rest|
      {
        var n := if |rest| < BLOCK_BYTES - bufSize then |rest| else BLOCK_BYTES - bufSize;
        Fill(rest[..n]);
        assert rest == rest[..n] + rest[n..];
        rest := rest[n..];
        if bufSize != BLOCK_BYTES {
          return;
        }
        HashBuffer();
      }
    }

    method Fill(part: seq<byte>)
      requires Consistent() && bufSize + |part| <= BLOCK_BYTES
      modifies this, buffer
      ensures Consistent() && msg == old(msg) + part && bufSize == old(bufSize) + |part|
    {
      hide HashBlocks;
      for i := 0 to |part|
        invariant buffer[..bufSize] == old(buffer[..bufSize])
        invariant buffer[bufSize..bufSize + i] == part[..i]
        modifies buffer
      {
        buffer[bufSize + i] := part[i];
      }
      msg, bufSize := msg + part, bufSize + |part|;
      assert msg[..BLOCK_BYTES * blocks] == old(msg[..BLOCK_BYTES * blocks]);
      assert msg[BLOCK_BYTES * blocks..] == old(msg[BLOCK_BYTES * blocks..]) + part;
      assert buffer[..bufSize] == old(buffer[..bufSize]) + part;
    }

    method HashBuffer()
      requires Consistent() && bufSize == BLOCK_BYTES
      modifies this, digest
      ensures Valid() && bufSize == 0 && msg == old(msg)
    {
      hide HashBlocks;
      ghost var n := BLOCK_BYTES * blocks;
      assert msg == msg[..n] + buffer[..];
      Transform(msg[..n]);
      CountNext(blocks);
      transforms := (transforms + 1) % LENGTHS;
      bufSize, blocks := 0, blocks + 1;
      assert BLOCK_BYTES * blocks == |msg| && msg[..|msg|] == msg;
    }

    /** Hashes the whole buffer as one block. */
    method Transform(ghost hashed: seq<byte>)
      requires digest.Length == 5 && buffer.Length == BLOCK_BYTES
      requires RegsOf(digest) == HashBlocks(hashed)
      modifies digest
      ensures RegsOf(digest) == HashBlocks(hashed + buffer[..])
    {
      hide HashBlocks, Compress;
      var block := new Word[BLOCK_INTS];
      BufferToBlock(buffer, block);
      NextBlock(hashed, buffer[..]);
      DoTransform(digest, block);
    }

    /** The digest as 20 bytes; the object is then ready for another message. */
    method Finalize() returns (out: seq<byte>)
      requires Valid()
      modifies this, digest, buffer
      ensures Valid() && msg == [] && out == DigestBytes(Sha1(old(msg)))
    {
      hide HashBlocks;
      var total := TotalBits();
      ghost var hashed, tail := msg[..BLOCK_BYTES * blocks], msg[BLOCK_BYTES * blocks..];
      assert msg == hashed + tail;
      Pad();
      HashPadded(total, hashed, blocks, tail);
      out := Output(digest);
      Reset();
    }

    method TotalBits() returns (total: nat)
      requires Valid()
      ensures total == 8 * |msg| % LENGTHS
    {
      hide HashBlocks;
      WrappedBits(blocks, bufSize);
      total := (transforms * BLOCK_BYTES + bufSize) * 8 % LENGTHS;
    }

    /** One block if the length still fits behind the padding, otherwise two. */
    method HashPadded(total: nat, ghost hashed: seq<byte>, ghost n: nat, ghost tail: seq<byte>)
      requires digest.Length == 5 && buffer.Length == BLOCK_BYTES
      requires |hashed| == BLOCK_BYTES * n && |tail| < BLOCK_BYTES && bufSize == |tail| + 1
      requires buffer[..] == tail + [0x80] + Zeros(63 - |tail|)
      requires RegsOf(digest) == HashBlocks(hashed) && total == 8 * |hashed + tail| % LENGTHS
      modifies digest
      ensures RegsOf(digest) == Sha1(hashed + tail)
    {
      hide HashBlocks, Compress;
      PaddedMessage(hashed, n, tail, total);
      ghost var front := if |tail| < 56 then tail + [0x80] + Zeros(55 - |tail|) else Zeros(56);
      var block := new Word[BLOCK_INTS];
      BufferToBlock(buffer, block);
      ghost var before := hashed;
      if bufSize > BLOCK_BYTES - 8 {
        NextBlock(hashed, buffer[..]);
        DoTransform(digest, block);
        before := hashed + buffer[..];
        ClearWords(block);
        assert front + Zeros(8) == Zeros(BLOCK_BYTES);
      } else {
        assert buffer[..] == front + Zeros(8);
      }
      block[BLOCK_INTS - 1] := total % WORDS;
      block[BLOCK_INTS - 2] := total / WORDS;
      LastWords(front, Zeros(8), total);
      assert block[..] == BlockOf(front + ToBigEndian(total, 8));
      NextBlock(before, front + ToBigEndian(total, 8));
      DoTransform(digest, block);
    }

    method Pad()
      requires Valid()
      modifies this`bufSize, buffer
      ensures bufSize == old(bufSize) + 1
      ensures buffer[..] == old(buffer[..bufSize]) + [0x80] + Zeros(63 - old(bufSize))
    {
      buffer[bufSize] := 0x80;
      bufSize := bufSize + 1;
      for i := bufSize to BLOCK_BYTES
        invariant buffer[..bufSize] == old(buffer[..bufSize]) + [0x80]
        invariant forall k :: bufSize <= k < i ==> buffer[k] == 0
        modifies buffer
      {
        buffer[i] := 0;
      }
    }
  }

  method ClearWords(block: array<Word>)
    requires block.Length == BLOCK_INTS
    modifies block
    ensures forall i :: 0 <= i < 14 ==> block[i] == BlockOf(Zeros(BLOCK_BYTES))[i]
  {
    for i := 0 to BLOCK_INTS - 2
      invariant forall k :: 0 <= k < i ==> block[k] == 0
    {
      block[i] := 0;
    }
    forall i | 0 <= i < 14
      ensures block[i] == BlockOf(Zeros(BLOCK_BYTES))[i]
    {
      ZeroBlock(i);
    }
  }

  method Output(digest: array<Word>) returns (out: seq<byte>)
    requires digest.Length == 5
    ensures out == DigestBytes(RegsOf(digest))
  {
    out := [];
    for i := 0 to 5
      invariant out == WordBytes(digest[..i])
    {
      var v := digest[i];
      ToBigEndianFour(v);
      assert digest[..i + 1][..i] == digest[..i];
      out := out + [v / 0x100_0000 % 256, v / 0x1_0000 % 256, v / 256 % 256, v % 256];
    }
    assert digest[..5] == [digest[0], digest[1], digest[2], digest[3], digest[4]];
  }

  /** A message given in any number of pieces of any sizes. */
  method HashPieces(pieces: seq<seq<byte>>) returns (out: seq<byte>)
    ensures out == DigestBytes(Sha1(Flatten(pieces)))
  {
    hide HashBlocks, Sha1, Flatten, DigestBytes;
    var hash := new SHA1();
    assert pieces[0..] == pieces && hash.msg + Flatten(pieces) == Flatten(pieces);
    for i := 0 to |pieces|
      invariant hash.Valid() && fresh(hash) && fresh(hash.digest) && fresh(hash.buffer)
      invariant hash.msg + Flatten(pieces[i..]) == Flatten(pieces)
    {
      FlattenFrom(pieces, i);
      hash.Update(pieces[i]);
    }
    FlattenNone(pieces[|pieces|..]);
    assert hash.msg + [] == hash.msg;
    out := hash.Finalize();
  }
}
