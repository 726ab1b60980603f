/**
 * Writing frames. Clients copy and mask the data; servers pass the user's
 * buffers on and pack the frame headers into shared 4096-byte buffers, so a
 * later header must not disturb the earlier ones that still wait to be sent.
 */
module WebSocketWriter {
  import opened Bytes
  import opened Endian
  import opened WebSocketSpec
  import opened WebSocketClosing
  import opened WebSocketChunking
  import opened WebSocketRoundTrip

  const BLOCK: nat := 4096

  /** What goes to the stream: part of a header block, a masked copy, or a buffer of the user. */
  datatype Slice =
    | Header(buf: array<byte>, off: nat, len: nat)
    | Copy(data: seq<byte>)
    | User(data: seq<byte>)

  datatype Outgoing = Outgoing(opcode: byte, key: seq<byte>, data: seq<seq<byte>>)

  function BytesOf(server: bool, frames: seq<Outgoing>): seq<byte>
    requires forall f :: f in frames ==> |f.key| == 4
  {
    if frames == [] then []
    else
      var f := frames[0];
      FrameBytes(server, f.opcode, f.key, Flatten(f.data)) + BytesOf(server, frames[1..])
  }

  lemma BytesOfFrom(server: bool, frames: seq<Outgoing>, i: nat)
    requires i < |frames| && forall f :: f in frames ==> |f.key| == 4
    ensures BytesOf(server, frames[i..])
         == FrameBytes(server, frames[i].opcode, frames[i].key, Flatten(frames[i].data))
            + BytesOf(server, frames[i + 1..])
  {
    assert frames[i..][1..] == frames[i + 1..];
  }

  /** A frame as it is handed to the writer, its data in any number of buffers. */
  ghost predicate Same(f: Frame, out: Outgoing) {
    f.opcode < 16 && out == Outgoing(OpcodeByte(f), f.key, out.data) && f.data == Flatten(out.data)
  }

  lemma {:induction false} WrittenIsWire(server: bool, frames: seq<Frame>, kind: byte, outs: seq<Outgoing>)
    requires Legal(frames, kind) && |outs| == |frames|
    requires forall i :: 0 <= i < |frames| ==> Same(frames[i], outs[i])
    ensures (forall f :: f in outs ==> |f.key| == 4) && BytesOf(server, outs) == Wire(server, frames, kind)
    decreases |frames|
  {
    if frames != [] {
      WrittenIsWire(server, frames[1..], KindAfter(frames[0], kind), outs[1..]);
      assert Same(frames[0], outs[0]);
      assert outs == [outs[0]] + outs[1..];
    }
  }

  /**
   * From writer to receiver: whatever buffers the data of the frames comes in,
   * and however the written bytes are cut on their way, the receiver at the
   * other end raises exactly the signals the frames stand for, if and only if
   * no control frame comes while it holds bytes of a combined message.
   */
  lemma WrittenIsReceived(cfg: Config, c: Conn, frames: seq<Frame>, outs: seq<Outgoing>, chunks: seq<seq<byte>>)
    requires Holding(cfg, c, 0, []) && Orderly(c)
    requires Legal(frames, 0) && WithinLimit(cfg, frames, []) && |outs| == |frames|
    requires forall i :: 0 <= i < |frames| ==> Same(frames[i], outs[i])
    requires forall f :: f in outs ==> |f.key| == 4
    requires Flatten(chunks) == BytesOf(!cfg.server, outs)
    ensures ReceiveAll(cfg, c, chunks).log == c.log + Meaning(cfg, frames, 0, []) <==> ControlsApart(cfg, frames, [])
  {
    WrittenIsWire(!cfg.server, frames, 0, outs);
    RoundTripIff(cfg, c, frames, chunks);
  }

  class WriteReq {
    var internalBufs: seq<array<byte>>
    var internalBufPos: nat
    var bufs: seq<Slice>
    ghost var blocks: set<array<byte>>
    /** The bytes each slice stands for. */
    ghost var sent: seq<seq<byte>>

    constructor ()
      ensures Valid() && fresh(blocks) && bufs == [] && Flatten(sent) == []
    {
      internalBufs, internalBufPos, blocks, bufs, sent := [], 0, {}, [], [];
    }

    ghost predicate Valid()
      reads this, blocks
    {
      && |bufs| == |sent| && blocks == (set b | b in internalBufs)
      && (forall i :: 0 <= i < |internalBufs| ==> internalBufs[i].Length == BLOCK)
      && (forall i, j :: 0 <= i < j < |internalBufs| ==> internalBufs[i] != internalBufs[j])
      && internalBufPos <= BLOCK
      && forall i :: 0 <= i < |bufs| ==> Holds(bufs[i], sent[i])
    }

    /** The slice still reads as `data` and lies before the free part of the last block. */
    ghost predicate Holds(s: Slice, data: seq<byte>)
      reads this, blocks
    {
      match s
      case Header(buf, off, len) =>
        && buf in blocks && off + len <= buf.Length
        && (internalBufs != [] && buf == internalBufs[|internalBufs| - 1] ==> off + len <= internalBufPos)
        && len == |data| && forall k :: 0 <= k < len ==> buf[off + k] == data[k]
      case Copy(d) => d == data
      case User(d) => d == data
    }

    method WriteFrame(server: bool, opcode: byte, key: seq<byte>, data: seq<seq<byte>>)
      requires Valid() && |key| == 4 && |Flatten(data)| < SIZE_LIMIT
      modifies this, blocks
      ensures Valid() && fresh(blocks - old(blocks))
      ensures Flatten(sent) == old(Flatten(sent)) + FrameBytes(server, opcode, key, Flatten(data))
    {
      var size := TotalSize(data);
      var header, headerSize := MakeHeader(server, opcode, size);
      if !server {
        var copy := header[..headerSize] + key;
        var masked := MaskAll(key, data);
        AddCopy(copy + masked);
        assert copy + masked == header[..headerSize] + (key + masked);
      } else {
        AddHeader(header, headerSize);
        AddUser(data);
      }
    }

    /** The next frame of a request. */
    method WriteNext(server: bool, frames: seq<Outgoing>, i: nat)
      requires Valid() && i < |frames|
      requires forall f :: f in frames ==> |f.key| == 4 && |Flatten(f.data)| < SIZE_LIMIT
      modifies this, blocks
      ensures Valid() && fresh(blocks - old(blocks))
      ensures Flatten(sent) + BytesOf(server, frames[i + 1..]) == old(Flatten(sent)) + BytesOf(server, frames[i..])
    {
      BytesOfFrom(server, frames, i);
      WriteFrame(server, frames[i].opcode, frames[i].key, frames[i].data);
    }

    method AddCopy(d: seq<byte>)
      requires Valid()
      modifies this
      ensures Valid() && internalBufs == old(internalBufs) && blocks == old(blocks)
      ensures Flatten(sent) == old(Flatten(sent)) + d
    {
      FlattenPush(sent, d);
      bufs, sent := bufs + [Copy(d)], sent + [d];
    }

    method AddUser(data: seq<seq<byte>>)
      requires Valid()
      modifies this
      ensures Valid() && internalBufs == old(internalBufs) && blocks == old(blocks)
      ensures Flatten(sent) == old(Flatten(sent)) + Flatten(data)
    {
      FlattenAppend(sent, data);
      bufs := bufs + seq(|data|, i requires 0 <= i < |data| => User(data[i]));
      sent := sent + data;
    }

    /** Packs the header into the current block, or into a new one if it does not fit. */
    method AddHeader(header: array<byte>, headerSize: nat)
      requires Valid() && headerSize <= header.Length && headerSize <= BLOCK && header !in blocks
      modifies this, blocks
      ensures Valid() && fresh(blocks - old(blocks))
      ensures Flatten(sent) == old(Flatten(sent)) + header[..headerSize]
    {
      if internalBufs == [] || internalBufPos + headerSize > BLOCK {
        AddBlock();
      }
      PackHeader(header, headerSize);
    }

    method PackHeader(header: array<byte>, headerSize: nat)
      requires Valid() && internalBufs != [] && internalBufPos + headerSize <= BLOCK
      requires headerSize <= header.Length && header !in blocks
      modifies this, internalBufs[|internalBufs| - 1]
      ensures Valid() && internalBufs == old(internalBufs) && blocks == old(blocks)
      ensures Flatten(sent) == old(Flatten(sent)) + old(header[..headerSize])
    {
      var buf := internalBufs[|internalBufs| - 1];
      var pos := internalBufPos;
      ghost var h := header[..headerSize];
      CopyInto(buf, pos, header, headerSize);
      FlattenPush(sent, h);
      bufs, sent := bufs + [Header(buf, pos, headerSize)], sent + [h];
      internalBufPos := pos + headerSize;
    }

    /** Copying to the free part of a block leaves the part before it alone. */
    method CopyInto(buf: array<byte>, pos: nat, src: array<byte>, n: nat)
      requires buf != src && n <= src.Length && pos + n <= buf.Length
      modifies buf
      ensures forall k :: 0 <= k < pos ==> buf[k] == old(buf[k])
      ensures forall k :: 0 <= k < n ==> buf[pos + k] == old(src[k])
    {
      for i := 0 to n
        invariant forall k :: 0 <= k < pos ==> buf[k] == old(buf[k])
        invariant forall k :: 0 <= k < i ==> buf[pos + k] == src[k]
      {
        buf[pos + i] := src[i];
      }
    }

    method AddBlock()
      requires Valid()
      modifies this
      ensures Valid() && internalBufs != [] && internalBufPos == 0
      ensures bufs == old(bufs) && sent == old(sent)
      ensures blocks == old(blocks) + {internalBufs[|internalBufs| - 1]} && fresh(blocks - old(blocks))
    {
      var block := new byte[BLOCK];
      internalBufs, internalBufPos, blocks := internalBufs + [block], 0, blocks + {block};
    }
  }

  method MakeHeader(server: bool, opcode: byte, size: nat) returns (header: array<byte>, headerSize: nat)
    requires size < SIZE_LIMIT
    ensures fresh(header) && headerSize <= header.Length == 10
    ensures header[..headerSize] == FrameHeader(!server, opcode, size)
  {
    header := new byte[10];
    var flag := if server then 0 else FLAG_MASKING;
    header[0] := opcode;
    if size < 126 {
      header[1] := flag + size;
      headerSize := 2;
    } else if size <= 0xffff {
      header[1] := flag + 126;
      header[2] := size / 256 % 256;
      header[3] := size % 256;
      headerSize := 4;
      assert ToBigEndian(size, 2) == [size / 256 % 256] + [size % 256];
    } else {
      header[1] := flag + 127;
      header[2] := size / 0x100_0000_0000_0000 % 256;
      header[3] := size / 0x1_0000_0000_0000 % 256;
      header[4] := size / 0x100_0000_0000 % 256;
      header[5] := size / 0x1_0000_0000 % 256;
      header[6] := size / 0x100_0000 % 256;
      header[7] := size / 0x1_0000 % 256;
      header[8] := size / 256 % 256;
      header[9] := size % 256;
      headerSize := 10;
      EightBytes(size);
    }
  }

  lemma MaskPush(key: seq<byte>, done: seq<byte>, b: byte)
    requires |key| == 4
    ensures Mask(key, done + [b]) == Mask(key, done) + [Xor(b, key[|done| % 4])]
  {
  }

  /** One counter runs through all the buffers, so the mask does not restart at a buffer's edge. */
  method MaskAll(key: seq<byte>, data: seq<seq<byte>>) returns (masked: seq<byte>)
    requires |key| == 4
    ensures masked == Mask(key, Flatten(data))
  {
    masked := [];
    ghost var done := [];
    var n := 0;
    for i := 0 to |data|
      invariant Flatten(data) == done + Flatten(data[i..])
      invariant masked == Mask(key, done) && n == |done| % 4
    {
      ghost var before := done;
      for j := 0 to |data[i]|
        invariant done == before + data[i][..j]
        invariant masked == Mask(key, done) && n == |done| % 4
      {
        MaskPush(key, done, data[i][j]);
        masked := masked + [Xor(data[i][j], key[n])];
        done := done + [data[i][j]];
        n := n + 1;
        if n >= 4 {
          n := 0;
        }
      }
      assert data[i][..|data[i]|] == data[i];
      assert data[i..][1..] == data[i + 1..];
    }
    assert done + Flatten(data[|data|..]) == done;
  }

  /** All the frames of one request, in one write. */
  method WriteFrames(server: bool, frames: seq<Outgoing>) returns (req: WriteReq)
    requires forall f :: f in frames ==> |f.key| == 4 && |Flatten(f.data)| < SIZE_LIMIT
    ensures req.Valid() && Flatten(req.sent) == BytesOf(server, frames)
  {
    req := new WriteReq();
    for i := 0 to |frames|
      invariant req.Valid() && fresh(req) && fresh(req.blocks)
      invariant Flatten(req.sent) + BytesOf(server, frames[i..]) == BytesOf(server, frames)
    {
      req.WriteNext(server, frames, i);
    }
  }
}
