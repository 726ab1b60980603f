/** From the writer of one end to the connection object of the other. */
module WebSocketExchange {
  import opened Bytes
  import opened WebSocketSpec
  import opened WebSocketReceive
  import opened WebSocketClosing
  import opened WebSocketChunking
  import opened WebSocketRoundTrip
  import opened WebSocketWriter
  import opened WebSocketConnection

  /** With the receiver's limit below this, no length within it makes the size check wrap. */
  const HALF_LIMIT := 0x8000_0000_0000_0000

  lemma FrameFits(cfg: Config, c: Conn, opcode: byte, key: seq<byte>, data: seq<byte>, rest: seq<byte>)
    requires Between(cfg, c) && opcode / 16 % 8 == 0 && |key| == 4
    requires |data| < HALF_LIMIT && cfg.maxSize < HALF_LIMIT
    ensures var o := FrameOutcome(cfg, c, opcode, key, data);
            && Next(cfg, o)
            && (ResumeFits(cfg, o, rest) ==> Fits(cfg, c, FrameBytes(!cfg.server, opcode, key, data) + rest))
  {
    var sent := if cfg.server then Mask(key, data) else data;
    ReceiveFrame(cfg, c, opcode, key, data, rest);
    BytesSplit(!cfg.server, opcode, key, data, rest);
    ReadHeader(cfg, c, opcode, key, |data|, sent + rest);
    HeaderReadOutcome(cfg, c, opcode, key, |data|);
    var d := HeaderRead(cfg, c, opcode, key, |data|);
    hide Fits, Run, FrameBytes, FullHeader, Mask;
    if |c.payload| + |data| <= cfg.maxSize {
      UnmaskSent(cfg, d, key, data, sent);
      if data == [] {
        assert sent == [] && sent + rest == rest && d.payload + sent == d.payload;
      } else {
        PayloadEnd(cfg, d, sent, rest);
      }
    }
  }

  lemma BetweenAgain(cfg: Config, c: Conn, opcode: byte, key: seq<byte>, data: seq<byte>)
    requires Between(cfg, c)
    ensures var o := FrameOutcome(cfg, c, opcode, key, data); !o.stop ==> Between(cfg, o.conn)
  {
    var d := HeaderRead(cfg, c, opcode, key, |data|);
    if |c.payload| + |data| <= cfg.maxSize {
      DeliverReady(cfg, d.(payload := c.payload + data), opcode >= FLAG_FIN, opcode % 16);
    }
  }

  /** Written frames keep the size check from wrapping, whatever the receiver has made of those before. */
  lemma {:induction false} WireFits(cfg: Config, c: Conn, frames: seq<Frame>, kind: byte)
    requires Between(cfg, c) && Legal(frames, kind) && cfg.maxSize < HALF_LIMIT
    requires forall i :: 0 <= i < |frames| ==> |frames[i].data| <= cfg.maxSize
    ensures Fits(cfg, c, Wire(!cfg.server, frames, kind))
    decreases |frames|
  {
    if frames != [] {
      var f, rest := frames[0], frames[1..];
      var o := FrameOutcome(cfg, c, OpcodeByte(f), f.key, f.data);
      BetweenAgain(cfg, c, OpcodeByte(f), f.key, f.data);
      FrameFits(cfg, c, OpcodeByte(f), f.key, f.data, Wire(!cfg.server, rest, KindAfter(f, kind)));
      hide FrameOutcome, Fits, FrameBytes;
      if !o.stop {
        WireFits(cfg, o.conn, rest, KindAfter(f, kind));
      }
    }
  }

  lemma {:induction false} LimitEach(cfg: Config, frames: seq<Frame>, held: seq<byte>)
    requires WithinLimit(cfg, frames, held)
    ensures forall i :: 0 <= i < |frames| ==> |frames[i].data| <= cfg.maxSize
    decreases |frames|
  {
    if frames != [] {
      LimitEach(cfg, frames[1..], HeldAfter(cfg, frames[0], held));
    }
  }

  lemma {:induction false} FitsSplit(cfg: Config, c: Conn, a: seq<byte>, b: seq<byte>)
    requires Ready(cfg, c) && Fits(cfg, c, a + b)
    ensures Fits(cfg, c, a)
    ensures Valid(cfg, Run(cfg, c, a)) && (!Run(cfg, c, a).state.Over() ==> Fits(cfg, Run(cfg, c, a), b))
    decreases |a|
  {
    RunValid(cfg, c, a);
    if a == [] {
      assert a + b == b;
    } else {
      assert (a + b)[0] == a[0] && (a + b)[1..] == a[1..] + b;
      StepReady(cfg, c, a[0]);
      var o := Step(cfg, c, a[0]);
      if !o.stop {
        FitsSplit(cfg, o.conn, a[1..], b);
      }
    }
  }

  /**
   * The bytes of written frames, cut in any way, given to the connection's own handler: it
   * raises exactly the signals the frames stand for iff no control frame comes while bytes
   * of a combined message are held.
   */
  method ReceiveWritten(ws: WebSocket, chunks: seq<seq<byte>>, ghost frames: seq<Frame>, ghost outs: seq<Outgoing>)
    requires Holding(ws.cfg, ws.Abs(), 0, []) && Orderly(ws.Abs()) && ws.cfg.maxSize < HALF_LIMIT
    requires Legal(frames, 0) && WithinLimit(ws.cfg, frames, []) && |outs| == |frames|
    requires forall i :: 0 <= i < |frames| ==> Same(frames[i], outs[i])
    requires forall f :: f in outs ==> |f.key| == 4
    requires Flatten(chunks) == BytesOf(!ws.cfg.server, outs)
    modifies ws
    ensures ws.log == old(ws.log) + Meaning(ws.cfg, frames, 0, []) <==> ControlsApart(ws.cfg, frames, [])
  {
    ghost var cfg, c := ws.cfg, ws.Abs();
    WrittenIsWire(!cfg.server, frames, 0, outs);
    WrittenIsReceived(cfg, c, frames, outs, chunks);
    LimitEach(cfg, frames, []);
    WireFits(cfg, c, frames, 0);
    assert chunks[0..] == chunks;
    hide Fits, Run, Ready, Meaning, ControlsApart, Wire, BytesOf, Legal, WithinLimit;
    for i := 0 to |chunks|
      invariant Valid(cfg, ws.Abs()) && ws.state != CONNECTING
      invariant ReceiveAll(cfg, ws.Abs(), chunks[i..]) == ReceiveAll(cfg, c, chunks)
      invariant !ws.state.Over() ==> Fits(cfg, ws.Abs(), Flatten(chunks[i..]))
    {
      FlattenFrom(chunks, i);
      assert chunks[i..][1..] == chunks[i + 1..];
      if !ws.state.Over() {
        FitsSplit(cfg, ws.Abs(), chunks[i], Flatten(chunks[i + 1..]));
        NotConnecting(cfg, ws.Abs(), chunks[i]);
      }
      ws.HandleIncoming(chunks[i]);
    }
  }

  lemma NotConnecting(cfg: Config, c: Conn, data: seq<byte>)
    requires Ready(cfg, c) && c.state != CONNECTING
    ensures Run(cfg, c, data).state != CONNECTING
  {
    RunGrows(cfg, c, data);
  }
}
