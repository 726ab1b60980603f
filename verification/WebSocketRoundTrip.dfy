/** What the receiver makes of the bytes the sender writes, sections 5.2 to 5.5 of RFC 6455. */
module WebSocketRoundTrip {
  import opened Bytes
  import opened Endian
  import opened WebSocketSpec
  import opened WebSocketReceive
  import opened WebSocketClosing
  import opened WebSocketChunking

  // The wire form of a frame

  function FrameHeader(masked: bool, opcode: byte, size: nat): seq<byte> {
    var flag := if masked then FLAG_MASKING else 0;
    if size < 126 then [opcode, flag + size]
    else if size <= 0xffff then [opcode, flag + 126] + ToBigEndian(size, 2)
    else [opcode, flag + 127] + ToBigEndian(size, 8)
  }

  /** Clients mask with `key`, servers do not mask. */
  function FrameBytes(server: bool, opcode: byte, key: seq<byte>, data: seq<byte>): seq<byte>
    requires |key| == 4
  {
    FrameHeader(!server, opcode, |data|) + (if server then data else key + Mask(key, data))
  }

  function FullHeader(masked: bool, opcode: byte, size: nat, key: seq<byte>): seq<byte> {
    FrameHeader(masked, opcode, size) + if masked then key else []
  }

  lemma HeaderDecodes(masked: bool, opcode: byte, size: nat, key: seq<byte>)
    requires |key| == 4 && size < SIZE_LIMIT
    ensures var h := FullHeader(masked, opcode, size, key);
            && Complete(h) && FrameLength(h) == size && h[0] == opcode && Masked(h[1]) == masked
            && (masked ==> h[|h| - 4..] == key)
  {
    var h := FullHeader(masked, opcode, size, key);
    if 126 <= size <= 0xffff {
      assert Pow256(2) == 0x1_0000;
      BigEndianRoundTrip(size, 2);
      assert h[2..4] == ToBigEndian(size, 2);
    } else if size > 0xffff {
      assert Pow256(8) == SIZE_LIMIT;
      BigEndianRoundTrip(size, 8);
      assert h[2..10] == ToBigEndian(size, 8);
    }
  }

  /** The shortest of the three forms that holds the size, byte by byte. */
  lemma ShortestForm(masked: bool, opcode: byte, size: nat)
    requires size < SIZE_LIMIT
    ensures var mask := if masked then 128 else 0;
            FrameHeader(masked, opcode, size) ==
            if size <= 125 then [opcode, mask + size]
            else if size <= 65535 then [opcode, mask + 126, size / 256, size % 256]
            else [opcode, mask + 127,
                  size / 0x100_0000_0000_0000, size / 0x1_0000_0000_0000 % 256,
                  size / 0x100_0000_0000 % 256, size / 0x1_0000_0000 % 256,
                  size / 0x100_0000 % 256, size / 0x1_0000 % 256, size / 256 % 256, size % 256]
  {
    hide ToBigEndian;
    EightBytes(size);
    ToBigEndianTwo(size);
    TopByte(size);
  }

  lemma TopByte(n: nat)
    requires n < SIZE_LIMIT
    ensures n / 0x100_0000_0000_0000 < 256
  {
  }

  lemma MaskTwice(key: seq<byte>, data: seq<byte>)
    requires |key| == 4
    ensures Mask(key, Mask(key, data)) == data
  {
    forall i | 0 <= i < |data|
      ensures Xor(Xor(data[i], key[i % 4]), key[i % 4]) == data[i]
    {
      XorTwice(data[i], key[i % 4]);
    }
  }

  // Receiving one frame

  /** Waiting for the first byte of a header. */
  ghost predicate Between(cfg: Config, c: Conn) {
    Ready(cfg, c) && c.header == [] && c.frameSize == NO_FRAME
  }

  /** `c` with the frame's header read. */
  ghost function HeaderRead(cfg: Config, c: Conn, opcode: byte, key: seq<byte>, size: nat): Conn {
    var h := FullHeader(cfg.server, opcode, size, key);
    c.(header := h, headerSize := |h|, frameSize := size)
  }

  ghost function FrameOutcome(cfg: Config, c: Conn, opcode: byte, key: seq<byte>, data: seq<byte>): Outcome {
    var d := HeaderRead(cfg, c, opcode, key, |data|);
    if |c.payload| + |data| > cfg.maxSize then Rejected(d, 1009, "message too large")
    else Deliver(cfg, d.(payload := c.payload + data), opcode >= FLAG_FIN, opcode % 16)
  }

  lemma ReadHeader(cfg: Config, c: Conn, opcode: byte, key: seq<byte>, size: nat, rest: seq<byte>)
    requires Between(cfg, c) && opcode / 16 % 8 == 0
    requires |key| == 4 && size < SIZE_LIMIT
    ensures var h := FullHeader(cfg.server, opcode, size, key);
            && Complete(h)
            && var o := HeaderDone(cfg, c.(header := h, headerSize := |h|));
            && Next(cfg, o) && Run(cfg, c, h + rest) == Resume(cfg, o, rest)
            && (Fits(cfg, c, h + rest) <==> ResumeFits(cfg, o, rest) && |c.payload| + size < SIZE_LIMIT)
  {
    var h := FullHeader(cfg.server, opcode, size, key);
    HeaderDecodes(cfg.server, opcode, size, key);
    hide FullHeader;
    if |h| == 2 {
      ReadShort(cfg, c, h, rest);
    } else {
      ReadLong(cfg, c, h, rest);
    }
  }

  /** A header of two bytes. */
  lemma ReadShort(cfg: Config, c: Conn, h: seq<byte>, rest: seq<byte>)
    requires Between(cfg, c) && Complete(h) && |h| == 2 == HeaderSize(h[1])
    requires h[0] / 16 % 8 == 0 && Masked(h[1]) == cfg.server
    ensures var o := HeaderDone(cfg, c.(header := h, headerSize := |h|));
            && Next(cfg, o) && Run(cfg, c, h + rest) == Resume(cfg, o, rest)
            && (Fits(cfg, c, h + rest) <==> ResumeFits(cfg, o, rest) && |c.payload| + FrameLength(h) < SIZE_LIMIT)
  {
    ReadStart(cfg, c, h, rest);
  }

  /** A longer header: its first two bytes, and then the rest of it. */
  lemma ReadLong(cfg: Config, c: Conn, h: seq<byte>, rest: seq<byte>)
    requires Between(cfg, c) && Complete(h) && |h| > 2 && |h| == HeaderSize(h[1])
    requires h[0] / 16 % 8 == 0 && Masked(h[1]) == cfg.server
    ensures var o := HeaderDone(cfg, c.(header := h, headerSize := |h|));
            && Next(cfg, o) && Run(cfg, c, h + rest) == Resume(cfg, o, rest)
            && (Fits(cfg, c, h + rest) <==> ResumeFits(cfg, o, rest) && |c.payload| + FrameLength(h) < SIZE_LIMIT)
  {
    hide Run, Fits, HeaderDone, FrameLength;
    var start, more := h[..2], h[2..];
    var d := c.(header := start, headerSize := |h|);
    assert h + rest == start + (more + rest) && start + more == h;
    ReadStart(cfg, c, start, more + rest);
    HeaderEnd(cfg, d, more, rest);
  }

  lemma ReadStart(cfg: Config, c: Conn, start: seq<byte>, rest: seq<byte>)
    requires Between(cfg, c) && |start| == 2
    requires start[0] / 16 % 8 == 0 && Masked(start[1]) == cfg.server
    ensures var d := c.(header := start, headerSize := HeaderSize(start[1]));
            var o := if d.headerSize == 2 then HeaderDone(cfg, d) else Outcome(d, false);
            && Next(cfg, o) && Run(cfg, c, start + rest) == Resume(cfg, o, rest)
            && (Complete(start) <==> d.headerSize == 2)
            && (Fits(cfg, c, start + rest) <==>
                  && ResumeFits(cfg, o, rest)
                  && (Complete(start) ==> |c.payload| + FrameLength(start) < SIZE_LIMIT))
  {
    HeaderEnd(cfg, c, start, rest);
    assert [] + start == start;
  }

  lemma ReadPayload(cfg: Config, d: Conn, key: seq<byte>, data: seq<byte>, rest: seq<byte>)
    requires cfg.maxSize < NO_FRAME && d.frameStart == |d.payload| && |d.payload| + |data| <= cfg.maxSize
    requires Complete(d.header) && d.headerSize == |d.header| && d.frameSize == |data| && |key| == 4
    requires Masked(d.header[1]) == cfg.server && (cfg.server ==> d.header[|d.header| - 4..] == key)
    ensures var sent := if cfg.server then Mask(key, data) else data;
            var o := Deliver(cfg, d.(payload := d.payload + data), d.header[0] >= FLAG_FIN, d.header[0] % 16);
            var p := if data == [] then FrameDone(cfg, d) else Outcome(d, false);
            && Next(cfg, o) && Next(cfg, p) && Resume(cfg, p, sent + rest) == Resume(cfg, o, rest)
  {
    var sent := if cfg.server then Mask(key, data) else data;
    UnmaskSent(cfg, d, key, data, sent);
    FrameDoneReady(cfg, d.(payload := d.payload + sent));
    if data == [] {
      assert sent + rest == rest && d.payload + sent == d.payload;
    } else {
      PayloadEnd(cfg, d, sent, rest);
    }
  }

  lemma BytesSplit(server: bool, opcode: byte, key: seq<byte>, data: seq<byte>, rest: seq<byte>)
    requires |key| == 4
    ensures var sent := if server then data else Mask(key, data);
            FrameBytes(server, opcode, key, data) + rest == FullHeader(!server, opcode, |data|, key) + (sent + rest)
  {
  }

  lemma HeaderReadOutcome(cfg: Config, c: Conn, opcode: byte, key: seq<byte>, size: nat)
    requires Between(cfg, c) && |key| == 4 && size < SIZE_LIMIT
    ensures var d := HeaderRead(cfg, c, opcode, key, size);
            && Complete(d.header) && Masked(d.header[1]) == cfg.server && d.header[0] == opcode
            && (cfg.server ==> d.header[|d.header| - 4..] == key)
            && HeaderDone(cfg, d.(frameSize := NO_FRAME)) ==
               if |c.payload| + size > cfg.maxSize then Rejected(d, 1009, "message too large")
               else if size == 0 then FrameDone(cfg, d) else Outcome(d, false)
  {
    HeaderDecodes(cfg.server, opcode, size, key);
  }

  lemma ReceiveFrame(cfg: Config, c: Conn, opcode: byte, key: seq<byte>, data: seq<byte>, rest: seq<byte>)
    requires Between(cfg, c) && opcode / 16 % 8 == 0
    requires |key| == 4 && |data| < SIZE_LIMIT
    ensures var o := FrameOutcome(cfg, c, opcode, key, data);
            && Next(cfg, o)
            && Run(cfg, c, FrameBytes(!cfg.server, opcode, key, data) + rest) == Resume(cfg, o, rest)
  {
    var sent := if cfg.server then Mask(key, data) else data;
    BytesSplit(!cfg.server, opcode, key, data, rest);
    ReadHeader(cfg, c, opcode, key, |data|, sent + rest);
    HeaderReadOutcome(cfg, c, opcode, key, |data|);
    var d := HeaderRead(cfg, c, opcode, key, |data|);
    if |c.payload| + |data| <= cfg.maxSize {
      ReadPayload(cfg, d, key, data, rest);
    }
  }

  lemma UnmaskSent(cfg: Config, d: Conn, key: seq<byte>, data: seq<byte>, sent: seq<byte>)
    requires Complete(d.header) && d.frameStart == |d.payload| && |key| == 4
    requires Masked(d.header[1]) == cfg.server
    requires cfg.server ==> d.header[|d.header| - 4..] == key
    requires sent == if cfg.server then Mask(key, data) else data
    ensures Unmasked(d.(payload := d.payload + sent)) == d.payload + data
  {
    MaskTwice(key, data);
    var p := d.payload + sent;
    assert p[..d.frameStart] == d.payload && p[d.frameStart..] == sent;
  }

  // Sequences of frames

  datatype Frame = Frame(fin: bool, opcode: byte, key: seq<byte>, data: seq<byte>)

  predicate IsControl(f: Frame) {
    f.opcode == OP_PING || f.opcode == OP_PONG
  }

  function OpcodeByte(f: Frame): byte
    requires f.opcode < 16
  {
    (if f.fin then FLAG_FIN else 0) + f.opcode
  }

  /**
   * A sequence that sections 5.4 and 5.5 of RFC 6455 allow while a message of
   * type `kind` is unfinished (0: none): continuations only inside a message,
   * whole control frames anywhere.
   */
  predicate Legal(frames: seq<Frame>, kind: byte) {
    frames == [] ||
    var f := frames[0];
    && |f.key| == 4
    && if IsControl(f) then f.fin && Legal(frames[1..], kind)
       else
         && f.opcode == (if kind != 0 then OP_CONT else if f.opcode == OP_TEXT then OP_TEXT else OP_BINARY)
         && Legal(frames[1..], KindAfter(f, kind))
  }

  function KindOf(f: Frame, kind: byte): byte {
    if kind != 0 then kind else f.opcode
  }

  function KindAfter(f: Frame, kind: byte): byte {
    if IsControl(f) then kind else if f.fin then 0 else KindOf(f, kind)
  }

  /** The bytes of the unfinished message that the receiver has to hold after `f`. */
  function HeldAfter(cfg: Config, f: Frame, held: seq<byte>): seq<byte> {
    if IsControl(f) then held else if f.fin || !cfg.combine then [] else held + f.data
  }

  /** The signals the frames stand for, `held` being what an unfinished message has so far. */
  function Meaning(cfg: Config, frames: seq<Frame>, kind: byte, held: seq<byte>): seq<Event> {
    if frames == [] then []
    else
      var f := frames[0];
      MeaningOf(cfg, f, kind, held) + Meaning(cfg, frames[1..], KindAfter(f, kind), HeldAfter(cfg, f, held))
  }

  function MeaningOf(cfg: Config, f: Frame, kind: byte, held: seq<byte>): seq<Event> {
    if f.opcode == OP_PING then [Ping(f.data)]
    else if f.opcode == OP_PONG then [Pong(f.data)]
    else if cfg.combine && !f.fin then []
    else [Message(KindOf(f, kind), held + f.data, f.fin)]
  }

  /** No message, whole or combined, is larger than the receiver's limit. */
  predicate WithinLimit(cfg: Config, frames: seq<Frame>, held: seq<byte>) {
    frames == [] ||
    var f := frames[0];
    && |f.data| + (if IsControl(f) then 0 else |held|) <= cfg.maxSize
    && WithinLimit(cfg, frames[1..], HeldAfter(cfg, f, held))
  }

  /** No control frame arrives while bytes of an unfinished message are held. */
  predicate ControlsApart(cfg: Config, frames: seq<Frame>, held: seq<byte>) {
    frames == [] ||
    var f := frames[0];
    && (IsControl(f) ==> held == [])
    && ControlsApart(cfg, frames[1..], HeldAfter(cfg, f, held))
  }

  function Wire(server: bool, frames: seq<Frame>, kind: byte): seq<byte>
    requires Legal(frames, kind)
  {
    if frames == [] then []
    else
      var f := frames[0];
      FrameBytes(server, OpcodeByte(f), f.key, f.data) + Wire(server, frames[1..], KindAfter(f, kind))
  }

  /** The receiver is between frames and holds `held` of a message of type `kind`. */
  ghost predicate Holding(cfg: Config, c: Conn, kind: byte, held: seq<byte>) {
    && Between(cfg, c) && !c.state.Over() && c.state != CONNECTING
    && kind in {0, OP_TEXT, OP_BINARY}
    && c.fragmentOpcode == kind && c.payload == held
  }

  /** A frame is understood unless it is a control frame arriving while bytes are held. */
  lemma FrameUnderstood(cfg: Config, c: Conn, frames: seq<Frame>, kind: byte, held: seq<byte>)
    requires Holding(cfg, c, kind, held) && frames != [] && Legal(frames, kind)
    requires WithinLimit(cfg, frames, held)
    requires IsControl(frames[0]) ==> held == []
    ensures var f := frames[0];
            var o := FrameOutcome(cfg, c, OpcodeByte(f), f.key, f.data);
            && !o.stop && Holding(cfg, o.conn, KindAfter(f, kind), HeldAfter(cfg, f, held))
            && o.conn.state == c.state && o.conn.log == c.log + MeaningOf(cfg, f, kind, held)
  {
    var f := frames[0];
    assert OpcodeByte(f) % 16 == f.opcode;
    var e := HeaderRead(cfg, c, OpcodeByte(f), f.key, |f.data|).(payload := c.payload + f.data);
    DeliverReady(cfg, e, f.fin, f.opcode);
    if IsControl(f) {
      assert held + f.data == f.data;
    }
  }

  lemma FrameArrives(cfg: Config, c: Conn, frames: seq<Frame>, kind: byte, held: seq<byte>) returns (d: Conn)
    requires Holding(cfg, c, kind, held) && frames != [] && Legal(frames, kind)
    requires WithinLimit(cfg, frames, held)
    requires IsControl(frames[0]) ==> held == []
    ensures var f := frames[0];
            && Holding(cfg, d, KindAfter(f, kind), HeldAfter(cfg, f, held))
            && d.state == c.state && d.log == c.log + MeaningOf(cfg, f, kind, held)
            && Run(cfg, c, Wire(!cfg.server, frames, kind))
            == Run(cfg, d, Wire(!cfg.server, frames[1..], KindAfter(f, kind)))
  {
    var f := frames[0];
    FrameUnderstood(cfg, c, frames, kind, held);
    ReceiveFrame(cfg, c, OpcodeByte(f), f.key, f.data, Wire(!cfg.server, frames[1..], KindAfter(f, kind)));
    d := FrameOutcome(cfg, c, OpcodeByte(f), f.key, f.data).conn;
  }

  lemma {:induction false} MessagesArrive(cfg: Config, c: Conn, frames: seq<Frame>, kind: byte, held: seq<byte>)
    requires Holding(cfg, c, kind, held) && Legal(frames, kind)
    requires WithinLimit(cfg, frames, held) && ControlsApart(cfg, frames, held)
    ensures var d := Run(cfg, c, Wire(!cfg.server, frames, kind));
            d.log == c.log + Meaning(cfg, frames, kind, held) && d.state == c.state
    decreases |frames|
  {
    if frames != [] {
      var f := frames[0];
      var d := FrameArrives(cfg, c, frames, kind, held);
      MessagesArrive(cfg, d, frames[1..], KindAfter(f, kind), HeldAfter(cfg, f, held));
    }
  }

  /** A control frame between fragments is signalled with the held bytes in front, or refused. */
  lemma ControlGarbled(cfg: Config, c: Conn, f: Frame, held: seq<byte>)
    requires Between(cfg, c) && !c.state.Over() && c.payload == held != []
    requires IsControl(f) && f.fin && |f.key| == 4
    ensures var o := FrameOutcome(cfg, c, OpcodeByte(f), f.key, f.data);
            && |o.conn.log| > |c.log|
            && o.conn.log[|c.log|] != (if f.opcode == OP_PING then Ping(f.data) else Pong(f.data))
  {
    var n := |c.log|;
    assert OpcodeByte(f) % 16 == f.opcode;
    var o := FrameOutcome(cfg, c, OpcodeByte(f), f.key, f.data);
    if |c.payload| + |f.data| <= cfg.maxSize {
      assert |held + f.data| != |f.data|;
      assert o.conn.log[n] == if f.opcode == OP_PING then Ping(held + f.data) else Pong(held + f.data);
    } else {
      assert o.conn.log[n].Wrote? || o.conn.log[n].Closed?;
    }
  }

  lemma FirstGarbled(cfg: Config, c: Conn, frames: seq<Frame>, kind: byte, held: seq<byte>)
    requires Holding(cfg, c, kind, held) && frames != [] && Legal(frames, kind)
    requires IsControl(frames[0]) && held != [] && |frames[0].data| < SIZE_LIMIT
    ensures var d := Run(cfg, c, Wire(!cfg.server, frames, kind));
            |d.log| > |c.log| && [d.log[|c.log|]] != MeaningOf(cfg, frames[0], kind, held)
  {
    var f := frames[0];
    var more := Wire(!cfg.server, frames[1..], KindAfter(f, kind));
    ReceiveFrame(cfg, c, OpcodeByte(f), f.key, f.data, more);
    ControlGarbled(cfg, c, f, held);
    var o := FrameOutcome(cfg, c, OpcodeByte(f), f.key, f.data);
    if !o.stop {
      RunGrows(cfg, o.conn, more);
    }
  }

  lemma {:induction false} MessagesGarbled(cfg: Config, c: Conn, frames: seq<Frame>, kind: byte, held: seq<byte>)
    requires Holding(cfg, c, kind, held) && Legal(frames, kind)
    requires WithinLimit(cfg, frames, held) && !ControlsApart(cfg, frames, held)
    ensures Run(cfg, c, Wire(!cfg.server, frames, kind)).log != c.log + Meaning(cfg, frames, kind, held)
    decreases |frames|
  {
    var f := frames[0];
    var later := Meaning(cfg, frames[1..], KindAfter(f, kind), HeldAfter(cfg, f, held));
    var now := MeaningOf(cfg, f, kind, held);
    assert c.log + Meaning(cfg, frames, kind, held) == c.log + now + later;
    if IsControl(f) && held != [] {
      FirstGarbled(cfg, c, frames, kind, held);
      assert (c.log + now + later)[|c.log|] == now[0];
    } else {
      var d := FrameArrives(cfg, c, frames, kind, held);
      MessagesGarbled(cfg, d, frames[1..], KindAfter(f, kind), HeldAfter(cfg, f, held));
    }
  }

  lemma {:induction false} MeaningHasNoClosed(cfg: Config, frames: seq<Frame>, kind: byte, held: seq<byte>)
    ensures forall e :: e in Meaning(cfg, frames, kind, held) ==> !e.Closed?
    decreases |frames|
  {
    if frames != [] {
      MeaningHasNoClosed(cfg, frames[1..], KindAfter(frames[0], kind), HeldAfter(cfg, frames[0], held));
    }
  }

  /**
   * The bytes of any legal sequence of frames, cut into chunks in any way and
   * masked with any keys, raise exactly the signals the frames stand for if
   * and only if no control frame comes while bytes of a combined message are
   * held.
   */
  lemma RoundTripIff(cfg: Config, c: Conn, frames: seq<Frame>, chunks: seq<seq<byte>>)
    requires Holding(cfg, c, 0, []) && Orderly(c)
    requires Legal(frames, 0) && WithinLimit(cfg, frames, [])
    requires Flatten(chunks) == Wire(!cfg.server, frames, 0)
    ensures ReceiveAll(cfg, c, chunks).log == c.log + Meaning(cfg, frames, 0, []) <==> ControlsApart(cfg, frames, [])
  {
    var s := Wire(!cfg.server, frames, 0);
    if ControlsApart(cfg, frames, []) {
      MessagesArrive(cfg, c, frames, 0, []);
      ChunkingIsInvisible(cfg, c, chunks);
    } else {
      MessagesGarbled(cfg, c, frames, 0, []);
      var n := ChunksAreAPrefix(cfg, c, chunks);
      assert s[..|s|] == s;
      var d := Run(cfg, c, s[..n]);
      RunGrows(cfg, c, s[..n]);
      MeaningHasNoClosed(cfg, frames, 0, []);
      if d.state.Over() {
        var i :| 0 <= i < |d.log| && d.log[i].Closed?;
        assert d.log[i] in d.log;
        assert forall e :: e in c.log + Meaning(cfg, frames, 0, []) ==> !e.Closed?;
      }
    }
  }

  /** The code and reason of a close frame arrive as they were sent, and an open receiver echoes them. */
  lemma CloseArrives(cfg: Config, c: Conn, code: nat, reason: seq<byte>, key: seq<byte>)
    requires Holding(cfg, c, 0, []) && |key| == 4
    requires code < 0x1_0000 && |CloseBody(code, reason)| <= cfg.maxSize
    ensures var body := CloseBody(code, reason);
            var got := if code == 1005 then [] else reason;
            var d := Run(cfg, c, FrameBytes(!cfg.server, FLAG_FIN + OP_CLOSE, key, body));
            && d.state == CLOSED
            && d.log == c.log + (if c.state == OPEN then [Wrote(FLAG_FIN + OP_CLOSE, body)] else [])
                        + [Closed(code, got)] + (if cfg.server then [ShutDown] else [])
  {
    var body := CloseBody(code, reason);
    var bytes := FrameBytes(!cfg.server, FLAG_FIN + OP_CLOSE, key, body);
    ReceiveFrame(cfg, c, FLAG_FIN + OP_CLOSE, key, body, []);
    assert bytes + [] == bytes && [] + body == body;
    var e := HeaderRead(cfg, c, FLAG_FIN + OP_CLOSE, key, |body|).(payload := body);
    CloseDelivered(cfg, e, code, reason);
    assert FrameOutcome(cfg, c, FLAG_FIN + OP_CLOSE, key, body) == Deliver(cfg, e, true, OP_CLOSE);
  }

  lemma CloseDelivered(cfg: Config, e: Conn, code: nat, reason: seq<byte>)
    requires !e.state.Over() && e.payload == CloseBody(code, reason) && code < 0x1_0000
    ensures var d := DeliverClose(cfg, e, true);
            && d.state == CLOSED
            && d.log == e.log + (if e.state == OPEN then [Wrote(FLAG_FIN + OP_CLOSE, e.payload)] else [])
                        + [Closed(code, if code == 1005 then [] else reason)] + (if cfg.server then [ShutDown] else [])
  {
    CloseBodyRead(code, reason);
  }

  lemma CloseBodyRead(code: nat, reason: seq<byte>)
    requires code < 0x1_0000
    ensures var body := CloseBody(code, reason);
            && CloseCode(body, true) == code
            && CloseReason(body, true) == if code == 1005 then [] else reason
  {
    if code != 1005 {
      BigEndianTwo(code / 256 % 256, code % 256);
      var body := CloseBody(code, reason);
      assert body[..2] == [code / 256 % 256, code % 256] && body[2..] == reason;
    }
  }

  /** A ping between the two fragments of a text message is not signalled as it was sent. */
  lemma PingInsideMessage()
    ensures var cfg := Config(false, true, 1000);
            var c := Conn(OPEN, [], 0, [], 0, NO_FRAME, 0, []);
            var key := [0, 0, 0, 0];
            var frames := [Frame(false, OP_TEXT, key, [97]), Frame(true, OP_PING, key, [112]),
                           Frame(true, OP_CONT, key, [98])];
            Legal(frames, 0) && Run(cfg, c, Wire(true, frames, 0)).log != Meaning(cfg, frames, 0, [])
  {
    var cfg := Config(false, true, 1000);
    var c := Conn(OPEN, [], 0, [], 0, NO_FRAME, 0, []);
    var key: seq<byte> := [0, 0, 0, 0];
    var f, g, h := Frame(false, OP_TEXT, key, [97]), Frame(true, OP_PING, key, [112]), Frame(true, OP_CONT, key, [98]);
    assert [f, g, h][1..] == [g, h] && [g, h][1..] == [h];
    assert Legal([h], OP_TEXT) && Legal([g, h], OP_TEXT);
    assert HeldAfter(cfg, f, []) == [97] && HeldAfter(cfg, g, [97]) == [97];
    assert WithinLimit(cfg, [h], [97]) && WithinLimit(cfg, [g, h], [97]);
    assert !ControlsApart(cfg, [g, h], [97]);
    MessagesGarbled(cfg, c, [f, g, h], 0, []);
    assert c.log + Meaning(cfg, [f, g, h], 0, []) == Meaning(cfg, [f, g, h], 0, []);
  }
}
