/**
 * What a connection makes of one whole frame, whatever its bytes: which frames it refuses and
 * how, and what the others raise (sections 5.2 to 5.5 of RFC 6455).
 */
module WebSocketFrames {
  import opened Bytes
  import opened Endian
  import opened WebSocketSpec
  import opened WebSocketReceive
  import opened WebSocketClosing
  import opened WebSocketRoundTrip
  import opened WebSocketTail

  /** The parts of a frame on the wire: two bytes, a longer length, a masking key, the payload. */
  datatype RawFrame = RawFrame(first: byte, second: byte, length: seq<byte>, key: seq<byte>, body: seq<byte>) {
    predicate Whole() {
      && |length| == (if second % 128 == 126 then 2 else if second % 128 == 127 then 8 else 0)
      && |key| == (if second >= 128 then 4 else 0)
      && |body| == if second % 128 < 126 then second % 128 else BigEndian(length)
    }

    function Bytes(): seq<byte> {
      [first, second] + length + key + body
    }

    /** The payload with the mask taken off. */
    function Data(): seq<byte> {
      if |key| != 4 then body else seq(|body|, i requires 0 <= i < |body| => Xor(body[i], key[i % 4]))
    }
  }

  /** Why a frame is refused: a close code and a reason. */
  datatype Verdict = Accept | Refuse(code: nat, reason: string)

  /** The rules, in the order in which the receiver comes to them. */
  function Judge(cfg: Config, c: Conn, f: RawFrame): Verdict {
    var fin, opcode := f.first >= 128, f.first % 16;
    if f.first / 16 % 8 != 0 then Refuse(1002, "nonzero RSV")
    else if cfg.server && f.second < 128 then Refuse(1002, "client data not masked")
    else if !cfg.server && f.second >= 128 then Refuse(1002, "server data masked")
    else if |c.payload| + |f.body| > cfg.maxSize then Refuse(1009, "message too large")
    else if opcode == 0 && c.fragmentOpcode !in {1, 2} then Refuse(1002, "invalid continuation message")
    else if opcode in {1, 2} && c.fragmentOpcode != 0 then Refuse(1002, "incomplete fragment")
    else if opcode in {9, 10} && !fin then Refuse(1002, "cannot fragment control frames")
    else if opcode !in {0, 1, 2, 8, 9, 10} then Refuse(1002, "invalid message opcode")
    else Accept
  }

  /** The close code of a close frame, and its reason. */
  function Code(fin: bool, payload: seq<byte>): nat {
    if !fin then 1002 else if |payload| < 2 then 1005 else
      var high: int, low: int := payload[0], payload[1];
      256 * high + low
  }

  function Reason(fin: bool, payload: seq<byte>): seq<byte> {
    if !fin then Ascii("cannot fragment control frames") else if |payload| < 2 then [] else payload[2..]
  }

  /** A close frame is echoed once, and a server shuts the stream down. */
  function CloseRaised(cfg: Config, c: Conn, code: nat, reason: seq<byte>): seq<Event> {
    (if c.state != OPEN then []
     else [Wrote(0x88, if code == 1005 then [] else [code / 256 % 256, code % 256] + reason)])
    + [Closed(code, reason)] + if cfg.server then [ShutDown] else []
  }

  /** The events of a frame that is not refused; `all` is its data behind the bytes held so far. */
  function Raised(cfg: Config, c: Conn, fin: bool, opcode: byte, all: seq<byte>): seq<Event> {
    if opcode == 9 then [Ping(all)]
    else if opcode == 10 then [Pong(all)]
    else if opcode == 8 then CloseRaised(cfg, c, Code(fin, all), Reason(fin, all))
    else if cfg.combine && !fin then []
    else if (if opcode == 0 then c.fragmentOpcode else opcode) == 1 then [Text(all, fin)]
    else [Binary(all, fin)]
  }

  /** The connection behind a frame that is not refused. */
  ghost predicate Follows(cfg: Config, c: Conn, f: RawFrame, d: Conn) {
    var fin, opcode, all := f.first >= 128, f.first % 16, c.payload + f.Data();
    && Between(cfg, d)
    && d.log == c.log + Raised(cfg, c, fin, opcode, all)
    && d.state == (if opcode == 8 then CLOSED else c.state)
    && d.payload == (if cfg.combine && !fin then all else [])
    && d.fragmentOpcode == if opcode >= 8 then c.fragmentOpcode else if fin then 0
                           else if opcode == 0 then c.fragmentOpcode else opcode
  }

  /** The connection behind a frame that is refused. */
  ghost predicate Ended(c: Conn, code: nat, reason: string, d: Conn) {
    && d.state == FAILED
    && d.log == c.log
                + (if c.state == OPEN then [Wrote(0x88, [3, code % 256] + Ascii(reason))] else [])
                + [Closed(code, Ascii(reason)), ShutDown]
  }

  /** A connection that is between frames and not over, and any whole frame: `d` is what it leaves. */
  lemma OneFrame(cfg: Config, c: Conn, f: RawFrame, rest: seq<byte>) returns (d: Conn)
    requires Between(cfg, c) && !c.state.Over() && f.Whole()
    ensures match Judge(cfg, c, f)
            case Refuse(code, reason) => Ended(c, code, reason, d) && Run(cfg, c, f.Bytes() + rest) == d
            case Accept => Follows(cfg, c, f, d) && Run(cfg, c, f.Bytes() + rest) == Run(cfg, d, rest)
  {
    if f.first / 16 % 8 != 0 || (f.second >= 128) != cfg.server {
      d := BadStart(cfg, c, f, rest);
    } else {
      d := GoodStart(cfg, c, f, rest);
    }
  }

  /** The connection fails iff the frame is refused. */
  lemma FailsIff(cfg: Config, c: Conn, f: RawFrame)
    requires Between(cfg, c) && !c.state.Over() && f.Whole()
    ensures Run(cfg, c, f.Bytes()).state == FAILED <==> Judge(cfg, c, f).Refuse?
  {
    assert f.Bytes() + [] == f.Bytes();
    var d := OneFrame(cfg, c, f, []);
    hide RawFrame.Bytes, Judge, Ready, Raised;
  }

  lemma FailLog(c: Conn, code: nat, reason: string)
    requires !c.state.Over() && code in {1002, 1009}
    ensures Ended(c, code, reason, Fail(c, code, Ascii(reason)))
  {
  }

  lemma BadStart(cfg: Config, c: Conn, f: RawFrame, rest: seq<byte>) returns (d: Conn)
    requires Between(cfg, c) && !c.state.Over()
    requires f.first / 16 % 8 != 0 || (f.second >= 128) != cfg.server
    ensures var v := Judge(cfg, c, f);
            v.Refuse? && Ended(c, v.code, v.reason, d) && Run(cfg, c, f.Bytes() + rest) == d
  {
    var start, more := [f.first, f.second], f.length + f.key + f.body + rest;
    assert f.Bytes() + rest == start + more && [] + start == start;
    HeaderEnd(cfg, c, start, more);
    var e := c.(header := start);
    FailLog(e, 1002, "nonzero RSV");
    FailLog(e.(headerSize := HeaderSize(f.second)), 1002, "client data not masked");
    FailLog(e.(headerSize := HeaderSize(f.second)), 1002, "server data masked");
    d := HeaderSized(cfg, e).conn;
    hide Fail, Run, RawFrame.Bytes, Ready;
  }

  /** The header of a frame that is not refused at its second byte. */
  lemma HeaderOf(cfg: Config, c: Conn, f: RawFrame, rest: seq<byte>) returns (e: Conn)
    requires Between(cfg, c) && f.Whole() && f.first / 16 % 8 == 0 && (f.second >= 128) == cfg.server
    ensures e == c.(header := [f.first, f.second] + f.length + f.key, headerSize := 2 + |f.length| + |f.key|)
    ensures Complete(e.header) && FrameLength(e.header) == |f.body|
    ensures var o := HeaderDone(cfg, e);
            Next(cfg, o) && Run(cfg, c, f.Bytes() + rest) == Resume(cfg, o, f.body + rest)
  {
    var h, tail := [f.first, f.second] + f.length + f.key, f.Bytes() + rest;
    assert tail == h + (f.body + rest);
    assert |h| == HeaderSize(f.second) && tail[..|h|] == h && tail[|h|..] == f.body + rest;
    assert h[2..2 + |f.length|] == f.length;
    ReadWhole(cfg, c, tail);
    e := c.(header := h, headerSize := |h|);
  }

  lemma GoodStart(cfg: Config, c: Conn, f: RawFrame, rest: seq<byte>) returns (d: Conn)
    requires Between(cfg, c) && !c.state.Over() && f.Whole()
    requires f.first / 16 % 8 == 0 && (f.second >= 128) == cfg.server
    ensures match Judge(cfg, c, f)
            case Refuse(code, reason) => Ended(c, code, reason, d) && Run(cfg, c, f.Bytes() + rest) == d
            case Accept => Follows(cfg, c, f, d) && Run(cfg, c, f.Bytes() + rest) == Run(cfg, d, rest)
  {
    var e := HeaderOf(cfg, c, f, rest);
    if |c.payload| + |f.body| > cfg.maxSize {
      FailLog(e.(frameSize := |f.body|), 1009, "message too large");
      hide Fail, Run, RawFrame.Bytes, Ready;
      d := HeaderDone(cfg, e).conn;
    } else {
      var o := BodyOf(cfg, e, f, rest);
      Decided(cfg, c, e, f);
      hide Deliver, Run, Judge, HeaderDone, RawFrame.Bytes, Ready, Follows;
      d := o.conn;
    }
  }

  /** The payload behind the header `e`. */
  lemma BodyOf(cfg: Config, e: Conn, f: RawFrame, rest: seq<byte>) returns (o: Outcome)
    requires cfg.maxSize < NO_FRAME && f.Whole() && e.frameSize == NO_FRAME && e.frameStart == |e.payload|
    requires e.header == [f.first, f.second] + f.length + f.key && e.headerSize == |e.header|
    requires Complete(e.header) && FrameLength(e.header) == |f.body| && |e.payload| + |f.body| <= cfg.maxSize
    ensures o == Deliver(cfg, e.(frameSize := |f.body|, payload := e.payload + f.Data()), f.first >= 128, f.first % 16)
    ensures Next(cfg, o) && Next(cfg, HeaderDone(cfg, e))
            && Resume(cfg, HeaderDone(cfg, e), f.body + rest) == Resume(cfg, o, rest)
  {
    var d := e.(frameSize := |f.body|);
    var full := d.(payload := e.payload + f.body);
    UnmaskedData(full, e.payload, f);
    FrameDoneReady(cfg, full);
    o := FrameDone(cfg, full);
    hide Deliver, RawFrame.Data, FrameLength;
    if f.body == [] {
      assert f.body + rest == rest && e.payload + f.body == e.payload;
    } else {
      PayloadEnd(cfg, d, f.body, rest);
    }
  }

  lemma UnmaskedData(c: Conn, held: seq<byte>, f: RawFrame)
    requires f.Whole() && c.header == [f.first, f.second] + f.length + f.key && Complete(c.header)
    requires c.payload == held + f.body && c.frameStart == |held|
    ensures Unmasked(c) == held + f.Data()
  {
    assert c.payload[..|held|] == held && c.payload[|held|..] == f.body;
    if f.second >= 128 {
      assert c.header[|c.header| - 4..] == f.key;
    }
  }

  /** What is delivered is what the rules say. */
  lemma Decided(cfg: Config, c: Conn, e: Conn, f: RawFrame)
    requires Between(cfg, c) && !c.state.Over() && |c.payload| + |f.body| <= cfg.maxSize
    requires f.first / 16 % 8 == 0 && (f.second >= 128) == cfg.server
    requires e.state == c.state && e.log == c.log && e.payload == c.payload && e.fragmentOpcode == c.fragmentOpcode
    ensures var o := Deliver(cfg, e.(frameSize := |f.body|, payload := e.payload + f.Data()), f.first >= 128,
                             f.first % 16);
            match Judge(cfg, c, f)
            case Refuse(code, reason) => o.stop && Ended(c, code, reason, o.conn)
            case Accept => !o.stop && Follows(cfg, c, f, o.conn)
  {
    var d := e.(frameSize := |f.body|, payload := e.payload + f.Data());
    hide Ended, Fail, DeliverClose, DeliverData, NextFrame, CloseRaised, Code, Reason, RawFrame.Data, Ready;
    FailLog(d, 1002, "invalid continuation message");
    FailLog(d, 1002, "incomplete fragment");
    FailLog(d, 1002, "cannot fragment control frames");
    FailLog(d, 1002, "invalid message opcode");
    EndedSame(c, d);
    var fin, opcode := f.first >= 128, f.first % 16;
    if opcode == 8 {
      CloseDecided(cfg, c, d, fin);
    } else if opcode == 9 || opcode == 10 {
      NextDecided(cfg, Emit(d, if opcode == 9 then Ping(d.payload) else Pong(d.payload)), fin);
    } else if opcode <= 2 {
      DataDecided(cfg, d, if opcode == 0 then c.fragmentOpcode else opcode, fin);
    }
  }

  lemma EndedSame(c: Conn, d: Conn)
    requires c.state == d.state && c.log == d.log
    ensures forall code: nat, reason, o :: Ended(d, code, reason, o) <==> Ended(c, code, reason, o)
  {
  }

  lemma NextDecided(cfg: Config, d: Conn, fin: bool)
    requires cfg.maxSize < NO_FRAME && |d.payload| <= cfg.maxSize
    ensures var o := NextFrame(cfg, d, fin);
            && Between(cfg, o) && o.state == d.state && o.log == d.log && o.fragmentOpcode == d.fragmentOpcode
            && o.payload == if cfg.combine && !fin then d.payload else []
  {
  }

  lemma DataDecided(cfg: Config, d: Conn, kind: byte, fin: bool)
    requires cfg.maxSize < NO_FRAME && |d.payload| <= cfg.maxSize
    ensures var o := DeliverData(cfg, d, kind, fin);
            && Between(cfg, o) && o.state == d.state && o.fragmentOpcode == (if fin then 0 else kind)
            && o.payload == (if cfg.combine && !fin then d.payload else [])
            && o.log == d.log + if cfg.combine && !fin then []
                                else if kind == 1 then [Text(d.payload, fin)] else [Binary(d.payload, fin)]
  {
    assert d.log + [] == d.log;
  }

  lemma CloseDecided(cfg: Config, c: Conn, d: Conn, fin: bool)
    requires Between(cfg, c) && !c.state.Over() && d.state == c.state && d.log == c.log
    requires |d.payload| <= cfg.maxSize
    ensures var all, o := d.payload, DeliverClose(cfg, d, fin);
            && Between(cfg, o) && o.state == CLOSED && o.fragmentOpcode == d.fragmentOpcode
            && o.payload == (if cfg.combine && !fin then all else [])
            && o.log == c.log + CloseRaised(cfg, c, Code(fin, all), Reason(fin, all))
  {
    if fin && |d.payload| >= 2 {
      assert d.payload[..2] == [d.payload[0], d.payload[1]];
      BigEndianTwo(d.payload[0], d.payload[1]);
    }
  }

  /** A reserved bit, byte by byte: what an open client writes back. */
  lemma ReservedBit(cfg: Config, c: Conn, second: byte, rest: seq<byte>)
    requires Between(cfg, c) && c.state == OPEN && !cfg.server
    ensures var r := Run(cfg, c, [0xC1, second] + rest);
            var reason := [110, 111, 110, 122, 101, 114, 111, 32, 82, 83, 86];
            r.log == c.log + [Wrote(0x88, [3, 234] + reason), Closed(1002, reason), ShutDown]
  {
    var f := RawFrame(0xC1, second, [], [], []);
    assert f.Bytes() == [0xC1, second];
    hide Run, Ready, Ascii, RawFrame.Bytes;
    ReservedReason();
    var d := BadStart(cfg, c, f, rest);
  }

  lemma ReservedReason()
    ensures Ascii("nonzero RSV") == [110, 111, 110, 122, 101, 114, 111, 32, 82, 83, 86]
  {
  }

  // The calls that end a connection

  function Body(code: nat, reason: seq<byte>): seq<byte> {
    if code == 1005 then [] else [code / 256 % 256, code % 256] + reason
  }

  /** Closing, failing and terminating, in every state: the exact events and the state they lead to. */
  lemma EndingCalls(c: Conn, code: nat, reason: seq<byte>)
    ensures var frame := if c.state == OPEN then [Wrote(0x88, Body(code, reason))] else [];
            var over := c.state == FAILED || c.state == CLOSED;
            && Close(c, code, reason) == c.(log := c.log + frame, state := if over then c.state else CLOSING)
            && Fail(c, code, reason) ==
               (if over then c else c.(log := c.log + frame + [Closed(code, reason), ShutDown], state := FAILED))
            && Terminate(c, code, reason) ==
               if over then c else c.(log := c.log + [Closed(code, reason), ShutDown], state := CLOSED)
  {
    if c.state == OPEN {
      var frame := Wrote(0x88, Body(code, reason));
      var closed := Closed(code, reason);
      assert c.log + [frame] + [closed] + [ShutDown] == c.log + [frame] + [closed, ShutDown];
    }
  }

  /** A stream that goes away ends the connection without a frame. */
  lemma StreamGoes(cfg: Config, c: Conn)
    requires Valid(cfg, c)
    ensures Perform(cfg, c, StreamClosed)
         == if c.state == FAILED || c.state == CLOSED then c
            else c.(log := c.log + [Closed(1006, Ascii("handle closed"))], state := CLOSED)
  {
  }

  /** Frames are written in order while the connection is open, and none otherwise. */
  lemma {:induction false} SentFrames(c: Conn, frames: seq<(byte, seq<byte>)>)
    ensures SendAll(c, frames) ==
            if c.state != OPEN then c
            else c.(log := c.log + seq(|frames|, i requires 0 <= i < |frames| => Wrote(frames[i].0, frames[i].1)))
    decreases |frames|
  {
    if frames != [] {
      SentFrames(SendFrame(c, frames[0].0, frames[0].1), frames[1..]);
      var all := seq(|frames|, i requires 0 <= i < |frames| => Wrote(frames[i].0, frames[i].1));
      var more := seq(|frames| - 1, i requires 0 <= i < |frames| - 1 => Wrote(frames[1..][i].0, frames[1..][i].1));
      assert all == [Wrote(frames[0].0, frames[0].1)] + more;
    }
  }
}
