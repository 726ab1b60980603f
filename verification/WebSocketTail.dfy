/** What the bytes behind the end of a connection do when they come in the same chunk. */
module WebSocketTail {
  import opened Bytes
  import opened WebSocketSpec
  import opened WebSocketReceive
  import opened WebSocketChunking

  /** What a complete frame does once the connection is over. */
  datatype Effect = Refused | Raises | Silent(kind: byte, held: nat)

  /** `total` bytes are held with this frame's own, and a message of type `kind` is unfinished. */
  function DataEffect(cfg: Config, kind: byte, total: nat, fin: bool): Effect {
    if !cfg.combine || fin then Raises else Silent(kind, total)
  }

  function FrameEffect(cfg: Config, kind: byte, total: nat, fin: bool, opcode: byte): Effect {
    if opcode == OP_CONT then
      if kind == OP_TEXT || kind == OP_BINARY then DataEffect(cfg, kind, total, fin) else Refused
    else if opcode == OP_TEXT || opcode == OP_BINARY then
      if kind != 0 then Refused else DataEffect(cfg, opcode, total, fin)
    else if opcode == OP_CLOSE then
      if cfg.server then Raises else Silent(kind, if !cfg.combine || fin then 0 else total)
    else if opcode == OP_PING || opcode == OP_PONG then if fin then Raises else Refused
    else Refused
  }

  /** A reserved bit, or a mask where there should be none or the other way round. */
  predicate StartRefused(cfg: Config, first: byte, second: byte) {
    first / 16 % 8 != 0 || Masked(second) != cfg.server
  }

  /** A whole header that is not refused at its second byte. */
  predicate HasHeader(cfg: Config, tail: seq<byte>) {
    |tail| >= 2 && !StartRefused(cfg, tail[0], tail[1]) && |tail| >= HeaderSize(tail[1])
  }

  /** The size of the first frame's header, and that of its payload. */
  function HeaderAt(tail: seq<byte>): nat
    requires |tail| >= 2
  {
    HeaderSize(tail[1])
  }

  function LengthAt(cfg: Config, tail: seq<byte>): nat
    requires HasHeader(cfg, tail)
  {
    FrameLength(tail[..HeaderAt(tail)])
  }

  function EffectAt(cfg: Config, kind: byte, held: nat, tail: seq<byte>): Effect
    requires HasHeader(cfg, tail)
  {
    FrameEffect(cfg, kind, held + LengthAt(cfg, tail), tail[0] >= FLAG_FIN, tail[0] % 16)
  }

  /** The first frame is complete and within the limit. */
  predicate HasFrame(cfg: Config, held: nat, tail: seq<byte>) {
    && HasHeader(cfg, tail)
    && held + LengthAt(cfg, tail) <= cfg.maxSize && HeaderAt(tail) + LengthAt(cfg, tail) <= |tail|
  }

  /**
   * The bytes, read frame by frame from the first byte of a header, hold before the first
   * frame that is refused or cut short no ping or pong, no data frame that is final or not
   * combined, and on a server no close frame.
   */
  predicate Quiet(cfg: Config, kind: byte, held: nat, tail: seq<byte>)
    decreases |tail|
  {
    HasFrame(cfg, held, tail) ==>
      match EffectAt(cfg, kind, held, tail)
      case Refused => true
      case Raises => false
      case Silent(kind', held') => Quiet(cfg, kind', held', tail[HeaderAt(tail) + LengthAt(cfg, tail)..])
  }

  /** The connection is over and the handler is at the start of a header. */
  ghost predicate Lingering(cfg: Config, c: Conn) {
    Ready(cfg, c) && c.header == [] && c.frameSize == NO_FRAME && c.state.Over()
  }

  lemma DeliverOver(cfg: Config, c: Conn, fin: bool, opcode: byte)
    requires c.state.Over() && cfg.maxSize < NO_FRAME && |c.payload| <= cfg.maxSize
    ensures var o := Deliver(cfg, c, fin, opcode);
            match FrameEffect(cfg, c.fragmentOpcode, |c.payload|, fin, opcode)
            case Refused => o.stop && o.conn.log == c.log
            case Raises => !o.stop && Ready(cfg, o.conn) && |o.conn.log| > |c.log|
            case Silent(kind, held) =>
              && !o.stop && Lingering(cfg, o.conn) && o.conn.log == c.log
              && o.conn.fragmentOpcode == kind && |o.conn.payload| == held
  {
  }

  lemma ReadWhole(cfg: Config, c: Conn, tail: seq<byte>)
    requires Ready(cfg, c) && c.header == [] && c.frameSize == NO_FRAME && HasHeader(cfg, tail)
    ensures var n := HeaderAt(tail);
            var d := c.(header := tail[..n], headerSize := n);
            && Complete(d.header)
            && var o := HeaderDone(cfg, d);
            && Next(cfg, o) && Run(cfg, c, tail) == Resume(cfg, o, tail[n..])
  {
    var n := HeaderAt(tail);
    var start, d := tail[..2], c.(header := tail[..2], headerSize := n);
    assert tail == start + tail[2..] && [] + start == start;
    HeaderEnd(cfg, c, start, tail[2..]);
    Sized(cfg, c, start);
    hide Run, HeaderSized, HeaderDone, Fits;
    if n == 2 {
      assert tail[..n] == start;
    } else {
      ReadMore(cfg, d, tail);
    }
  }

  lemma ReadMore(cfg: Config, d: Conn, tail: seq<byte>)
    requires Ready(cfg, d) && d.frameSize == NO_FRAME && HasHeader(cfg, tail) && HeaderAt(tail) > 2
    requires d.header == tail[..2] && d.headerSize == HeaderAt(tail)
    ensures var n := HeaderAt(tail);
            && Complete(tail[..n])
            && var o := HeaderDone(cfg, d.(header := tail[..n]));
            && Next(cfg, o) && Run(cfg, d, tail[2..]) == Resume(cfg, o, tail[n..])
  {
    var n := HeaderAt(tail);
    var more := tail[2..n];
    HeaderEnd(cfg, d, more, tail[n..]);
    hide Run, HeaderDone, Fits;
    assert tail[2..] == more + tail[n..];
    assert tail[..2] + more == tail[..n];
  }

  lemma Sized(cfg: Config, c: Conn, start: seq<byte>)
    requires |start| == 2 && !StartRefused(cfg, start[0], start[1]) && c.frameStart <= |c.payload|
    ensures var d := c.(header := start, headerSize := HeaderSize(start[1]));
            HeaderSized(cfg, c.(header := start)) == if d.headerSize == 2 then HeaderDone(cfg, d) else Outcome(d, false)
  {
  }

  lemma QuietStart(cfg: Config, c: Conn, tail: seq<byte>)
    requires Lingering(cfg, c)
    requires !HasHeader(cfg, tail)
    ensures Run(cfg, c, tail).log == c.log
  {
    if |tail| < 2 {
      HeaderStretch(cfg, c, tail, []);
      assert tail + [] == tail;
    } else {
      var start := tail[..2];
      assert tail == start + tail[2..] && [] + start == start;
      HeaderEnd(cfg, c, start, tail[2..]);
      if !StartRefused(cfg, tail[0], tail[1]) {
        var d := c.(header := start, headerSize := HeaderSize(tail[1]));
        HeaderStretch(cfg, d, tail[2..], []);
        assert tail[2..] + [] == tail[2..];
      }
    }
  }

  /** The header is read: the frame is too large, cut short, or complete. */
  lemma ReadRest(cfg: Config, d: Conn, rest: seq<byte>)
    requires cfg.maxSize < NO_FRAME && d.state.Over() && Complete(d.header) && d.headerSize == |d.header|
    requires d.frameStart == |d.payload| <= cfg.maxSize && d.frameSize == NO_FRAME
    ensures var len, o := FrameLength(d.header), HeaderDone(cfg, d);
            && Next(cfg, o)
            && (|d.payload| + len > cfg.maxSize || |rest| < len ==> Resume(cfg, o, rest).log == d.log)
            && (|d.payload| + len <= cfg.maxSize && |rest| >= len ==>
                  var e := d.(frameSize := len, payload := d.payload + rest[..len]);
                  && Next(cfg, FrameDone(cfg, e))
                  && Resume(cfg, o, rest) == Resume(cfg, FrameDone(cfg, e), rest[len..]))
  {
    HeaderDoneReady(cfg, d);
    var len := FrameLength(d.header);
    if |d.payload| + len <= cfg.maxSize {
      var e := d.(frameSize := len);
      hide FrameLength, FrameDone;
      if len == 0 {
        assert d.payload + rest[..0] == d.payload && rest[0..] == rest;
      } else if |rest| < len {
        PayloadStretch(cfg, e, rest, []);
        assert rest + [] == rest;
      } else {
        assert rest == rest[..len] + rest[len..];
        PayloadEnd(cfg, e, rest[..len], rest[len..]);
      }
    }
  }

  lemma UnmaskedSize(c: Conn)
    requires Complete(c.header) && c.frameStart <= |c.payload|
    ensures |Unmasked(c)| == |c.payload|
  {
  }

  /** What one frame leaves behind. */
  ghost predicate Left(cfg: Config, c: Conn, o: Outcome, effect: Effect) {
    match effect
    case Refused => o.stop && o.conn.log == c.log
    case Raises => !o.stop && |o.conn.log| > |c.log|
    case Silent(kind, held) =>
      && !o.stop && Lingering(cfg, o.conn) && o.conn.log == c.log
      && o.conn.fragmentOpcode == kind && |o.conn.payload| == held
  }

  /** A complete frame behind the end. */
  lemma WholeFrame(cfg: Config, c: Conn, tail: seq<byte>) returns (o: Outcome)
    requires Lingering(cfg, c) && HasFrame(cfg, |c.payload|, tail)
    ensures Next(cfg, o) && Run(cfg, c, tail) == Resume(cfg, o, tail[HeaderAt(tail) + LengthAt(cfg, tail)..])
    ensures Left(cfg, c, o, EffectAt(cfg, c.fragmentOpcode, |c.payload|, tail))
  {
    var n, len := HeaderAt(tail), LengthAt(cfg, tail);
    ReadWhole(cfg, c, tail);
    var d := c.(header := tail[..n], headerSize := n);
    ReadRest(cfg, d, tail[n..]);
    var e := d.(frameSize := len, payload := d.payload + tail[n..][..len]);
    FrameLeft(cfg, e);
    o := FrameDone(cfg, e);
    hide FrameDone, Run, HeaderDone, FrameLength, FrameEffect, HeaderSize, StartRefused;
    assert tail[n..][len..] == tail[n + len..];
  }

  lemma FrameLeft(cfg: Config, e: Conn)
    requires e.state.Over() && Complete(e.header) && e.frameStart <= |e.payload| <= cfg.maxSize < NO_FRAME
    ensures Left(cfg, e, FrameDone(cfg, e),
                 FrameEffect(cfg, e.fragmentOpcode, |e.payload|, e.header[0] >= FLAG_FIN, e.header[0] % 16))
  {
    UnmaskedSize(e);
    DeliverOver(cfg, e.(payload := Unmasked(e)), e.header[0] >= FLAG_FIN, e.header[0] % 16);
    hide Deliver, Unmasked, FrameEffect;
  }

  /** Behind the end no event is raised iff the bytes are quiet. */
  lemma {:induction false} QuietIff(cfg: Config, c: Conn, tail: seq<byte>)
    requires Lingering(cfg, c)
    ensures Run(cfg, c, tail).log == c.log <==> Quiet(cfg, c.fragmentOpcode, |c.payload|, tail)
    decreases |tail|
  {
    hide Run, HeaderAt, LengthAt, EffectAt;
    if !HasHeader(cfg, tail) {
      QuietStart(cfg, c, tail);
    } else if !HasFrame(cfg, |c.payload|, tail) {
      QuietShort(cfg, c, tail);
    } else {
      var o := WholeFrame(cfg, c, tail);
      QuietNext(cfg, c, tail, o);
      var rest := tail[HeaderAt(tail) + LengthAt(cfg, tail)..];
      if EffectAt(cfg, c.fragmentOpcode, |c.payload|, tail).Silent? {
        Shorter(cfg, tail);
        QuietIff(cfg, o.conn, rest);
      }
    }
  }

  lemma Shorter(cfg: Config, tail: seq<byte>)
    requires HasHeader(cfg, tail)
    ensures HeaderAt(tail) > 0
  {
  }

  lemma QuietNext(cfg: Config, c: Conn, tail: seq<byte>, o: Outcome)
    requires Ready(cfg, c) && HasFrame(cfg, |c.payload|, tail) && Next(cfg, o)
    requires var rest := tail[HeaderAt(tail) + LengthAt(cfg, tail)..]; Run(cfg, c, tail) == Resume(cfg, o, rest)
    requires Left(cfg, c, o, EffectAt(cfg, c.fragmentOpcode, |c.payload|, tail))
    ensures var rest := tail[HeaderAt(tail) + LengthAt(cfg, tail)..];
            match EffectAt(cfg, c.fragmentOpcode, |c.payload|, tail)
            case Refused => Run(cfg, c, tail).log == c.log
            case Raises => Run(cfg, c, tail).log != c.log
            case Silent(_, _) => Run(cfg, c, tail) == Run(cfg, o.conn, rest)
  {
    hide Run, HeaderAt, LengthAt, EffectAt;
    var rest := tail[HeaderAt(tail) + LengthAt(cfg, tail)..];
    if EffectAt(cfg, c.fragmentOpcode, |c.payload|, tail).Raises? {
      RunLog(cfg, o.conn, [], rest);
      assert [] + rest == rest;
    }
  }

  /** A frame that is too large or cut short raises nothing. */
  lemma QuietShort(cfg: Config, c: Conn, tail: seq<byte>)
    requires Lingering(cfg, c) && HasHeader(cfg, tail) && !HasFrame(cfg, |c.payload|, tail)
    ensures Run(cfg, c, tail).log == c.log
  {
    var n := HeaderAt(tail);
    ReadWhole(cfg, c, tail);
    ReadRest(cfg, c.(header := tail[..n], headerSize := n), tail[n..]);
  }

  // How a connection ends

  /** A failure stops the handler, a close frame does not. */
  ghost predicate Ends(cfg: Config, o: Outcome) {
    o.conn.state.Over() ==>
      if o.stop then o.conn.state == FAILED
      else o.conn.state == CLOSED && o.conn.header == [] && o.conn.frameSize == NO_FRAME
  }

  lemma DeliverEnds(cfg: Config, c: Conn, fin: bool, opcode: byte)
    requires !c.state.Over()
    ensures Ends(cfg, Deliver(cfg, c, fin, opcode))
  {
  }

  lemma HeaderDoneEnds(cfg: Config, c: Conn)
    requires !c.state.Over() && Complete(c.header) && c.frameStart <= |c.payload|
    ensures Ends(cfg, HeaderDone(cfg, c))
  {
    var d := c.(frameSize := FrameLength(c.header));
    DeliverEnds(cfg, d.(payload := Unmasked(d)), d.header[0] >= FLAG_FIN, d.header[0] % 16);
    hide Deliver, FrameLength, Unmasked;
  }

  lemma HeaderSizedEnds(cfg: Config, c: Conn)
    requires !c.state.Over() && |c.header| == 2 && c.frameStart <= |c.payload|
    ensures Ends(cfg, HeaderSized(cfg, c))
  {
    var d := c.(headerSize := HeaderSize(c.header[1]));
    if d.headerSize == 2 {
      HeaderDoneEnds(cfg, d);
    }
    hide HeaderDone;
  }

  lemma StepEnds(cfg: Config, c: Conn, b: byte)
    requires Ready(cfg, c) && !c.state.Over()
    ensures Ends(cfg, Step(cfg, c, b))
  {
    if c.frameSize == NO_FRAME {
      var d := c.(header := c.header + [b]);
      if |d.header| == 2 {
        HeaderSizedEnds(cfg, d);
      } else if |d.header| > 2 && |d.header| == d.headerSize {
        HeaderDoneEnds(cfg, d);
      }
      hide HeaderSized, HeaderDone;
    } else {
      var d := c.(payload := c.payload + [b]);
      DeliverEnds(cfg, d.(payload := Unmasked(d)), d.header[0] >= FLAG_FIN, d.header[0] % 16);
      hide Deliver, Unmasked;
    }
  }

  lemma {:induction false} HowItEnds(cfg: Config, c: Conn, head: seq<byte>, tail: seq<byte>)
    requires Ready(cfg, c) && !c.state.Over() && EndsAt(cfg, c, head)
    ensures var d := Run(cfg, c, head);
            && (d.state == FAILED || d.state == CLOSED)
            && (d.state == FAILED ==> Run(cfg, c, head + tail) == d)
            && (d.state == CLOSED ==> Lingering(cfg, d) && Run(cfg, c, head + tail) == Run(cfg, d, tail))
    decreases |head|
  {
    var b, rest := head[0], head[1..];
    StepReady(cfg, c, b);
    StepEnds(cfg, c, b);
    var o := Step(cfg, c, b);
    hide Step;
    assert (head + tail)[0] == b && (head + tail)[1..] == rest + tail;
    assert head[..1] == [b] && [b][1..] == [];
    if o.conn.state.Over() {
      assert Run(cfg, c, head[..1]).state.Over();
      assert |head| == 1 && rest == [] && rest + tail == tail;
    } else {
      forall k | 0 <= k < |rest|
        ensures !Run(cfg, o.conn, rest[..k]).state.Over()
      {
        assert head[..k + 1][1..] == rest[..k];
        assert !Run(cfg, c, head[..k + 1]).state.Over();
      }
      HowItEnds(cfg, o.conn, rest, tail);
    }
  }

  /** After a failure nothing in the chunk is looked at any more, so all ways of cutting agree. */
  lemma FailureHidesCuts(cfg: Config, c: Conn, head: seq<byte>, tail: seq<byte>)
    requires Ready(cfg, c) && !c.state.Over() && EndsAt(cfg, c, head) && Run(cfg, c, head).state == FAILED
    ensures CutsAgree(cfg, c, head + tail)
  {
    HowItEnds(cfg, c, head, tail);
    CutsAgreeOnLog(cfg, c, head, tail);
  }

  /**
   * After a close frame the handler goes on with the chunk it is in and drops later chunks.
   * All ways of cutting agree on the events iff the bytes behind the close frame are quiet.
   */
  lemma CutsAgreeIff(cfg: Config, c: Conn, head: seq<byte>, tail: seq<byte>)
    requires Ready(cfg, c) && !c.state.Over() && EndsAt(cfg, c, head) && Run(cfg, c, head).state == CLOSED
    ensures var d := Run(cfg, c, head);
            CutsAgree(cfg, c, head + tail) <==> Quiet(cfg, d.fragmentOpcode, |d.payload|, tail)
  {
    HowItEnds(cfg, c, head, tail);
    CutsAgreeOnLog(cfg, c, head, tail);
    QuietIff(cfg, Run(cfg, c, head), tail);
  }
}
