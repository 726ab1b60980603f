/** The receive handler, which copies header and payload in bulk, against the byte machine. */
module WebSocketReceive {
  import opened Bytes
  import opened Endian
  import opened WebSocketSpec

  function Min(a: nat, b: nat): nat {
    if a < b then a else b
  }

  ghost function Resume(cfg: Config, o: Outcome, rest: seq<byte>): Conn
    requires Next(cfg, o)
  {
    if o.stop then o.conn else Run(cfg, o.conn, rest)
  }

  /** Data arriving at a connection: ignored once it has failed or closed. */
  ghost function Receive(cfg: Config, c: Conn, data: seq<byte>): Conn
    requires Valid(cfg, c)
  {
    if c.state.Over() then c else Run(cfg, c, data)
  }

  ghost predicate Valid(cfg: Config, c: Conn) {
    c.state.Over() || Ready(cfg, c)
  }

  /**
   * No frame length in `data` makes the 64-bit sum with the payload already
   * held wrap around. Lengths with the top bit clear, the only ones section
   * 5.2 of RFC 6455 allows, satisfy it (see `TopBitClearFits`).
   */
  ghost predicate Fits(cfg: Config, c: Conn, data: seq<byte>)
    requires Ready(cfg, c)
    decreases |data|
  {
    data == [] ||
    (StepReady(cfg, c, data[0]);
     var o := Step(cfg, c, data[0]);
     StepFits(c, data[0]) && (o.stop || Fits(cfg, o.conn, data[1..])))
  }

  ghost predicate StepFits(c: Conn, b: byte) {
    var h := c.header + [b];
    c.frameSize == NO_FRAME && Complete(h) ==> |c.payload| + FrameLength(h) < SIZE_LIMIT
  }

  lemma {:induction false} RunValid(cfg: Config, c: Conn, data: seq<byte>)
    requires Ready(cfg, c)
    ensures Valid(cfg, Run(cfg, c, data))
    decreases |data|
  {
    if data != [] {
      var o := Step(cfg, c, data[0]);
      StepReady(cfg, c, data[0]);
      if !o.stop {
        RunValid(cfg, o.conn, data[1..]);
      }
    }
  }

  // Copying a stretch of bytes at once

  lemma {:induction false} HeaderStretch(cfg: Config, c: Conn, part: seq<byte>, rest: seq<byte>)
    requires Ready(cfg, c) && c.frameSize == NO_FRAME
    requires |c.header| + |part| < (if |c.header| < 2 then 2 else c.headerSize)
    ensures var d := c.(header := c.header + part);
            && Ready(cfg, d) && Run(cfg, c, part + rest) == Run(cfg, d, rest)
            && (Fits(cfg, c, part + rest) <==> Fits(cfg, d, rest))
    decreases |part|
  {
    if part == [] {
      assert c.header + part == c.header && part + rest == rest;
    } else {
      var d := c.(header := c.header + [part[0]]);
      assert Step(cfg, c, part[0]) == Outcome(d, false);
      assert (part + rest)[0] == part[0] && (part + rest)[1..] == part[1..] + rest;
      HeaderStretch(cfg, d, part[1..], rest);
      assert d.header + part[1..] == c.header + part;
    }
  }

  lemma {:induction false} PayloadStretch(cfg: Config, c: Conn, part: seq<byte>, rest: seq<byte>)
    requires Ready(cfg, c) && c.frameSize != NO_FRAME
    requires |c.payload| + |part| < c.frameStart + c.frameSize
    ensures var d := c.(payload := c.payload + part);
            && Ready(cfg, d) && Run(cfg, c, part + rest) == Run(cfg, d, rest)
            && (Fits(cfg, c, part + rest) <==> Fits(cfg, d, rest))
    decreases |part|
  {
    if part == [] {
      assert c.payload + part == c.payload && part + rest == rest;
    } else {
      var d := c.(payload := c.payload + [part[0]]);
      assert Step(cfg, c, part[0]) == Outcome(d, false);
      assert (part + rest)[0] == part[0] && (part + rest)[1..] == part[1..] + rest;
      PayloadStretch(cfg, d, part[1..], rest);
      assert d.payload + part[1..] == c.payload + part;
    }
  }

  ghost predicate ResumeFits(cfg: Config, o: Outcome, rest: seq<byte>)
    requires Next(cfg, o)
  {
    o.stop || Fits(cfg, o.conn, rest)
  }

  /** The bytes of `part` end the two-byte start of the header, or all of it. */
  lemma HeaderEnd(cfg: Config, c: Conn, part: seq<byte>, rest: seq<byte>)
    requires Ready(cfg, c) && c.frameSize == NO_FRAME && part != []
    requires |c.header| + |part| == (if |c.header| < 2 then 2 else c.headerSize)
    ensures var d := c.(header := c.header + part);
            var o := if |c.header| < 2 then HeaderSized(cfg, d) else HeaderDone(cfg, d);
            && Next(cfg, o) && Run(cfg, c, part + rest) == Resume(cfg, o, rest)
            && (Fits(cfg, c, part + rest) <==>
                  && ResumeFits(cfg, o, rest)
                  && (Complete(d.header) ==> |d.payload| + FrameLength(d.header) < SIZE_LIMIT))
  {
    var n := |part| - 1;
    var d := c.(header := c.header + part[..n]);
    assert part[..n] + ([part[n]] + rest) == part + rest;
    HeaderStretch(cfg, c, part[..n], [part[n]] + rest);
    assert d.header + [part[n]] == c.header + part;
    StepReady(cfg, d, part[n]);
    assert ([part[n]] + rest)[1..] == rest;
  }

  lemma PayloadEnd(cfg: Config, c: Conn, part: seq<byte>, rest: seq<byte>)
    requires Ready(cfg, c) && c.frameSize != NO_FRAME && part != []
    requires |c.payload| + |part| == c.frameStart + c.frameSize
    ensures var o := FrameDone(cfg, c.(payload := c.payload + part));
            && Next(cfg, o) && Run(cfg, c, part + rest) == Resume(cfg, o, rest)
            && (Fits(cfg, c, part + rest) <==> ResumeFits(cfg, o, rest))
  {
    var n := |part| - 1;
    var d := c.(payload := c.payload + part[..n]);
    assert part[..n] + ([part[n]] + rest) == part + rest;
    PayloadStretch(cfg, c, part[..n], [part[n]] + rest);
    assert d.payload + [part[n]] == c.payload + part;
    StepReady(cfg, d, part[n]);
    assert ([part[n]] + rest)[1..] == rest;
  }

  // Lengths whose top bit is clear

  /** The rule of section 5.2 of RFC 6455 for every 64-bit length read while handling `data`. */
  ghost predicate TopBitsClear(cfg: Config, c: Conn, data: seq<byte>)
    requires Ready(cfg, c)
    decreases |data|
  {
    data == [] ||
    (StepReady(cfg, c, data[0]);
     var o := Step(cfg, c, data[0]);
     var h := c.header + [data[0]];
     && (c.frameSize == NO_FRAME && Complete(h) && h[1] % 128 == 127 ==> h[2] < 128)
     && (o.stop || TopBitsClear(cfg, o.conn, data[1..])))
  }

  lemma LengthBound(h: seq<byte>)
    requires Complete(h) && (h[1] % 128 == 127 ==> h[2] < 128)
    ensures FrameLength(h) < 0x8000_0000_0000_0000
  {
    if h[1] % 128 == 127 {
      BigEndianBound(h[2..10]);
      assert Pow256(7) == 0x100_0000_0000_0000;
      assert (h[2] + 1) * Pow256(7) <= 128 * Pow256(7);
    } else if h[1] % 128 == 126 {
      BigEndianBound(h[2..4]);
      assert Pow256(1) == 256;
    }
  }

  lemma {:induction false} TopBitClearFits(cfg: Config, c: Conn, data: seq<byte>)
    requires Ready(cfg, c) && cfg.maxSize < 0x8000_0000_0000_0000
    requires TopBitsClear(cfg, c, data)
    ensures Fits(cfg, c, data)
    decreases |data|
  {
    if data != [] {
      StepReady(cfg, c, data[0]);
      var o, h := Step(cfg, c, data[0]), c.header + [data[0]];
      if c.frameSize == NO_FRAME && Complete(h) {
        LengthBound(h);
      }
      if !o.stop {
        TopBitClearFits(cfg, o.conn, data[1..]);
      }
    }
  }
}
