/** How the events depend on the way the byte stream is cut into chunks. */
module WebSocketChunking {
  import opened Bytes
  import opened WebSocketSpec
  import opened WebSocketReceive
  import opened WebSocketClosing

  /** Chunks arriving one after the other. */
  ghost function ReceiveAll(cfg: Config, c: Conn, chunks: seq<seq<byte>>): Conn
    requires Valid(cfg, c)
    decreases |chunks|
  {
    if chunks == [] then c
    else
      ReceiveValid(cfg, c, chunks[0]);
      ReceiveAll(cfg, Receive(cfg, c, chunks[0]), chunks[1..])
  }

  lemma ReceiveValid(cfg: Config, c: Conn, data: seq<byte>)
    requires Valid(cfg, c)
    ensures Valid(cfg, Receive(cfg, c, data))
  {
    if !c.state.Over() {
      RunValid(cfg, c, data);
    }
  }

  lemma {:induction false} ReceiveAllOver(cfg: Config, c: Conn, chunks: seq<seq<byte>>)
    requires c.state.Over()
    ensures ReceiveAll(cfg, c, chunks) == c
    decreases |chunks|
  {
    if chunks != [] {
      ReceiveAllOver(cfg, c, chunks[1..]);
    }
  }

  /** A prefix that leaves the connection going: the rest is as if it came in the same chunk. */
  lemma {:induction false} RunSplit(cfg: Config, c: Conn, a: seq<byte>, b: seq<byte>)
    requires Ready(cfg, c)
    ensures Valid(cfg, Run(cfg, c, a))
    ensures !Run(cfg, c, a).state.Over() ==> Run(cfg, c, a + b) == Run(cfg, Run(cfg, c, a), b)
    decreases |a|
  {
    RunValid(cfg, c, a);
    if a == [] {
      assert a + b == b;
    } else {
      assert (a + b)[0] == a[0] && (a + b)[1..] == a[1..] + b;
      StepReady(cfg, c, a[0]);
      var o := Step(cfg, c, a[0]);
      if !o.stop {
        RunSplit(cfg, o.conn, a[1..], b);
      }
    }
  }

  lemma {:induction false} RunLog(cfg: Config, c: Conn, a: seq<byte>, b: seq<byte>)
    requires Ready(cfg, c)
    ensures c.log <= Run(cfg, c, a).log <= Run(cfg, c, a + b).log
    decreases |a| + |b|
  {
    if a + b != [] {
      var x := (a + b)[0];
      StepReady(cfg, c, x);
      StepGrows(cfg, c, x);
      var o := Step(cfg, c, x);
      if !o.stop {
        if a == [] {
          assert a + b == b;
          RunLog(cfg, o.conn, [], b[1..]);
          assert [] + b[1..] == b[1..];
        } else {
          assert (a + b)[1..] == a[1..] + b;
          RunLog(cfg, o.conn, a[1..], b);
        }
      }
    }
  }

  /**
   * However the stream is cut, the chunks have the effect of one chunk holding
   * the first `n` bytes, where either nothing follows them or the connection
   * is already over there.
   */
  lemma {:induction false} ChunksAreAPrefix(cfg: Config, c: Conn, chunks: seq<seq<byte>>) returns (n: nat)
    requires Ready(cfg, c) && !c.state.Over()
    ensures var s := Flatten(chunks);
            && n <= |s| && ReceiveAll(cfg, c, chunks) == Run(cfg, c, s[..n])
            && (n == |s| || Run(cfg, c, s[..n]).state.Over())
    decreases |chunks|
  {
    var s := Flatten(chunks);
    if chunks == [] {
      n := 0;
    } else {
      var x, rest := chunks[0], Flatten(chunks[1..]);
      RunSplit(cfg, c, x, []);
      var d := Run(cfg, c, x);
      if d.state.Over() {
        ReceiveAllOver(cfg, d, chunks[1..]);
        n := |x|;
        assert s[..n] == x;
      } else {
        var m := ChunksAreAPrefix(cfg, d, chunks[1..]);
        RunSplit(cfg, c, x, rest[..m]);
        n := |x| + m;
        assert s[..n] == x + rest[..m];
      }
    }
  }

  /** The connection is over after `s` but not before its last byte. */
  ghost predicate EndsAt(cfg: Config, c: Conn, s: seq<byte>)
    requires Ready(cfg, c)
  {
    && Run(cfg, c, s).state.Over()
    && forall k :: 0 <= k < |s| ==> !Run(cfg, c, s[..k]).state.Over()
  }

  /** While no close frame or failure has come, cutting the stream changes nothing at all. */
  lemma ChunkingIsInvisible(cfg: Config, c: Conn, chunks: seq<seq<byte>>)
    requires Ready(cfg, c) && !c.state.Over()
    requires !Run(cfg, c, Flatten(chunks)).state.Over() || EndsAt(cfg, c, Flatten(chunks))
    ensures ReceiveAll(cfg, c, chunks) == Run(cfg, c, Flatten(chunks))
  {
    var s := Flatten(chunks);
    var n := ChunksAreAPrefix(cfg, c, chunks);
    assert s[..|s|] == s;
    if n < |s| && !Run(cfg, c, s).state.Over() {
      assert s[..n] + s[n..] == s;
      OverForever(cfg, c, s[..n], s[n..]);
    }
  }

  lemma {:induction false} OverForever(cfg: Config, c: Conn, a: seq<byte>, b: seq<byte>)
    requires Ready(cfg, c) && Run(cfg, c, a).state.Over()
    ensures Run(cfg, c, a + b).state == Run(cfg, c, a).state
    decreases |a| + |b|
  {
    if a + b != [] {
      var x := (a + b)[0];
      StepReady(cfg, c, x);
      var o := Step(cfg, c, x);
      if a == [] {
        assert a + b == b;
        StepGrows(cfg, c, x);
        if !o.stop {
          OverForever(cfg, o.conn, [], b[1..]);
          assert [] + b[1..] == b[1..];
        }
      } else if !o.stop {
        assert (a + b)[1..] == a[1..] + b;
        OverForever(cfg, o.conn, a[1..], b);
      }
    }
  }

  /** However the stream is cut, the events are the same. */
  ghost predicate CutsAgree(cfg: Config, c: Conn, s: seq<byte>)
    requires Ready(cfg, c)
  {
    forall chunks: seq<seq<byte>> :: Flatten(chunks) == s ==> ReceiveAll(cfg, c, chunks).log == Run(cfg, c, s).log
  }

  /** All ways of cutting agree on the events iff the two extreme ones do. */
  lemma CutsAgreeOnLog(cfg: Config, c: Conn, head: seq<byte>, tail: seq<byte>)
    requires Ready(cfg, c) && !c.state.Over() && EndsAt(cfg, c, head)
    ensures CutsAgree(cfg, c, head + tail) <==> Run(cfg, c, head + tail).log == Run(cfg, c, head).log
  {
    var s := head + tail;
    var h := Run(cfg, c, head);
    RunValid(cfg, c, head);
    RunLog(cfg, c, head, tail);
    var cut := [head, tail];
    assert cut[1..] == [tail];
    assert Flatten([tail]) == tail + Flatten<byte>([]);
    ReceiveAllOver(cfg, h, cut[1..]);
    assert ReceiveAll(cfg, c, cut) == h;
    if Run(cfg, c, s).log == h.log {
      forall chunks: seq<seq<byte>> | Flatten(chunks) == s
        ensures ReceiveAll(cfg, c, chunks).log == Run(cfg, c, s).log
      {
        CutBetween(cfg, c, head, tail, chunks);
      }
    }
  }

  lemma NotBeforeEnd(cfg: Config, c: Conn, head: seq<byte>, tail: seq<byte>, n: nat)
    requires Ready(cfg, c) && EndsAt(cfg, c, head) && n <= |head + tail|
    requires n == |head + tail| || Run(cfg, c, (head + tail)[..n]).state.Over()
    ensures |head| <= n
  {
    hide Ready, Run;
    assert forall k :: 0 <= k < |head| ==> (head + tail)[..k] == head[..k];
  }

  /** Any cut gives at least the events of `head` and at most those of all the bytes in one chunk. */
  lemma CutBetween(cfg: Config, c: Conn, head: seq<byte>, tail: seq<byte>, chunks: seq<seq<byte>>)
    requires Ready(cfg, c) && !c.state.Over() && EndsAt(cfg, c, head)
    requires Flatten(chunks) == head + tail
    ensures Run(cfg, c, head).log <= ReceiveAll(cfg, c, chunks).log <= Run(cfg, c, head + tail).log
  {
    hide Ready, Run, ReceiveAll, EndsAt;
    var s := head + tail;
    var n := ChunksAreAPrefix(cfg, c, chunks);
    NotBeforeEnd(cfg, c, head, tail, n);
    assert s[..n] == head + tail[..n - |head|];
    RunLog(cfg, c, head, tail[..n - |head|]);
    RunLog(cfg, c, s[..n], s[n..]);
    assert s[..n] + s[n..] == s;
  }

  /** Cutting is visible: a ping after a close frame is signalled only if it came in the same chunk. */
  lemma PingAfterClose()
    ensures var cfg := Config(false, true, 1000);
            var c := Conn(CLOSING, [], 0, [], 0, NO_FRAME, 0, []);
            var close, ping := [FLAG_FIN + OP_CLOSE, 0], [FLAG_FIN + OP_PING, 0];
            && ReceiveAll(cfg, c, [close + ping]).log == [Closed(1005, []), Ping([])]
            && ReceiveAll(cfg, c, [close, ping]).log == [Closed(1005, [])]
  {
    var cfg := Config(false, true, 1000);
    var c := Conn(CLOSING, [], 0, [], 0, NO_FRAME, 0, []);
    var close, ping := [FLAG_FIN + OP_CLOSE, 0], [FLAG_FIN + OP_PING, 0];
    var d := Conn(CLOSED, [], 0, [], 0, NO_FRAME, 0, [Closed(1005, [])]);
    var e := Emit(d, Ping([]));
    EmptyFrame(cfg, c, close[0], d);
    EmptyFrame(cfg, d, ping[0], e);
    TwoBytes(cfg, c, close[0], d, ping);
    TwoBytes(cfg, d, ping[0], e, []);
    assert ping == ping + [] && close == close + [];
    TwoBytes(cfg, c, close[0], d, []);
    ReceiveAllOver(cfg, d, [ping]);
    assert [close, ping][1..] == [ping];
  }

  lemma EmptyFrame(cfg: Config, c: Conn, first: byte, d: Conn)
    requires Ready(cfg, c) && c.header == [] && c.frameSize == NO_FRAME && !cfg.server
    requires first / 16 % 8 == 0
    requires var whole := c.(header := [first, 0], headerSize := 2, frameSize := 0);
             FrameDone(cfg, whole) == Outcome(d, false)
    ensures Step(cfg, c, first) == Outcome(c.(header := [first]), false)
    ensures Ready(cfg, c.(header := [first]))
    ensures Step(cfg, c.(header := [first]), 0) == Outcome(d, false)
  {
    assert [first] + [0] == [first, 0];
  }

  lemma TwoBytes(cfg: Config, c: Conn, first: byte, d: Conn, rest: seq<byte>)
    requires Ready(cfg, c) && Ready(cfg, d) && Ready(cfg, c.(header := [first]))
    requires Step(cfg, c, first) == Outcome(c.(header := [first]), false)
    requires Step(cfg, c.(header := [first]), 0) == Outcome(d, false)
    ensures Run(cfg, c, [first, 0] + rest) == Run(cfg, d, rest)
  {
    assert ([first, 0] + rest)[1..] == [0] + rest;
    assert ([0] + rest)[1..] == rest;
  }
}
