/** The closing protocol, section 5.5.1 of RFC 6455, over every run of calls and received data. */
module WebSocketClosing {
  import opened Bytes
  import opened WebSocketSpec
  import opened WebSocketReceive

  predicate IsCloseFrame(e: Event) {
    e.Wrote? && e.opcode % 16 == OP_CLOSE
  }

  predicate IsClosedSignal(e: Event) {
    e.Closed?
  }

  /** A close frame is the last frame written, and the closed signal came once, exactly when over. */
  ghost predicate Orderly(c: Conn) {
    && (forall i :: 0 <= i < |c.log| && IsCloseFrame(c.log[i]) ==>
          c.state.Rank() >= 2 && forall j :: i < j < |c.log| ==> !c.log[j].Wrote?)
    && (forall i, j :: 0 <= i < j < |c.log| ==> !(c.log[i].Closed? && c.log[j].Closed?))
    && ((exists i :: 0 <= i < |c.log| && c.log[i].Closed?) <==> c.state.Over())
  }

  /** From `c` to `d` events are only added, the state only moves forward and order is kept. */
  ghost predicate Grows(c: Conn, d: Conn) {
    && c.log <= d.log
    && c.state.Rank() <= d.state.Rank()
    && (c.state.Over() ==> c.state == d.state)
    && (Orderly(c) ==> Orderly(d))
  }

  lemma GrowsTrans(a: Conn, b: Conn, c: Conn)
    requires Grows(a, b) && Grows(b, c)
    ensures Grows(a, c)
  {
  }

  /** Signals other than closed, and changes to the parsing fields. */
  lemma SignalGrows(c: Conn, e: Event, d: Conn)
    requires !e.Wrote? && !e.Closed?
    requires d.state == c.state && d.log == c.log + [e]
    ensures Grows(c, d)
  {
    if Orderly(c) && c.state.Over() {
      var i :| 0 <= i < |c.log| && c.log[i].Closed?;
      assert d.log[i].Closed?;
    }
  }

  lemma SendGrows(c: Conn, opcode: byte, data: seq<byte>)
    requires opcode % 16 != OP_CLOSE
    ensures Grows(c, SendFrame(c, opcode, data))
  {
  }

  lemma CloseGrows(c: Conn, code: nat, reason: seq<byte>)
    ensures Grows(c, Close(c, code, reason))
  {
  }

  /** Writing a close frame while open, then ending the connection. */
  lemma EndGrows(c: Conn, code: nat, reason: seq<byte>, failed: bool)
    ensures Grows(c, SetClosed(c, code, reason, failed))
    ensures Grows(c, SetClosed(SendClose(c, code, reason), code, reason, failed))
  {
    EndOnly(c, code, reason, failed);
    if c.state == OPEN {
      var d := SetClosed(SendClose(c, code, reason), code, reason, failed);
      assert d.log == c.log + [Wrote(FLAG_FIN + OP_CLOSE, CloseBody(code, reason)), Closed(code, reason)];
      assert d.log[|d.log| - 1].Closed?;
    }
  }

  lemma EndOnly(c: Conn, code: nat, reason: seq<byte>, failed: bool)
    ensures Grows(c, SetClosed(c, code, reason, failed))
  {
    if !c.state.Over() {
      var d := SetClosed(c, code, reason, failed);
      assert d.log[|d.log| - 1].Closed?;
    }
  }

  lemma FailGrows(c: Conn, code: nat, reason: seq<byte>)
    ensures Grows(c, Fail(c, code, reason)) && Grows(c, Terminate(c, code, reason))
  {
    if !c.state.Over() {
      EndGrows(c, code, reason, true);
      EndGrows(c, code, reason, false);
      var d := SetClosed(SendClose(c, code, reason), code, reason, true);
      SignalGrows(d, ShutDown, Emit(d, ShutDown));
      GrowsTrans(c, d, Emit(d, ShutDown));
      var e := SetClosed(c, code, reason, false);
      SignalGrows(e, ShutDown, Emit(e, ShutDown));
      GrowsTrans(c, e, Emit(e, ShutDown));
    }
  }

  lemma DeliverCloseGrows(cfg: Config, c: Conn, fin: bool)
    ensures Grows(c, DeliverClose(cfg, c, fin))
  {
    var code, reason := CloseCode(c.payload, fin), CloseReason(c.payload, fin);
    EndGrows(c, code, reason, false);
    var d := if c.state != CLOSING then SendClose(c, code, reason) else c;
    var e := SetClosed(d, code, reason, false);
    SignalGrows(e, ShutDown, Emit(e, ShutDown));
    GrowsTrans(c, e, Emit(e, ShutDown));
  }

  lemma DeliverGrows(cfg: Config, c: Conn, fin: bool, opcode: byte)
    ensures Grows(c, Deliver(cfg, c, fin, opcode).conn)
  {
    var o := Deliver(cfg, c, fin, opcode);
    if o.stop {
      FailGrows(c, 1002, Ascii("invalid continuation message"));
      FailGrows(c, 1002, Ascii("incomplete fragment"));
      FailGrows(c, 1002, Ascii("cannot fragment control frames"));
      FailGrows(c, 1002, Ascii("invalid message opcode"));
    } else if opcode == OP_CLOSE {
      DeliverCloseGrows(cfg, c, fin);
    } else if o.conn.log != c.log {
      var n := |c.log|;
      SignalGrows(c, o.conn.log[n], o.conn);
    }
  }

  // Signals and state do not depend on the parsing fields.

  lemma FrameDoneGrows(cfg: Config, c: Conn)
    requires Complete(c.header) && c.frameStart <= |c.payload|
    ensures Grows(c, FrameDone(cfg, c).conn)
  {
    DeliverGrows(cfg, c.(payload := Unmasked(c)), c.header[0] >= FLAG_FIN, c.header[0] % 16);
  }

  lemma HeaderDoneGrows(cfg: Config, c: Conn)
    requires Complete(c.header) && c.frameStart <= |c.payload|
    ensures Grows(c, HeaderDone(cfg, c).conn)
  {
    var d := c.(frameSize := FrameLength(c.header));
    FrameDoneGrows(cfg, d);
    FailGrows(d, 1009, Ascii("message too large"));
  }

  lemma HeaderSizedGrows(cfg: Config, c: Conn)
    requires |c.header| == 2 && c.frameStart <= |c.payload|
    ensures Grows(c, HeaderSized(cfg, c).conn)
  {
    var d := c.(headerSize := HeaderSize(c.header[1]));
    if c.header[0] / 16 % 8 != 0 {
      FailGrows(c, 1002, Ascii("nonzero RSV"));
    } else if cfg.server && !Masked(c.header[1]) {
      FailGrows(d, 1002, Ascii("client data not masked"));
    } else if !cfg.server && Masked(c.header[1]) {
      FailGrows(d, 1002, Ascii("server data masked"));
    } else if d.headerSize == 2 {
      HeaderDoneGrows(cfg, d);
    }
  }

  lemma StepGrows(cfg: Config, c: Conn, b: byte)
    requires Ready(cfg, c)
    ensures Grows(c, Step(cfg, c, b).conn)
  {
    if c.frameSize == NO_FRAME {
      var d := c.(header := c.header + [b]);
      if |d.header| == 2 {
        HeaderSizedGrows(cfg, d);
      } else if |d.header| > 2 && |d.header| == d.headerSize {
        HeaderDoneGrows(cfg, d);
      }
    } else {
      FrameDoneGrows(cfg, c.(payload := c.payload + [b]));
    }
  }

  lemma {:induction false} RunGrows(cfg: Config, c: Conn, data: seq<byte>)
    requires Ready(cfg, c)
    ensures Grows(c, Run(cfg, c, data))
    decreases |data|
  {
    if data != [] {
      StepReady(cfg, c, data[0]);
      StepGrows(cfg, c, data[0]);
      var o := Step(cfg, c, data[0]);
      if !o.stop {
        RunGrows(cfg, o.conn, data[1..]);
        GrowsTrans(c, o.conn, Run(cfg, o.conn, data[1..]));
      }
    }
  }

  // Runs

  datatype Action =
    | DoClose(code: nat, reason: seq<byte>)
    | DoFail(code: nat, reason: seq<byte>)
    | DoTerminate(code: nat, reason: seq<byte>)
    | DoSend(frames: seq<(byte, seq<byte>)>)
    | DoReceive(data: seq<byte>)
    | StreamClosed

  /** Callers send data, ping and pong frames; only the connection itself sends close frames. */
  predicate Permitted(a: Action) {
    a.DoSend? ==> forall f :: f in a.frames ==> f.0 % 16 != OP_CLOSE
  }

  ghost function Perform(cfg: Config, c: Conn, a: Action): Conn
    requires Valid(cfg, c)
  {
    match a
    case DoClose(code, reason) => Close(c, code, reason)
    case DoFail(code, reason) => Fail(c, code, reason)
    case DoTerminate(code, reason) => Terminate(c, code, reason)
    case DoSend(frames) => SendAll(c, frames)
    case DoReceive(data) => Receive(cfg, c, data)
    case StreamClosed => SetClosed(c, 1006, Ascii("handle closed"), false)
  }

  lemma {:induction false} SendAllGrows(c: Conn, frames: seq<(byte, seq<byte>)>)
    requires forall f :: f in frames ==> f.0 % 16 != OP_CLOSE
    ensures Grows(c, SendAll(c, frames)) && SendAll(c, frames) == c.(log := SendAll(c, frames).log)
    decreases |frames|
  {
    if frames != [] {
      var d := SendFrame(c, frames[0].0, frames[0].1);
      SendGrows(c, frames[0].0, frames[0].1);
      SendAllGrows(d, frames[1..]);
      GrowsTrans(c, d, SendAll(d, frames[1..]));
    }
  }

  lemma PerformGrows(cfg: Config, c: Conn, a: Action)
    requires Valid(cfg, c) && Permitted(a)
    ensures Grows(c, Perform(cfg, c, a)) && Valid(cfg, Perform(cfg, c, a))
  {
    match a
    case DoClose(code, reason) => CloseGrows(c, code, reason);
    case DoFail(code, reason) => FailGrows(c, code, reason);
    case DoTerminate(code, reason) => FailGrows(c, code, reason);
    case DoSend(frames) => SendAllGrows(c, frames);
    case DoReceive(data) =>
      if !c.state.Over() {
        RunGrows(cfg, c, data);
        RunValid(cfg, c, data);
      }
    case StreamClosed => EndOnly(c, 1006, Ascii("handle closed"), false);
  }

  ghost function PerformAll(cfg: Config, c: Conn, actions: seq<Action>): Conn
    requires Valid(cfg, c) && forall a :: a in actions ==> Permitted(a)
    decreases |actions|
  {
    if actions == [] then c
    else
      PerformGrows(cfg, c, actions[0]);
      PerformAll(cfg, Perform(cfg, c, actions[0]), actions[1..])
  }

  lemma {:induction false} PerformAllGrows(cfg: Config, c: Conn, actions: seq<Action>)
    requires Valid(cfg, c) && forall a :: a in actions ==> Permitted(a)
    ensures Grows(c, PerformAll(cfg, c, actions))
    decreases |actions|
  {
    if actions != [] {
      PerformGrows(cfg, c, actions[0]);
      var d := Perform(cfg, c, actions[0]);
      PerformAllGrows(cfg, d, actions[1..]);
      GrowsTrans(c, d, PerformAll(cfg, d, actions[1..]));
    }
  }

  function Count(log: seq<Event>, p: Event -> bool): nat {
    if log == [] then 0 else Count(log[1..], p) + if p(log[0]) then 1 else 0
  }

  lemma {:induction false} CountAtMostOne(log: seq<Event>, p: Event -> bool)
    requires forall i, j :: 0 <= i < j < |log| ==> !(p(log[i]) && p(log[j]))
    ensures Count(log, p) == if exists i :: 0 <= i < |log| && p(log[i]) then 1 else 0
  {
    if log != [] {
      CountAtMostOne(log[1..], p);
      if i :| 0 <= i < |log[1..]| && p(log[1..][i]) {
        assert p(log[i + 1]);
      }
      assert forall i :: 1 <= i < |log| ==> log[i] == log[1..][i - 1];
    }
  }

  /**
   * Every run from a fresh connection: the state moves forward through the
   * run, the closed signal is raised exactly once if the connection is over
   * and never otherwise, and at most one close frame is written, with no
   * frame after it.
   */
  lemma ClosingProtocol(cfg: Config, c: Conn, first: seq<Action>, rest: seq<Action>)
    requires Ready(cfg, c) && c.log == [] && !c.state.Over()
    requires forall a :: a in first + rest ==> Permitted(a)
    ensures var d := PerformAll(cfg, c, first);
            var e := PerformAll(cfg, c, first + rest);
            && d.state.Rank() <= e.state.Rank() && (d.state.Over() ==> e.state == d.state)
            && d.log <= e.log
            && Count(e.log, IsClosedSignal) == (if e.state.Over() then 1 else 0)
            && Count(e.log, IsCloseFrame) <= 1
            && forall i, j :: 0 <= i < j < |e.log| && IsCloseFrame(e.log[i]) ==> !e.log[j].Wrote?
  {
    var d, e := PerformAll(cfg, c, first), PerformAll(cfg, c, first + rest);
    PerformAllGrows(cfg, c, first + rest);
    PerformAllSplit(cfg, c, first, rest);
    CountAtMostOne(e.log, IsClosedSignal);
    CountAtMostOne(e.log, IsCloseFrame);
  }

  lemma {:induction false} PerformAllSplit(cfg: Config, c: Conn, first: seq<Action>, rest: seq<Action>)
    requires Valid(cfg, c) && forall a :: a in first + rest ==> Permitted(a)
    ensures forall a :: a in first ==> Permitted(a)
    ensures Grows(PerformAll(cfg, c, first), PerformAll(cfg, c, first + rest))
    decreases |first|
  {
    assert forall a :: a in first ==> a in first + rest;
    if first == [] {
      assert first + rest == rest;
      PerformAllGrows(cfg, c, rest);
    } else {
      assert (first + rest)[0] == first[0] && (first + rest)[1..] == first[1..] + rest;
      PerformGrows(cfg, c, first[0]);
      PerformAllSplit(cfg, Perform(cfg, c, first[0]), first[1..], rest);
    }
  }
}
