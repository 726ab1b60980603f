/** A WebSocket connection: fields updated in place by the receive handler and the closing calls. */
module WebSocketConnection {
  import opened Bytes
  import opened Endian
  import opened WebSocketSpec
  import opened WebSocketReceive

  class WebSocket {
    const cfg: Config
    var state: State
    var header: seq<byte>
    var headerSize: nat
    var payload: seq<byte>
    var frameStart: nat
    var frameSize: nat
    var fragmentOpcode: byte
    var log: seq<Event>

    ghost function Abs(): Conn
      reads this
    {
      Conn(state, header, headerSize, payload, frameStart, frameSize, fragmentOpcode, log)
    }

    /** A connection whose handshake is done. */
    constructor (cfg: Config)
      requires cfg.maxSize < NO_FRAME
      ensures this.cfg == cfg && Ready(cfg, Abs()) && state == OPEN && log == []
      ensures payload == [] && fragmentOpcode == 0
    {
      this.cfg := cfg;
      state, header, headerSize, payload := OPEN, [], 0, [];
      frameStart, frameSize, fragmentOpcode, log := 0, NO_FRAME, 0, [];
    }

    method Signal(e: Event)
      modifies this`log
      ensures Abs() == Emit(old(Abs()), e)
    {
      log := log + [e];
    }

    // Sending and closing

    method SendFrames(frames: seq<(byte, seq<byte>)>)
      modifies this`log
      ensures Abs() == SendAll(old(Abs()), frames)
    {
      if state != OPEN {
        SendAllRefused(Abs(), frames);
        return;
      }
      for i := 0 to |frames|
        invariant state == OPEN
        invariant SendAll(Abs(), frames[i..]) == SendAll(old(Abs()), frames)
      {
        Signal(Wrote(frames[i].0, frames[i].1));
        assert frames[i..][1..] == frames[i + 1..];
      }
    }

    method SendCloseFrame(code: nat, reason: seq<byte>)
      modifies this`log
      ensures Abs() == SendClose(old(Abs()), code, reason)
    {
      var body := [];
      if code != 1005 {
        body := [code / 256 % 256, code % 256] + reason;
      }
      var frames := [(FLAG_FIN + OP_CLOSE, body)];
      assert SendAll(Abs(), frames) == SendAll(SendClose(Abs(), code, reason), frames[1..]);
      SendFrames(frames);
    }

    method SetClosedState(code: nat, reason: seq<byte>, failed: bool)
      modifies this`log, this`state
      ensures Abs() == SetClosed(old(Abs()), code, reason, failed)
    {
      if state == FAILED || state == CLOSED {
        return;
      }
      state := if failed then FAILED else CLOSED;
      Signal(Closed(code, reason));
    }

    method CloseConnection(code: nat, reason: seq<byte>)
      modifies this`log, this`state
      ensures Abs() == Close(old(Abs()), code, reason)
    {
      SendCloseFrame(code, reason);
      if state != FAILED && state != CLOSED {
        state := CLOSING;
      }
    }

    method FailConnection(code: nat, reason: seq<byte>)
      modifies this`log, this`state
      ensures Abs() == Fail(old(Abs()), code, reason)
    {
      if state == FAILED || state == CLOSED {
        return;
      }
      SendCloseFrame(code, reason);
      SetClosedState(code, reason, true);
      Signal(ShutDown);
    }

    method TerminateConnection(code: nat, reason: seq<byte>)
      modifies this`log, this`state
      ensures Abs() == Terminate(old(Abs()), code, reason)
    {
      if state == FAILED || state == CLOSED {
        return;
      }
      SetClosedState(code, reason, false);
      Signal(ShutDown);
    }

    // Receiving

    method HandleIncoming(data: seq<byte>)
      requires state != CONNECTING && Valid(cfg, Abs())
      requires !state.Over() ==> Fits(cfg, Abs(), data)
      modifies this
      ensures Valid(cfg, Abs())
      ensures Abs() == Receive(cfg, old(Abs()), data)
    {
      if state == FAILED || state == CLOSED {
        return;
      }
      ghost var start := Abs();
      RunValid(cfg, start, data);
      var rest, stop := data, false;
      while rest != []
        invariant Ready(cfg, Abs()) && Fits(cfg, Abs(), rest)
        invariant Run(cfg, Abs(), rest) == Run(cfg, start, data)
        decreases |rest|
      {
        if frameSize == NO_FRAME {
          rest, stop := TakeHeader(rest);
          if stop {
            return;
          }
        }
        rest, stop := TakePayload(rest);
        if stop {
          return;
        }
      }
    }

    /** The frame whose header is complete; an empty one is complete too. */
    ghost function AtPayload(): Outcome
      reads this
      requires Complete(header) && frameStart <= |payload|
    {
      if frameSize == 0 then FrameDone(cfg, Abs()) else Outcome(Abs(), false)
    }

    ghost predicate PayloadReady()
      reads this
    {
      && Complete(header) && headerSize == |header| && frameSize != NO_FRAME
      && cfg.maxSize < NO_FRAME
      && frameStart <= |payload| <= frameStart + frameSize <= cfg.maxSize
      && (|payload| == frameStart + frameSize ==> frameSize == 0)
      && Next(cfg, AtPayload())
    }

    /** The header has its first two bytes and its size, and those two were accepted. */
    ghost predicate SizedReady()
      reads this
    {
      && |header| == 2 && headerSize == HeaderSize(header[1]) && frameSize == NO_FRAME
      && frameStart == |payload| <= cfg.maxSize < NO_FRAME
      && (Complete(header) ==> |payload| + FrameLength(header) < SIZE_LIMIT)
      && Next(cfg, AtSized())
    }

    ghost function AtSized(): Outcome
      reads this
      requires |header| == 2 && frameStart <= |payload|
    {
      if Complete(header) then HeaderDone(cfg, Abs()) else Outcome(Abs(), false)
    }

    /** The first two bytes of a header; `stop` when the handler returned. */
    method TakeStart(data: seq<byte>) returns (rest: seq<byte>, stop: bool)
      requires Ready(cfg, Abs()) && frameSize == NO_FRAME && |header| < 2
      requires data != [] && Fits(cfg, Abs(), data)
      modifies this
      ensures stop ==> Abs() == Run(cfg, old(Abs()), data)
      ensures !stop ==> |rest| < |data| && SizedReady() && ResumeFits(cfg, AtSized(), rest)
      ensures !stop ==> Resume(cfg, AtSized(), rest) == Run(cfg, old(Abs()), data)
    {
      ghost var start := Abs();
      var toCopy := Min(2 - |header|, |data|);
      ghost var part := data[..toCopy];
      header := header + data[..toCopy];
      rest := data[toCopy..];
      assert data == part + rest;
      if |header| < 2 {
        HeaderStretch(cfg, start, part, []);
        assert part + [] == data;
        stop := true;
        return;
      }
      HeaderEnd(cfg, start, part, rest);
      if header[0] / 16 % 8 != 0 {
        FailConnection(1002, Ascii("nonzero RSV"));
        stop := true;
        return;
      }
      stop := SizeHeader();
    }

    /** The size of the header, and the rule on masking for this end. */
    method SizeHeader() returns (stop: bool)
      requires |header| == 2 && frameStart <= |payload| && header[0] / 16 % 8 == 0
      modifies this
      ensures stop ==> HeaderSized(cfg, old(Abs())) == Outcome(Abs(), true)
      ensures !stop ==> Abs() == old(Abs()).(headerSize := HeaderSize(old(header[1])))
      ensures !stop ==> HeaderSized(cfg, old(Abs())) == AtSized()
    {
      headerSize := 2;
      var len := header[1] % 128;
      if len == 126 {
        headerSize := headerSize + 2;
      } else if len == 127 {
        headerSize := headerSize + 8;
      }
      var masking := header[1] >= FLAG_MASKING;
      if masking {
        headerSize := headerSize + 4;
      }
      stop := true;
      if cfg.server && !masking {
        FailConnection(1002, Ascii("client data not masked"));
        return;
      }
      if !cfg.server && masking {
        FailConnection(1002, Ascii("server data masked"));
        return;
      }
      stop := false;
    }

    /** Completes the header from `data`; `stop` when the handler returned. */
    method TakeHeader(data: seq<byte>) returns (rest: seq<byte>, stop: bool)
      requires Ready(cfg, Abs()) && frameSize == NO_FRAME
      requires data != [] && Fits(cfg, Abs(), data)
      modifies this
      ensures stop ==> Abs() == Run(cfg, old(Abs()), data)
      ensures !stop ==> |rest| < |data| && PayloadReady() && ResumeFits(cfg, AtPayload(), rest)
      ensures !stop ==> Resume(cfg, AtPayload(), rest) == Run(cfg, old(Abs()), data)
    {
      rest, stop := data, false;
      if |header| < 2 {
        rest, stop := TakeStart(rest);
        if stop {
          return;
        }
      }
      ghost var sized, mid := Abs(), rest;
      if |header| < headerSize {
        var toCopy := Min(headerSize - |header|, |rest|);
        ghost var part := rest[..toCopy];
        header := header + rest[..toCopy];
        rest := rest[toCopy..];
        assert mid == part + rest;
        if |header| < headerSize {
          HeaderStretch(cfg, sized, part, []);
          assert part + [] == mid;
          stop := true;
          return;
        }
        HeaderEnd(cfg, sized, part, rest);
      }
      stop := SizeFrame();
    }

    /** The payload length from a complete header, and the limit on it. */
    method SizeFrame() returns (stop: bool)
      requires Complete(header) && headerSize == |header| && cfg.maxSize < NO_FRAME
      requires frameStart == |payload| <= cfg.maxSize
      requires |payload| + FrameLength(header) < SIZE_LIMIT
      modifies this
      ensures stop ==> HeaderDone(cfg, old(Abs())) == Outcome(Abs(), true)
      ensures !stop ==> PayloadReady() && HeaderDone(cfg, old(Abs())) == AtPayload()
    {
      HeaderDoneReady(cfg, Abs());
      NoWrap(|payload| + FrameLength(header));
      hide FrameLength, FrameDone, Complete;
      frameSize := FrameLength(header);
      stop := (|payload| + frameSize) % SIZE_LIMIT > cfg.maxSize;
      if stop {
        FailConnection(1009, Ascii("message too large"));
      }
    }

    /** Copies payload bytes and handles the frame when it is complete. */
    method TakePayload(data: seq<byte>) returns (rest: seq<byte>, stop: bool)
      requires PayloadReady() && ResumeFits(cfg, AtPayload(), data)
      modifies this
      ensures |rest| <= |data| && (old(frameSize) != 0 && data != [] ==> |rest| < |data|)
      ensures stop ==> Abs() == Resume(cfg, old(AtPayload()), data)
      ensures !stop ==> Ready(cfg, Abs()) && Fits(cfg, Abs(), rest)
      ensures !stop ==> Run(cfg, Abs(), rest) == Resume(cfg, old(AtPayload()), data)
    {
      ghost var start := Abs();
      var need := frameStart + frameSize - |payload|;
      var toCopy := Min(need, |data|);
      ghost var part := data[..toCopy];
      payload := payload + data[..toCopy];
      rest := data[toCopy..];
      assert data == part + rest;
      stop := false;
      if frameSize == 0 {
        assert Abs() == start;
      } else if need == toCopy {
        PayloadEnd(cfg, start, part, rest);
      } else {
        PayloadStretch(cfg, start, part, rest);
      }
      if need == toCopy {
        stop := HandleFrame();
      }
    }

    /** Unmasks the frame in place and acts on it. */
    method HandleFrame() returns (stop: bool)
      requires Complete(header) && headerSize == |header| && frameStart <= |payload|
      modifies this
      ensures Outcome(Abs(), stop) == FrameDone(cfg, old(Abs()))
    {
      ghost var unmasked := Abs().(payload := Unmasked(Abs()));
      if header[1] >= FLAG_MASKING {
        Unmask(header[headerSize - 4..]);
      }
      assert Abs() == unmasked;
      stop := DeliverFrame(header[0] >= FLAG_FIN, header[0] % 16);
    }

    method Unmask(key: seq<byte>)
      requires |key| == 4 && frameStart <= |payload|
      modifies this`payload
      ensures payload == old(payload)[..frameStart] + Mask(key, old(payload)[frameStart..])
    {
      var n := 0;
      ghost var was := payload;
      for i := frameStart to |payload|
        invariant |payload| == |was| && n == (i - frameStart) % 4
        invariant forall j :: 0 <= j < |was| ==>
                    payload[j] == if frameStart <= j < i then Xor(was[j], key[(j - frameStart) % 4]) else was[j]
      {
        payload := payload[i := Xor(payload[i], key[n])];
        n := n + 1;
        if n >= 4 {
          n := 0;
        }
      }
    }

    method DeliverFrame(fin: bool, opcode: byte) returns (stop: bool)
      modifies this
      ensures Outcome(Abs(), stop) == Deliver(cfg, old(Abs()), fin, opcode)
    {
      stop := false;
      if opcode == OP_CONT {
        if fragmentOpcode == OP_TEXT {
          if !cfg.combine || fin {
            Signal(Text(payload, fin));
          }
        } else if fragmentOpcode == OP_BINARY {
          if !cfg.combine || fin {
            Signal(Binary(payload, fin));
          }
        } else {
          FailConnection(1002, Ascii("invalid continuation message"));
          stop := true;
          return;
        }
        if fin {
          fragmentOpcode := 0;
        }
      } else if opcode == OP_TEXT || opcode == OP_BINARY {
        if fragmentOpcode != 0 {
          FailConnection(1002, Ascii("incomplete fragment"));
          stop := true;
          return;
        }
        if !cfg.combine || fin {
          Signal(if opcode == OP_TEXT then Text(payload, fin) else Binary(payload, fin));
        }
        if !fin {
          fragmentOpcode := opcode;
        }
      } else if opcode == OP_CLOSE {
        HandleClose(fin);
      } else if opcode == OP_PING || opcode == OP_PONG {
        if !fin {
          FailConnection(1002, Ascii("cannot fragment control frames"));
          stop := true;
          return;
        }
        Signal(if opcode == OP_PING then Ping(payload) else Pong(payload));
      } else {
        FailConnection(1002, Ascii("invalid message opcode"));
        stop := true;
        return;
      }
      header := [];
      headerSize := 0;
      if !cfg.combine || fin {
        payload := [];
      }
      frameStart := |payload|;
      frameSize := NO_FRAME;
    }

    method HandleClose(fin: bool)
      modifies this`log, this`state
      ensures NextFrame(cfg, Abs(), fin) == DeliverClose(cfg, old(Abs()), fin)
    {
      var code, reason;
      if !fin {
        code, reason := 1002, Ascii("cannot fragment control frames");
      } else if |payload| < 2 {
        code, reason := 1005, [];
      } else {
        code, reason := BigEndian(payload[..2]), payload[2..];
      }
      if state != CLOSING {
        SendCloseFrame(code, reason);
      }
      SetClosedState(code, reason, false);
      if cfg.server {
        Signal(ShutDown);
      }
    }
  }

  lemma NoWrap(n: nat)
    requires n < SIZE_LIMIT
    ensures n % SIZE_LIMIT == n
  {
  }
}
