/**
 * The receiving half of a WebSocket connection as a machine that takes one
 * byte at a time, and the connection-state transitions both halves share.
 * Every observable effect (a signal raised, a frame written, a shutdown) is
 * one event of the log.
 */
module WebSocketSpec {
  import opened Bytes
  import opened Endian

  const OP_CONT: byte := 0x00
  const OP_TEXT: byte := 0x01
  const OP_BINARY: byte := 0x02
  const OP_CLOSE: byte := 0x08
  const OP_PING: byte := 0x09
  const OP_PONG: byte := 0x0A
  const FLAG_FIN: byte := 0x80
  const FLAG_MASKING: byte := 0x80
  const SIZE_LIMIT: nat := 0x1_0000_0000_0000_0000
  /** The value of `frameSize` while the size of the frame is not known. */
  const NO_FRAME: nat := 0xFFFF_FFFF_FFFF_FFFF

  datatype State = CONNECTING | OPEN | CLOSING | FAILED | CLOSED {
    predicate Over() {
      FAILED? || CLOSED?
    }

    function Rank(): nat {
      match this
      case CONNECTING => 0
      case OPEN => 1
      case CLOSING => 2
      case FAILED => 3
      case CLOSED => 3
    }
  }

  datatype Event =
    | Text(data: seq<byte>, last: bool)
    | Binary(data: seq<byte>, last: bool)
    | Ping(data: seq<byte>)
    | Pong(data: seq<byte>)
    | Closed(code: nat, reason: seq<byte>)
    | Wrote(opcode: byte, data: seq<byte>)
    | ShutDown

  datatype Config = Config(server: bool, combine: bool, maxSize: nat)

  datatype Conn = Conn(
    state: State,
    header: seq<byte>,
    headerSize: nat,
    payload: seq<byte>,
    frameStart: nat,
    frameSize: nat,
    fragmentOpcode: byte,
    log: seq<Event>)

  /** `stop` tells that the handler returned and drops the rest of its chunk. */
  datatype Outcome = Outcome(conn: Conn, stop: bool)

  function Ascii(s: string): seq<byte> {
    seq(|s|, i requires 0 <= i < |s| => s[i] as int % 256)
  }

  function Emit(c: Conn, e: Event): Conn {
    c.(log := c.log + [e])
  }

  // Sending and closing

  function SendFrame(c: Conn, opcode: byte, data: seq<byte>): Conn {
    if c.state != OPEN then c else Emit(c, Wrote(opcode, data))
  }

  function SendAll(c: Conn, frames: seq<(byte, seq<byte>)>): Conn
    decreases |frames|
  {
    if frames == [] then c else SendAll(SendFrame(c, frames[0].0, frames[0].1), frames[1..])
  }

  lemma {:induction false} SendAllRefused(c: Conn, frames: seq<(byte, seq<byte>)>)
    requires c.state != OPEN
    ensures SendAll(c, frames) == c
    decreases |frames|
  {
    if frames != [] {
      SendAllRefused(c, frames[1..]);
    }
  }

  function CloseBody(code: nat, reason: seq<byte>): seq<byte> {
    if code == 1005 then [] else [code / 256 % 256, code % 256] + reason
  }

  function SendClose(c: Conn, code: nat, reason: seq<byte>): Conn {
    SendFrame(c, FLAG_FIN + OP_CLOSE, CloseBody(code, reason))
  }

  function SetClosed(c: Conn, code: nat, reason: seq<byte>, failed: bool): Conn {
    if c.state.Over() then c
    else Emit(c, Closed(code, reason)).(state := if failed then FAILED else CLOSED)
  }

  function Close(c: Conn, code: nat, reason: seq<byte>): Conn {
    var d := SendClose(c, code, reason);
    if d.state.Over() then d else d.(state := CLOSING)
  }

  function Fail(c: Conn, code: nat, reason: seq<byte>): Conn {
    if c.state.Over() then c
    else Emit(SetClosed(SendClose(c, code, reason), code, reason, true), ShutDown)
  }

  function Terminate(c: Conn, code: nat, reason: seq<byte>): Conn {
    if c.state.Over() then c
    else Emit(SetClosed(c, code, reason, false), ShutDown)
  }

  // Frame headers, section 5.2 of RFC 6455

  predicate Masked(second: byte) {
    second >= FLAG_MASKING
  }

  function HeaderSize(second: byte): nat {
    2 + (if second % 128 == 126 then 2 else if second % 128 == 127 then 8 else 0)
      + (if Masked(second) then 4 else 0)
  }

  predicate Complete(h: seq<byte>) {
    |h| >= 2 && |h| == HeaderSize(h[1])
  }

  function FrameLength(h: seq<byte>): nat
    requires Complete(h)
  {
    var len := h[1] % 128;
    if len == 126 then BigEndian(h[2..4]) else if len == 127 then BigEndian(h[2..10]) else len
  }

  function Mask(key: seq<byte>, data: seq<byte>): seq<byte>
    requires |key| == 4
  {
    seq(|data|, i requires 0 <= i < |data| => Xor(data[i], key[i % 4]))
  }

  function Unmasked(c: Conn): seq<byte>
    requires Complete(c.header) && c.frameStart <= |c.payload|
  {
    if Masked(c.header[1]) then
      c.payload[..c.frameStart] + Mask(c.header[|c.header| - 4..], c.payload[c.frameStart..])
    else c.payload
  }

  // Handling a complete frame, sections 5.4 and 5.5 of RFC 6455

  /** Back to waiting for a header; an unfinished combined message keeps its payload. */
  function NextFrame(cfg: Config, c: Conn, fin: bool): Conn {
    var kept := if !cfg.combine || fin then [] else c.payload;
    c.(header := [], headerSize := 0, payload := kept, frameStart := |kept|, frameSize := NO_FRAME)
  }

  function Rejected(c: Conn, code: nat, reason: string): Outcome {
    Outcome(Fail(c, code, Ascii(reason)), true)
  }

  function Message(kind: byte, data: seq<byte>, fin: bool): Event {
    if kind == OP_TEXT then Text(data, fin) else Binary(data, fin)
  }

  function DeliverData(cfg: Config, c: Conn, kind: byte, fin: bool): Conn {
    var d := if !cfg.combine || fin then Emit(c, Message(kind, c.payload, fin)) else c;
    NextFrame(cfg, d.(fragmentOpcode := if fin then 0 else kind), fin)
  }

  function CloseCode(payload: seq<byte>, fin: bool): nat {
    if !fin then 1002 else if |payload| < 2 then 1005 else BigEndian(payload[..2])
  }

  function CloseReason(payload: seq<byte>, fin: bool): seq<byte> {
    if !fin then Ascii("cannot fragment control frames")
    else if |payload| < 2 then [] else payload[2..]
  }

  function DeliverClose(cfg: Config, c: Conn, fin: bool): Conn {
    var code, reason := CloseCode(c.payload, fin), CloseReason(c.payload, fin);
    var d := if c.state != CLOSING then SendClose(c, code, reason) else c;
    var e := SetClosed(d, code, reason, false);
    NextFrame(cfg, if cfg.server then Emit(e, ShutDown) else e, fin)
  }

  /** `c.payload` is already unmasked. */
  function Deliver(cfg: Config, c: Conn, fin: bool, opcode: byte): Outcome {
    if opcode == OP_CONT then
      if c.fragmentOpcode == OP_TEXT || c.fragmentOpcode == OP_BINARY then
        Outcome(DeliverData(cfg, c, c.fragmentOpcode, fin), false)
      else Rejected(c, 1002, "invalid continuation message")
    else if opcode == OP_TEXT || opcode == OP_BINARY then
      if c.fragmentOpcode != 0 then Rejected(c, 1002, "incomplete fragment")
      else Outcome(DeliverData(cfg, c, opcode, fin), false)
    else if opcode == OP_CLOSE then Outcome(DeliverClose(cfg, c, fin), false)
    else if opcode == OP_PING || opcode == OP_PONG then
      if !fin then Rejected(c, 1002, "cannot fragment control frames")
      else
        Outcome(NextFrame(cfg, Emit(c, if opcode == OP_PING then Ping(c.payload) else Pong(c.payload)), fin), false)
    else Rejected(c, 1002, "invalid message opcode")
  }

  function FrameDone(cfg: Config, c: Conn): Outcome
    requires Complete(c.header) && c.frameStart <= |c.payload|
  {
    Deliver(cfg, c.(payload := Unmasked(c)), c.header[0] >= FLAG_FIN, c.header[0] % 16)
  }

  // The machine

  /** What holds between two bytes of a chunk. */
  ghost predicate Ready(cfg: Config, c: Conn) {
    && cfg.maxSize < NO_FRAME
    && c.frameStart <= |c.payload| <= cfg.maxSize
    && (if c.frameSize == NO_FRAME then
          && c.frameStart == |c.payload|
          && c.headerSize == (if |c.header| < 2 then 0 else HeaderSize(c.header[1]))
          && (|c.header| >= 2 ==> |c.header| < c.headerSize)
        else
          && Complete(c.header) && c.headerSize == |c.header|
          && |c.payload| < c.frameStart + c.frameSize <= cfg.maxSize)
  }

  /** The header has just become complete. */
  function HeaderDone(cfg: Config, c: Conn): Outcome
    requires Complete(c.header) && c.frameStart <= |c.payload|
  {
    var d := c.(frameSize := FrameLength(c.header));
    if |d.payload| + d.frameSize > cfg.maxSize then Rejected(d, 1009, "message too large")
    else if d.frameSize == 0 then FrameDone(cfg, d)
    else Outcome(d, false)
  }

  /** The first two bytes of the header are there. */
  function HeaderSized(cfg: Config, c: Conn): Outcome
    requires |c.header| == 2 && c.frameStart <= |c.payload|
  {
    var d := c.(headerSize := HeaderSize(c.header[1]));
    if c.header[0] / 16 % 8 != 0 then Rejected(c, 1002, "nonzero RSV")
    else if cfg.server && !Masked(c.header[1]) then Rejected(d, 1002, "client data not masked")
    else if !cfg.server && Masked(c.header[1]) then Rejected(d, 1002, "server data masked")
    else if d.headerSize == 2 then HeaderDone(cfg, d)
    else Outcome(d, false)
  }

  function Step(cfg: Config, c: Conn, b: byte): Outcome
    requires Ready(cfg, c)
  {
    if c.frameSize == NO_FRAME then
      var d := c.(header := c.header + [b]);
      if |d.header| == 2 then HeaderSized(cfg, d)
      else if |d.header| > 2 && |d.header| == d.headerSize then HeaderDone(cfg, d)
      else Outcome(d, false)
    else
      var d := c.(payload := c.payload + [b]);
      if |d.payload| == d.frameStart + d.frameSize then FrameDone(cfg, d) else Outcome(d, false)
  }

  /** The handler returns early only when the connection is over. */
  ghost predicate Next(cfg: Config, o: Outcome) {
    if o.stop then o.conn.state.Over() else Ready(cfg, o.conn)
  }

  lemma DeliverReady(cfg: Config, c: Conn, fin: bool, opcode: byte)
    requires cfg.maxSize < NO_FRAME && |c.payload| <= cfg.maxSize
    ensures Next(cfg, Deliver(cfg, c, fin, opcode))
  {
  }

  lemma FrameDoneReady(cfg: Config, c: Conn)
    requires Complete(c.header) && c.frameStart <= |c.payload| <= cfg.maxSize < NO_FRAME
    ensures Next(cfg, FrameDone(cfg, c))
  {
    DeliverReady(cfg, c.(payload := Unmasked(c)), c.header[0] >= FLAG_FIN, c.header[0] % 16);
  }

  lemma HeaderDoneReady(cfg: Config, c: Conn)
    requires Complete(c.header) && c.headerSize == |c.header|
    requires c.frameStart == |c.payload| <= cfg.maxSize < NO_FRAME
    ensures Next(cfg, HeaderDone(cfg, c))
  {
    FrameDoneReady(cfg, c.(frameSize := FrameLength(c.header)));
  }

  lemma HeaderSizedReady(cfg: Config, c: Conn)
    requires |c.header| == 2 && c.frameSize == NO_FRAME
    requires c.frameStart == |c.payload| <= cfg.maxSize < NO_FRAME
    ensures Next(cfg, HeaderSized(cfg, c))
  {
    var d := c.(headerSize := HeaderSize(c.header[1]));
    if d.headerSize == 2 {
      HeaderDoneReady(cfg, d);
    }
  }

  lemma StepReady(cfg: Config, c: Conn, b: byte)
    requires Ready(cfg, c)
    ensures Next(cfg, Step(cfg, c, b))
  {
    if c.frameSize == NO_FRAME {
      var d := c.(header := c.header + [b]);
      if |d.header| == 2 {
        HeaderSizedReady(cfg, d);
      } else if |d.header| > 2 && |d.header| == d.headerSize {
        HeaderDoneReady(cfg, d);
      }
    } else {
      FrameDoneReady(cfg, c.(payload := c.payload + [b]));
    }
  }

  /** Feeding `data` byte by byte until the handler returns. */
  function Run(cfg: Config, c: Conn, data: seq<byte>): Conn
    requires Ready(cfg, c)
    decreases |data|
  {
    if data == [] then c
    else
      var o := Step(cfg, c, data[0]);
      StepReady(cfg, c, data[0]);
      if o.stop then o.conn else Run(cfg, o.conn, data[1..])
  }
}
