/**
 * The chunked-body part of the HTTP parser as a machine that takes one byte at a time, and
 * the chunked coding it reads (section 3.6.1 of RFC 2616).
 */
module ChunkedBodySpec {
  import opened Bytes

  const CR: byte := 13
  const LF: byte := 10
  const SPACE: byte := 32
  const SEMICOLON: byte := 59

  const HTTP_MAX_HEADER_SIZE := 80 * 1024
  const ULLONG_MAX := 0xFFFF_FFFF_FFFF_FFFF

  /** The largest chunk size the parser takes. */
  const MAX_CHUNK := ULLONG_MAX - 16

  datatype State =
    | ChunkSizeStart | ChunkSize | ChunkParameters | ChunkSizeAlmostDone
    | ChunkData | ChunkDataAlmostDone | ChunkDataDone
    | HeaderFieldStart | HeadersAlmostDone
    | TrailerField    // a trailer field has begun: the header states take over
    | NewMessage      // the message is complete

  datatype Errno = OK | InvalidChunkSize | InvalidContentLength | Strict | HeaderOverflow | InvalidEofState

  /** The fields of the parser that the chunked body uses. */
  datatype Parser = Parser(state: State, errno: Errno, contentLength: nat, nread: nat, trailing: bool)

  /** The headers are done: there is no length yet. */
  const START := Parser(ChunkSizeStart, OK, ULLONG_MAX, 0, false)

  /** The callbacks, with body data one byte at a time. */
  datatype Note = Header(size: nat) | Data(b: byte) | ChunkEnd | MessageEnd

  predicate InBody(s: State) {
    s != TrailerField && s != NewMessage
  }

  predicate Live(p: Parser) {
    p.errno == OK && InBody(p.state)
  }

  /** States whose bytes count against the header size limit. */
  predicate ParsingHeader(s: State) {
    s in {ChunkSizeStart, ChunkSize, ChunkParameters, ChunkSizeAlmostDone, HeaderFieldStart, HeadersAlmostDone}
  }

  /** The value of a hexadecimal digit, -1 for other bytes; the table's upper half is zero. */
  function Unhex(c: byte): int {
    if '0' as int <= c <= '9' as int then c - '0' as int
    else if 'A' as int <= c <= 'F' as int then c - 'A' as int + 10
    else if 'a' as int <= c <= 'f' as int then c - 'a' as int + 10
    else if c >= 128 then 0
    else -1
  }

  function Fail(p: Parser, e: Errno): (Parser, seq<Note>) {
    (p.(errno := e), [])
  }

  function Go(p: Parser, s: State): (Parser, seq<Note>) {
    (p.(state := s), [])
  }

  function SizeStep(p: Parser, c: byte): (Parser, seq<Note>) {
    if c == CR then Go(p, ChunkSizeAlmostDone)
    else if Unhex(c) == -1 then
      if c == SEMICOLON || c == SPACE then Go(p, ChunkParameters) else Fail(p, InvalidChunkSize)
    else if (ULLONG_MAX - 16) / 16 < p.contentLength then Fail(p, InvalidContentLength)
    else (p.(contentLength := p.contentLength * 16 + Unhex(c)), [])
  }

  function SizeEnd(p: Parser, c: byte): (Parser, seq<Note>) {
    if c != LF then Fail(p, Strict)
    else if p.contentLength == 0 then
      (p.(nread := 0, trailing := true, state := HeaderFieldStart), [Header(0)])
    else (p.(nread := 0, state := ChunkData), [Header(p.contentLength)])
  }

  function DataStep(p: Parser, c: byte): (Parser, seq<Note>)
    requires p.contentLength > 0
  {
    (p.(contentLength := p.contentLength - 1, state := if p.contentLength == 1 then ChunkDataAlmostDone else ChunkData),
     [Data(c)])
  }

  function TrailerStep(p: Parser, c: byte): (Parser, seq<Note>) {
    if c == CR then Go(p, HeadersAlmostDone)
    else if c == LF then (p.(state := NewMessage), [ChunkEnd, MessageEnd])
    else Go(p, TrailerField)
  }

  function Switch(p: Parser, c: byte): (Parser, seq<Note>)
    requires Live(p) && (p.state == ChunkData ==> p.contentLength > 0)
  {
    match p.state
    case ChunkSizeStart =>
      if Unhex(c) == -1 then Fail(p, InvalidChunkSize) else (p.(contentLength := Unhex(c), state := ChunkSize), [])
    case ChunkSize => SizeStep(p, c)
    case ChunkParameters => if c == CR then Go(p, ChunkSizeAlmostDone) else (p, [])
    case ChunkSizeAlmostDone => SizeEnd(p, c)
    case ChunkData => DataStep(p, c)
    case ChunkDataAlmostDone => if c != CR then Fail(p, Strict) else Go(p, ChunkDataDone)
    case ChunkDataDone =>
      if c != LF then Fail(p, Strict) else (p.(nread := 0, state := ChunkSizeStart), [ChunkEnd])
    case HeaderFieldStart => TrailerStep(p, c)
    case HeadersAlmostDone =>
      if c != LF then Fail(p, Strict) else (p.(state := NewMessage), [ChunkEnd, MessageEnd])
  }

  function Count(p: Parser): Parser {
    if ParsingHeader(p.state) then p.(nread := p.nread + 1) else p
  }

  function Step(p: Parser, c: byte): (Parser, seq<Note>)
    requires Live(p) && Sane(p)
  {
    var counted := Count(p);
    if counted.nread > HTTP_MAX_HEADER_SIZE then Fail(counted, HeaderOverflow) else Switch(counted, c)
  }

  /** What holds of the parser throughout the body. */
  ghost predicate Sane(p: Parser) {
    && (p.state != ChunkSizeStart ==> p.contentLength <= MAX_CHUNK)
    && p.nread <= HTTP_MAX_HEADER_SIZE + (if p.errno == OK then 0 else 1)
    && (p.state == ChunkData ==> p.contentLength > 0)
    && (p.state == ChunkSizeStart && p.errno == OK ==> p.nread == 0)
    && (p.state in {ChunkDataAlmostDone, ChunkDataDone} ==> p.contentLength == 0)
    && (p.trailing <==> p.state in {HeaderFieldStart, HeadersAlmostDone, TrailerField, NewMessage})
  }

  /** No input makes the chunk size wrap or reach the value that stands for no length. */
  lemma StepSane(p: Parser, c: byte)
    requires Live(p) && Sane(p)
    ensures Sane(Step(p, c).0)
  {
    UnhexBound(c);
    hide Unhex;
  }

  lemma UnhexBound(c: byte)
    ensures -1 <= Unhex(c) < 16
  {
  }

  /** A run over some bytes: where it ends, what it reports, and how many bytes it consumed. */
  datatype Outcome = Outcome(parser: Parser, notes: seq<Note>, used: nat)

  function After(notes: seq<Note>, used: nat, o: Outcome): Outcome {
    Outcome(o.parser, notes + o.notes, used + o.used)
  }

  /** The run stops at an error, which leaves its byte unconsumed, and at the end of the body. */
  function Run(p: Parser, data: seq<byte>): Outcome
    requires Sane(p)
    decreases |data|
  {
    if data == [] || !Live(p) then Outcome(p, [], 0) else
      StepSane(p, data[0]);
      var (q, notes) := Step(p, data[0]);
      if q.errno != OK then Outcome(q, notes, 0) else After(notes, 1, Run(q, data[1..]))
  }

  lemma {:induction false} RunSane(p: Parser, data: seq<byte>)
    requires Sane(p)
    ensures Sane(Run(p, data).parser) && Run(p, data).used <= |data|
    ensures Live(Run(p, data).parser) ==> Run(p, data).used == |data|
    decreases |data|
  {
    if data != [] && Live(p) {
      StepSane(p, data[0]);
      var (q, _) := Step(p, data[0]);
      if q.errno == OK {
        RunSane(q, data[1..]);
      }
    }
  }

  lemma RunCons(p: Parser, c: byte, rest: seq<byte>)
    requires Sane(p) && Live(p)
    ensures Sane(Step(p, c).0)
    ensures var (q, notes) := Step(p, c);
            Run(p, [c] + rest) == if q.errno != OK then Outcome(q, notes, 0) else After(notes, 1, Run(q, rest))
  {
    StepSane(p, c);
    hide Step, Sane;
    assert ([c] + rest)[1..] == rest;
  }

  lemma AfterAfter(a: seq<Note>, i: nat, b: seq<Note>, j: nat, o: Outcome)
    ensures After(a, i, After(b, j, o)) == After(a + b, i + j, o)
  {
  }

  /** A run over a stream is a run over its start, then over the rest. */
  lemma {:induction false} RunSplit(p: Parser, a: seq<byte>, b: seq<byte>)
    requires Sane(p)
    ensures Sane(Run(p, a).parser)
    ensures Run(p, a + b) == After(Run(p, a).notes, Run(p, a).used, Run(Run(p, a).parser, b))
    decreases |a|
  {
    RunSane(p, a);
    if a == [] {
      assert a + b == b;
    } else if Live(p) {
      RunCons(p, a[0], a[1..]);
      RunCons(p, a[0], a[1..] + b);
      var (q, notes) := Step(p, a[0]);
      hide Step, Sane, Run;
      assert a == [a[0]] + a[1..] && a + b == [a[0]] + (a[1..] + b);
      if q.errno == OK {
        RunSplit(q, a[1..], b);
        var o := Run(q, a[1..]);
        AfterAfter(notes, 1, o.notes, o.used, Run(o.parser, b));
      } else {
        RunDead(q, b);
      }
    }
  }

  lemma RunDead(p: Parser, data: seq<byte>)
    requires Sane(p) && !Live(p)
    ensures Run(p, data) == Outcome(p, [], 0)
  {
  }
}
