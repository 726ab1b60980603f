/** The parser itself: a loop over a buffer that takes chunk data in bulk. */
module ChunkedBody {
  import opened Wrappers
  import opened Bytes
  import opened ChunkedBodySpec
  import opened ChunkedBodyCoding

  /** The callbacks the parser makes. */
  datatype Call = OnChunkHeader(size: nat) | OnBody(data: seq<byte>) | OnChunkComplete | OnMessageComplete

  function NotesOf(c: Call): seq<Note> {
    match c
    case OnChunkHeader(size) => [Header(size)]
    case OnBody(data) => Datas(data)
    case OnChunkComplete => [ChunkEnd]
    case OnMessageComplete => [MessageEnd]
  }

  /** What a sequence of calls says, however the body data is divided among them. */
  function Told(calls: seq<Call>): seq<Note> {
    if calls == [] then [] else Told(calls[..|calls| - 1]) + NotesOf(calls[|calls| - 1])
  }

  function BodyOf(calls: seq<Call>): seq<byte> {
    if calls == [] then [] else
      BodyOf(calls[..|calls| - 1]) + (if calls[|calls| - 1].OnBody? then calls[|calls| - 1].data else [])
  }

  lemma ToldPush(calls: seq<Call>, c: Call)
    ensures Told(calls + [c]) == Told(calls) + NotesOf(c)
  {
    assert (calls + [c])[..|calls|] == calls;
  }

  /** `done` has been told at `now`, after `p` bytes of `data`, on the way to `o`. */
  ghost predicate OnTheWay(o: Outcome, done: seq<Note>, now: Parser, data: seq<byte>, p: nat) {
    p <= |data| && Sane(now) && o == After(done, p, Run(now, data[p..]))
  }

  lemma StartsOut(now: Parser, data: seq<byte>)
    requires Sane(now)
    ensures OnTheWay(Run(now, data), [], now, data, 0)
  {
    assert data[0..] == data;
    var r := Run(now, data);
    assert r.notes == [] + r.notes;
  }

  lemma Arrives(o: Outcome, done: seq<Note>, now: Parser, data: seq<byte>, p: nat)
    requires OnTheWay(o, done, now, data, p) && (p == |data| || !Live(now))
    ensures o == Outcome(now, done, p)
  {
    if p == |data| {
      assert data[p..] == [];
    } else {
      RunDead(now, data[p..]);
    }
    assert done + [] == done;
  }

  lemma TakesStep(o: Outcome, done: seq<Note>, now: Parser, data: seq<byte>, p: nat)
    requires OnTheWay(o, done, now, data, p) && p < |data| && Live(now)
    ensures var (next, notes) := Step(now, data[p]);
            if next.errno == OK then OnTheWay(o, done + notes, next, data, p + 1)
            else o == Outcome(next, done + notes, p)
  {
    var rest := data[p + 1..];
    assert data[p..] == [data[p]] + rest;
    RunCons(now, data[p], rest);
    var (next, notes) := Step(now, data[p]);
    hide Step, Run;
    AfterAfter(done, p, notes, 1, Run(next, rest));
  }

  lemma TakesData(o: Outcome, done: seq<Note>, now: Parser, data: seq<byte>, p: nat, n: nat)
    requires OnTheWay(o, done, now, data, p) && Live(now) && now.state == ChunkData
    requires p + n <= |data| && n <= now.contentLength
    ensures var next := now.(contentLength := now.contentLength - n,
                             state := if n == now.contentLength then ChunkDataAlmostDone else ChunkData);
            OnTheWay(o, done + Datas(data[p..p + n]), next, data, p + n)
  {
    var part, rest := data[p..p + n], data[p + n..];
    assert data[p..] == part + rest;
    DataRun(now, part);
    RunSplit(now, part, rest);
    var next := Run(now, part).parser;
    hide Run, Datas;
    AfterAfter(done, p, Datas(part), n, Run(next, rest));
  }

  /** The body data from the mark on. */
  function Marked(data: seq<byte>, mark: Option<nat>, p: nat): seq<byte>
    requires p <= |data| && (mark.Some? ==> mark.value <= p)
  {
    if mark.Some? then data[mark.value..p] else []
  }

  /** One more digit in 64 bits. */
  function Shifted(v: nat, digit: nat): nat {
    (v * 16 % (ULLONG_MAX + 1) + digit) % (ULLONG_MAX + 1)
  }

  /** The limit on the size is enough to rule out wrapping. */
  lemma NoWrap(v: nat, digit: nat)
    requires digit < 16
    ensures v <= (ULLONG_MAX - 16) / 16 ==> Shifted(v, digit) == v * 16 + digit <= MAX_CHUNK
  {
  }

  /** The data of a chunk ends inside the buffer, and no carriage return follows it there. */
  ghost predicate Overrun(p: Parser, data: seq<byte>)
    requires Sane(p)
  {
    exists k: nat, n: nat :: OverrunAt(p, data, k, n)
  }

  /** After `k` bytes the last `n` bytes of a chunk's data are due, and here they are. */
  ghost predicate OverrunAt(p: Parser, data: seq<byte>, k: nat, n: nat)
    requires Sane(p)
  {
    && n > 0 && k + n < |data| && data[k + n] != CR
    && var q := Run(p, data[..k]).parser; Live(q) && q.state == ChunkData && q.contentLength == n
  }

  /** The error of an overrun, as the parser's fields show it. */
  lemma OverrunIff(p: Parser, data: seq<byte>)
    requires Sane(p) && Live(p)
    ensures var o := Run(p, data);
            Overrun(p, data) <==> o.parser.errno == Strict && o.parser.state == ChunkDataAlmostDone && o.used > 0
  {
    var o := Run(p, data);
    if o.parser.errno == Strict && o.parser.state == ChunkDataAlmostDone && o.used > 0 {
      OverrunFound(p, data);
    }
    if k: nat, n: nat :| OverrunAt(p, data, k, n) {
      OverrunStops(p, data, k, n);
    }
  }

  lemma OverrunStops(p: Parser, data: seq<byte>, k: nat, n: nat)
    requires Sane(p) && OverrunAt(p, data, k, n)
    ensures var o := Run(p, data); o.parser.errno == Strict && o.parser.state == ChunkDataAlmostDone && o.used == k + n
  {
    var part, rest := data[k..k + n], data[k + n..];
    RunSane(p, data[..k]);
    var q := Run(p, data[..k]).parser;
    NoReturn(q, part, rest);
    hide Step, Run;
    assert data == data[..k] + (part + rest);
    RunSplit(p, data[..k], part + rest);
  }

  /** The last data of a chunk, and then a byte that is not a carriage return. */
  lemma NoReturn(q: Parser, part: seq<byte>, rest: seq<byte>)
    requires Sane(q) && Live(q) && q.state == ChunkData && q.contentLength == |part|
    requires rest != [] && rest[0] != CR
    ensures Run(q, part + rest)
         == Outcome(q.(contentLength := 0, state := ChunkDataAlmostDone, errno := Strict), Datas(part), |part|)
  {
    hide Run, Step, Datas;
    var r := q.(contentLength := 0, state := ChunkDataAlmostDone);
    DataRun(q, part);
    TailFails(r, rest);
    RunTwo(q, part, Outcome(r, Datas(part), |part|), rest, Run(r, rest));
    assert Datas(part) + [] == Datas(part);
  }

  /** Only the last byte of a chunk's data leads to where its carriage return is due. */
  lemma LastDataByte(p: Parser, c: byte, d: byte)
    requires Sane(p) && Live(p) && Sane(Step(p, c).0) && Live(Step(p, c).0)
    requires Step(Step(p, c).0, d).0.errno == Strict && Step(Step(p, c).0, d).0.state == ChunkDataAlmostDone
    ensures p.state == ChunkData && p.contentLength == 1 && d != CR
  {
  }

  /** A run that stops in a strict error after chunk data was stopped by the byte behind the data. */
  lemma {:induction false} OverrunFound(p: Parser, data: seq<byte>)
    requires Sane(p) && Live(p)
    requires var o := Run(p, data); o.parser.errno == Strict && o.parser.state == ChunkDataAlmostDone && o.used > 0
    ensures Overrun(p, data)
    decreases |data|
  {
    var c, rest := data[0], data[1..];
    assert data == [c] + rest;
    RunCons(p, c, rest);
    var q := Step(p, c).0;
    if Run(q, rest).used > 0 {
      hide Step, Run;
      OverrunFound(q, rest);
      var k: nat, n: nat :| OverrunAt(q, rest, k, n);
      assert data[..k + 1] == [c] + rest[..k];
      RunCons(p, c, rest[..k]);
      assert OverrunAt(p, data, k + 1, n);
    } else {
      assert rest == [rest[0]] + rest[1..];
      RunCons(q, rest[0], rest[1..]);
      LastDataByte(p, c, rest[0]);
      hide Step;
      assert data[..0] == [];
      RunNone(p);
      assert OverrunAt(p, data, 0, 1);
    }
  }

  /** What was told so far does not end inside the data of a chunk. */
  predicate Ended(told: seq<Note>) {
    told != [] && !told[|told| - 1].Data?
  }

  /** Chunk data begins with the report of its size. */
  lemma DataBegins(p: Parser, c: byte, told: seq<Note>)
    requires Sane(p) && Live(p) && p.state != ChunkData && Step(p, c).0.state == ChunkData
    ensures Ended(told + Step(p, c).1)
  {
  }

  class HttpParser {
    var state: State
    var errno: Errno
    var contentLength: nat
    var nread: nat
    var trailing: bool

    // the callbacks made so far
    var calls: seq<Call>

    function Fields(): Parser
      reads this`state, this`errno, this`contentLength, this`nread, this`trailing
    {
      Parser(state, errno, contentLength, nread, trailing)
    }

    /** At the end of the headers of a chunked message. */
    constructor ()
      ensures Fields() == START && calls == []
    {
      state, errno, contentLength, nread, trailing := ChunkSizeStart, OK, ULLONG_MAX, 0, false;
      calls := [];
    }

    method Call(c: Call)
      modifies this`calls
      ensures calls == old(calls) + [c] && Told(calls) == old(Told(calls)) + NotesOf(c)
    {
      ToldPush(calls, c);
      calls := calls + [c];
    }

    method SizeStartByte(ch: byte)
      requires Live(Fields()) && state == ChunkSizeStart && nread == 1
      modifies this`state, this`errno, this`contentLength
      ensures (Fields(), []) == Switch(old(Fields()), ch)
    {
      var unhexVal := Unhex(ch);
      if unhexVal == -1 {
        errno := InvalidChunkSize;
        return;
      }
      contentLength := unhexVal;
      state := ChunkSize;
    }

    method SizeByte(ch: byte)
      requires Live(Fields()) && state == ChunkSize
      modifies this`state, this`errno, this`contentLength
      ensures (Fields(), []) == Switch(old(Fields()), ch)
    {
      if ch == CR {
        state := ChunkSizeAlmostDone;
        return;
      }
      var unhexVal := Unhex(ch);
      if unhexVal == -1 {
        if ch == SEMICOLON || ch == SPACE {
          state := ChunkParameters;
          return;
        }
        errno := InvalidChunkSize;
        return;
      }
      UnhexBound(ch);
      NoWrap(contentLength, unhexVal);
      hide Unhex, Shifted;
      var t := Shifted(contentLength, unhexVal);
      if (ULLONG_MAX - 16) / 16 < contentLength {
        errno := InvalidContentLength;
        return;
      }
      contentLength := t;
    }

    method SizeEndByte(ch: byte)
      requires Live(Fields()) && state == ChunkSizeAlmostDone
      modifies this`state, this`errno, this`nread, this`trailing, this`calls
      ensures Fields() == Switch(old(Fields()), ch).0
      ensures Told(calls) == old(Told(calls)) + Switch(old(Fields()), ch).1
    {
      if ch != LF {
        errno := Strict;
        return;
      }
      nread := 0;
      if contentLength == 0 {
        trailing := true;
        state := HeaderFieldStart;
      } else {
        state := ChunkData;
      }
      Call(OnChunkHeader(contentLength));
    }

    method DataDoneByte(ch: byte)
      requires Live(Fields()) && state == ChunkDataDone
      modifies this`state, this`errno, this`nread, this`calls
      ensures Fields() == Switch(old(Fields()), ch).0
      ensures Told(calls) == old(Told(calls)) + Switch(old(Fields()), ch).1
    {
      if ch != LF {
        errno := Strict;
        return;
      }
      nread := 0;
      state := ChunkSizeStart;
      Call(OnChunkComplete);
    }

    /** The end of the headers that follow the last chunk: the message is done. */
    method HeadersEndByte(ch: byte)
      requires Live(Fields()) && state == HeadersAlmostDone
      modifies this`state, this`errno, this`calls
      ensures Fields() == Switch(old(Fields()), ch).0
      ensures Told(calls) == old(Told(calls)) + Switch(old(Fields()), ch).1
    {
      hide Told;
      if ch != LF {
        errno := Strict;
        return;
      }
      Call(OnChunkComplete);
      state := NewMessage;
      Call(OnMessageComplete);
    }

    method HeaderFieldStartByte(ch: byte)
      requires Live(Fields()) && state == HeaderFieldStart
      modifies this`state, this`errno, this`calls
      ensures Fields() == Switch(old(Fields()), ch).0
      ensures Told(calls) == old(Told(calls)) + Switch(old(Fields()), ch).1
    {
      hide Told;
      if ch == CR {
        state := HeadersAlmostDone;
        return;
      }
      if ch == LF {
        state := HeadersAlmostDone;
        HeadersEndByte(ch);
        return;
      }
      state := TrailerField;
    }

    /** One byte in a state other than those of chunk data. */
    method HeaderByte(ch: byte)
      requires Live(Fields()) && state !in {ChunkData, ChunkDataAlmostDone} && (state == ChunkSizeStart ==> nread == 1)
      modifies this
      ensures Fields() == Switch(old(Fields()), ch).0
      ensures Told(calls) == old(Told(calls)) + Switch(old(Fields()), ch).1
    {
      match state {
        case ChunkSizeStart => SizeStartByte(ch);
        case ChunkSize => SizeByte(ch);
        case ChunkParameters =>
          if ch == CR {
            state := ChunkSizeAlmostDone;
          }
        case ChunkSizeAlmostDone => SizeEndByte(ch);
        case ChunkDataDone => DataDoneByte(ch);
        case HeaderFieldStart => HeaderFieldStartByte(ch);
        case HeadersAlmostDone => HeadersEndByte(ch);
      }
    }

    /** Counts a header byte against the limit. */
    method CountByte()
      requires Sane(Fields()) && Live(Fields())
      modifies this`nread, this`errno
      ensures Count(old(Fields())).nread <= HTTP_MAX_HEADER_SIZE ==> Fields() == Count(old(Fields()))
      ensures Count(old(Fields())).nread > HTTP_MAX_HEADER_SIZE
              ==> Fields() == Count(old(Fields())).(errno := HeaderOverflow)
    {
      if ParsingHeader(state) {
        nread := nread + 1;
        if nread > HTTP_MAX_HEADER_SIZE {
          errno := HeaderOverflow;
        }
      }
    }

    /** Passes on the body data marked so far. */
    method CallbackBody(data: seq<byte>, mark: Option<nat>, p: nat)
      requires p <= |data| && (mark.Some? ==> mark.value <= p)
      modifies this`calls
      ensures Told(calls) == old(Told(calls)) + Datas(Marked(data, mark, p))
    {
      if mark.Some? {
        Call(OnBody(data[mark.value..p]));
      } else {
        assert Datas([]) == [];
      }
    }

    /**
     * Chunk data is taken in bulk: as much as the chunk and the buffer allow.
     */
    method TakeData(len: nat, p: nat, mark: Option<nat>) returns (p': nat, mark': Option<nat>)
      requires Live(Fields()) && state == ChunkData && contentLength > 0 && p < len
      modifies this`state, this`contentLength
      ensures mark' == if mark.None? then Some(p) else mark
      ensures p < p' <= len && p' - p <= old(contentLength)
      ensures Fields() == old(Fields()).(contentLength := old(contentLength) - (p' - p),
                                         state := if p' - p == old(contentLength)
                                                  then ChunkDataAlmostDone else ChunkData)
      ensures state == ChunkData ==> p' == len
    {
      var toRead := if contentLength < len - p then contentLength else len - p;
      mark' := if mark.None? then Some(p) else mark;
      contentLength := contentLength - toRead;
      p' := p + toRead;
      if contentLength == 0 {
        state := ChunkDataAlmostDone;
      }
    }

    /** One turn of the loop outside chunk data. */
    method TakeByte(data: seq<byte>, p: nat, mark: Option<nat>) returns (p': nat, mark': Option<nat>)
      requires p < |data| && (mark.Some? ==> mark.value <= p && state == ChunkDataAlmostDone)
      requires Sane(Fields()) && Live(Fields()) && state != ChunkData
      modifies this
      ensures Fields() == Step(old(Fields()), data[p]).0
      ensures errno == OK ==> p' == p + 1 && mark' == None
      ensures errno == OK
              ==> Told(calls) == old(Told(calls)) + Datas(Marked(data, mark, p)) + Step(old(Fields()), data[p]).1
      ensures errno != OK
              ==> p' == p && mark' == mark && Told(calls) == old(Told(calls)) && Step(old(Fields()), data[p]).1 == []
      ensures state == ChunkDataAlmostDone ==> old(state) == ChunkDataAlmostDone && errno != OK
      ensures old(state) == ChunkDataAlmostDone && errno != OK ==> state == ChunkDataAlmostDone && errno == Strict
    {
      hide Datas, Told;
      p', mark' := p, mark;
      CountByte();
      if errno != OK {
        return;
      }
      if state == ChunkDataAlmostDone {
        if data[p] != CR {
          errno := Strict;
          return;
        }
        state := ChunkDataDone;
        CallbackBody(data, mark, p);
        mark' := None;
      } else {
        NoDatas();
        HeaderByte(data[p]);
        if errno != OK {
          return;
        }
      }
      p' := p + 1;
    }

    /**
     * Parses a buffer.  The parser ends as the byte machine does, having told what the
     * machine tells, except body data in front of an error: it goes untold iff the data of
     * a chunk ends inside this buffer and something other than a carriage return follows.
     */
    method Execute(data: seq<byte>) returns (consumed: nat, ghost lost: seq<byte>)
      requires Sane(Fields()) && InBody(state)
      modifies this
      ensures old(errno) != OK ==> Fields() == old(Fields()) && calls == old(calls) && consumed == 0
      ensures old(errno) == OK && data == []
              ==> Fields() == old(Fields()).(errno := InvalidEofState) && calls == old(calls) && consumed == 1
      ensures old(errno) == OK && data != []
              ==> && Run(old(Fields()), data) == Outcome(Fields(), Run(old(Fields()), data).notes, consumed)
                  && Told(calls) + Datas(lost) == old(Told(calls)) + Run(old(Fields()), data).notes
      ensures errno == OK ==> lost == []
      ensures lost != [] <==> old(errno) == OK && Overrun(old(Fields()), data)
      ensures |lost| <= consumed <= |data| + 1
      ensures lost != [] ==> consumed < |data| && lost == data[consumed - |lost|..consumed]
      ensures lost != [] ==> |lost| == consumed || Ended(Told(calls))
    {
      hide Step, Run, Datas, Told, Overrun, Ended;
      lost := [];
      if errno != OK {
        return 0, [];
      }
      OverrunIff(Fields(), data);
      RunNone(Fields());
      if data == [] {
        errno := InvalidEofState;
        return 1, [];
      }
      ghost var done;
      var p, mark;
      p, mark, done := Scan(data);
      NoDatas();
      if errno == OK {
        CallbackBody(data, mark, p);
      } else {
        lost := Marked(data, mark, p);
      }
      consumed := p;
    }

    /**
     * The loop.  Body data stays marked where the buffer ends, and in front of the error
     * that stops the parser behind chunk data.
     */
    method Scan(data: seq<byte>) returns (p: nat, mark: Option<nat>, ghost done: seq<Note>)
      requires Sane(Fields()) && Live(Fields()) && data != []
      modifies this
      ensures p <= |data| && (mark.Some? ==> mark.value < p)
      ensures Run(old(Fields()), data) == Outcome(Fields(), done, p)
      ensures Told(calls) + Datas(Marked(data, mark, p)) == old(Told(calls)) + done
      ensures errno != OK ==> p < |data| && (mark.Some? <==> errno == Strict && state == ChunkDataAlmostDone && p > 0)
      ensures mark.Some? ==> mark.value == 0 || Ended(Told(calls))
    {
      hide Step, Run, Datas, Told, Ended;
      ghost var o := Run(Fields(), data);
      ghost var before := Told(calls);
      StartsOut(Fields(), data);
      NoDatas();
      p, mark, done := 0, None, [];
      while p < |data| && errno == OK && InBody(state)
        invariant p <= |data| && (mark.Some? ==> mark.value < p)
        invariant mark.Some? ==> state == ChunkDataAlmostDone || (errno == OK && p == |data|)
        invariant errno != OK ==> p < |data| && (mark.Some? ==> errno == Strict)
        invariant state == ChunkDataAlmostDone && p > 0 ==> mark.Some?
        invariant errno == OK && state == ChunkData && p < |data| ==> mark.None? && (p == 0 || Ended(Told(calls)))
        invariant mark.Some? ==> mark.value == 0 || Ended(Told(calls))
        invariant errno == OK ==> OnTheWay(o, done, Fields(), data, p)
        invariant errno != OK ==> o == Outcome(Fields(), done, p)
        invariant Told(calls) + Datas(Marked(data, mark, p)) == before + done
        decreases |data| - p, errno == OK
      {
        ghost var now, told, marked := Fields(), Told(calls), Datas(Marked(data, mark, p));
        if state == ChunkData {
          ghost var start := p;
          p, mark := TakeData(|data|, p, mark);
          TakesData(o, done, now, data, start, p - start);
          Extend(before, done, told, marked, Datas(data[start..p]));
          done := done + Datas(data[start..p]);
        } else {
          TakesStep(o, done, now, data, p);
          ghost var ch, notes := data[p], Step(now, data[p]).1;
          p, mark := TakeByte(data, p, mark);
          if state == ChunkData {
            DataBegins(now, ch, told + marked);
          }
          Extend(before, done, told, marked, notes);
          done := done + notes;
        }
      }
      if errno == OK {
        Arrives(o, done, Fields(), data, p);
      }
    }
  }

  lemma Extend(before: seq<Note>, done: seq<Note>, told: seq<Note>, marked: seq<Note>, more: seq<Note>)
    requires told + marked == before + done
    ensures told + marked + more == before + (done + more)
    ensures marked == [] ==> told + more == before + (done + more)
    ensures told + marked + more + [] == before + (done + more)
  {
    assert told + marked + more == before + done + more;
  }

  lemma NoDatas()
    ensures Datas([]) == []
  {
  }

  /**
   * A chunk and a byte that should have been a carriage return: the error is the same in
   * one buffer or two, but the chunk's data is passed on in full from two and not at all
   * from one.
   */
  method SplitShows(c: Chunk, x: byte, rest: seq<byte>) returns (one: HttpParser, two: HttpParser)
    requires LegalChunk(c) && x != CR
    ensures one.errno == two.errno == Strict
    ensures Told(two.calls) == [Header(|c.data|)] + Datas(c.data)
    ensures Told(one.calls) == [Header(|c.data|)]
  {
    hide Run, Datas, Told, SizeLine, Overrun;
    var line, n, tail := SizeLine(c.digits, c.ext), |c.data|, [x] + rest;
    ghost var q := Sized(START, n);
    ChunkOpens(c);
    NoReturn(q, c.data, tail);
    DataRun(q, c.data);
    RunTwo(START, line, Outcome(q, [Header(n)], |line|), c.data + tail, Run(q, c.data + tail));
    RunTwo(START, line, Outcome(q, [Header(n)], |line|), c.data, Run(q, c.data));
    one := new HttpParser();
    ToldNone();
    ghost var whole := line + (c.data + tail);
    assert OverrunAt(START, whole, |line|, n) by {
      assert whole[..|line|] == line && whole[|line| + n] == x;
    }
    assert Overrun(START, whole) by { OverrunIs(START, whole, |line|, n); }
    var used, lost := one.Execute(line + (c.data + tail));
    LostLess(lost, Told(one.calls), Header(n), c.data, used);
    AllDatas(lost, Told(one.calls), Header(n), c.data);
    two := new HttpParser();
    used, lost := two.Execute(line + c.data);
    NoDatas();
    TailFails(two.Fields(), tail);
    used, lost := two.Execute(tail);
  }

  lemma ChunkOpens(c: Chunk)
    requires LegalChunk(c)
    ensures var q, line := Sized(START, |c.data|), SizeLine(c.digits, c.ext);
            && |line| >= 3 && Sane(START) && Run(START, line) == Outcome(q, [Header(|c.data|)], |line|)
            && Sane(q) && Live(q) && q.state == ChunkData && q.contentLength == |c.data|
  {
    SizeLineRun(START, c.digits, c.ext);
  }

  lemma OverrunIs(p: Parser, data: seq<byte>, k: nat, n: nat)
    requires Sane(p) && OverrunAt(p, data, k, n)
    ensures Overrun(p, data)
  {
  }

  lemma AllDatas(data: seq<byte>, told: seq<Note>, first: Note, rest: seq<byte>)
    requires told + Datas(data) == [first] + Datas(rest) && Ended(told)
    ensures told == [first]
  {
    var all, n := [first] + Datas(rest), |told| - 1;
    assert told[n] == (told + Datas(data))[n] == all[n] && told[0] == all[0];
    assert forall i :: 0 < i < |all| ==> all[i] == Datas(rest)[i - 1];
  }

  /** Data lost from a buffer that began before it is less than the part consumed. */
  lemma LostLess(data: seq<byte>, told: seq<Note>, first: Note, rest: seq<byte>, consumed: nat)
    requires told + Datas(data) == [first] + Datas(rest) && consumed > |rest| + 1
    ensures |data| < consumed
  {
    assert |told + Datas(data)| == |[first] + Datas(rest)|;
  }

  lemma TailFails(p: Parser, tail: seq<byte>)
    requires Sane(p) && Live(p) && p.state == ChunkDataAlmostDone && tail != [] && tail[0] != CR
    ensures Run(p, tail) == Outcome(p.(errno := Strict), [], 0)
  {
    assert tail == [tail[0]] + tail[1..];
    RunCons(p, tail[0], tail[1..]);
  }

  /** The input that shows it: a size line, one byte of data, and a byte too many. */
  method DataDropped() returns (one: HttpParser, two: HttpParser)
    ensures Told(one.calls) == [Header(1)] && Told(two.calls) == [Header(1), Data(65)]
  {
    var c := Chunk([49], [], [65]);
    assert LegalChunk(c) by { assert HexFrom(1, []) == 1; }
    one, two := SplitShows(c, 66, []);
    assert Datas([65]) == [Data(65)];
  }

  function DataOf(notes: seq<Note>): seq<byte> {
    if notes == [] then [] else
      DataOf(notes[..|notes| - 1]) + (if notes[|notes| - 1].Data? then [notes[|notes| - 1].b] else [])
  }

  function AllData(chunks: seq<Chunk>): seq<byte> {
    if chunks == [] then [] else chunks[0].data + AllData(chunks[1..])
  }

  lemma {:induction false} DataOfAppend(a: seq<Note>, b: seq<Note>)
    ensures DataOf(a + b) == DataOf(a) + DataOf(b)
  {
    if b == [] {
      assert a + b == a;
    } else {
      var n := |b| - 1;
      assert a + b == a + b[..n] + [b[n]];
      assert (a + b)[..|a + b| - 1] == a + b[..n];
      DataOfAppend(a, b[..n]);
    }
  }

  lemma {:induction false} DataOfDatas(data: seq<byte>)
    ensures DataOf(Datas(data)) == data
  {
    if data != [] {
      var n := |data| - 1;
      assert Datas(data)[..n] == Datas(data[..n]);
      DataOfDatas(data[..n]);
      assert data == data[..n] + [data[n]];
    }
  }

  lemma DataOfOne(n: Note)
    ensures DataOf([n]) == if n.Data? then [n.b] else []
  {
    assert [n][..0] == [];
  }

  /** The body data of the callbacks is the body data they tell. */
  lemma {:induction false} BodyIsData(calls: seq<Call>)
    ensures BodyOf(calls) == DataOf(Told(calls))
  {
    if calls != [] {
      var n := |calls| - 1;
      BodyIsData(calls[..n]);
      var notes := NotesOf(calls[n]);
      DataOfAppend(Told(calls[..n]), notes);
      match calls[n] {
        case OnBody(data) => DataOfDatas(data);
        case _ => DataOfOne(notes[0]);
      }
    }
  }

  lemma {:induction false} DataOfChunks(chunks: seq<Chunk>)
    ensures DataOf(ChunkNotes(chunks)) == AllData(chunks)
  {
    if chunks != [] {
      var c, rest := chunks[0], chunks[1..];
      DataOfChunks(rest);
      DataOfChunk(c);
      hide DataOf, Datas;
      DataOfAppend([Header(|c.data|)] + Datas(c.data) + [ChunkEnd], ChunkNotes(rest));
    }
  }

  lemma DataOfChunk(c: Chunk)
    ensures DataOf([Header(|c.data|)] + Datas(c.data) + [ChunkEnd]) == c.data
  {
    DataOfOne(Header(|c.data|));
    DataOfDatas(c.data);
    DataOfOne(ChunkEnd);
    hide DataOf, Datas;
    DataOfAppend([Header(|c.data|)] + Datas(c.data), [ChunkEnd]);
    DataOfAppend([Header(|c.data|)], Datas(c.data));
  }

  lemma DataOfMessage(m: Message)
    ensures DataOf(MessageNotes(m)) == AllData(m.chunks)
  {
    DataOfChunks(m.chunks);
    DataOfOne(Header(0));
    DataOfOne(ChunkEnd);
    DataOfOne(MessageEnd);
    hide DataOf, ChunkNotes;
    var ends := [Header(0), ChunkEnd, MessageEnd];
    assert ends == [Header(0)] + [ChunkEnd] + [MessageEnd];
    DataOfAppend(ChunkNotes(m.chunks), ends);
    DataOfAppend([Header(0)] + [ChunkEnd], [MessageEnd]);
    DataOfAppend([Header(0)], [ChunkEnd]);
  }

  function Completions(calls: seq<Call>): nat {
    if calls == [] then 0 else
      Completions(calls[..|calls| - 1]) + (if calls[|calls| - 1].OnMessageComplete? then 1 else 0)
  }

  function Ends(notes: seq<Note>): nat {
    if notes == [] then 0 else Ends(notes[..|notes| - 1]) + (if notes[|notes| - 1].MessageEnd? then 1 else 0)
  }

  lemma {:induction false} EndsAppend(a: seq<Note>, b: seq<Note>)
    ensures Ends(a + b) == Ends(a) + Ends(b)
  {
    if b == [] {
      assert a + b == a;
    } else {
      var n := |b| - 1;
      assert (a + b)[..|a + b| - 1] == a + b[..n];
      EndsAppend(a, b[..n]);
    }
  }

  lemma {:induction false} NoEnds(notes: seq<Note>)
    requires forall i :: 0 <= i < |notes| ==> !notes[i].MessageEnd?
    ensures Ends(notes) == 0
  {
    if notes != [] {
      NoEnds(notes[..|notes| - 1]);
    }
  }

  lemma EndTold(c: Call)
    ensures Ends(NotesOf(c)) == if c.OnMessageComplete? then 1 else 0
  {
    if c.OnMessageComplete? {
      assert NotesOf(c)[..0] == [];
    } else {
      NoEnds(NotesOf(c));
    }
  }

  lemma {:induction false} EndsTold(calls: seq<Call>)
    ensures Completions(calls) == Ends(Told(calls))
  {
    if calls != [] {
      var n := |calls| - 1;
      EndsTold(calls[..n]);
      EndTold(calls[n]);
      EndsAppend(Told(calls[..n]), NotesOf(calls[n]));
    }
  }

  lemma {:induction false} NoEndInChunks(chunks: seq<Chunk>)
    ensures forall i :: 0 <= i < |ChunkNotes(chunks)| ==> !ChunkNotes(chunks)[i].MessageEnd?
  {
    if chunks != [] {
      NoEndInChunks(chunks[1..]);
    }
  }

  lemma OneEnd(m: Message)
    ensures Ends(MessageNotes(m)) == 1
  {
    NoEndInChunks(m.chunks);
    NoEnds(ChunkNotes(m.chunks));
    var ends := [Header(0), ChunkEnd, MessageEnd];
    EndsAppend(ChunkNotes(m.chunks), ends);
    NoEnds(ends[..2]);
  }

  /** A body is not over, and not in error, before its last byte. */
  lemma StillGoing(m: Message, a: seq<byte>, b: seq<byte>)
    requires Legal(m) && a + b == Encode(m)
    ensures Sane(START) && Run(START, a).used == |a| && Run(START, a).parser.errno == OK
    ensures b != [] ==> Live(Run(START, a).parser)
  {
    MessageRun(m);
    RunSplit(START, a, b);
    RunSane(START, a);
    var p := Run(START, a).parser;
    hide Run, Encode, Legal;
    if !Live(p) {
      RunDead(p, b);
    }
  }

  /**
   * However a chunked body is cut into non-empty buffers, the parser passes on exactly its
   * data, then one end of message, and no more of the stream than the body.
   */
  method ParsePieces(parser: HttpParser, pieces: seq<seq<byte>>, ghost m: Message)
    requires parser.Fields() == START && parser.calls == []
    requires Legal(m) && Flatten(pieces) == Encode(m)
    requires forall i :: 0 <= i < |pieces| ==> pieces[i] != []
    modifies parser
    ensures parser.errno == OK && parser.state == NewMessage
    ensures Told(parser.calls) == MessageNotes(m)
    ensures BodyOf(parser.calls) == AllData(m.chunks)
    ensures Completions(parser.calls) == 1
  {
    hide Run, Encode, Legal, Datas, Told;
    ghost var text: seq<byte> := [];
    MessageRun(m);
    RunNone(START);
    ToldNone();
    NoDatas();
    for i := 0 to |pieces|
      invariant text + Flatten(pieces[i..]) == Encode(m)
      invariant Run(START, text) == Outcome(parser.Fields(), Told(parser.calls), |text|)
    {
      FlattenFrom(pieces, i);
      Reassociate(text, pieces[i], Flatten(pieces[i + 1..]));
      NextPiece(m, text, pieces[i], Flatten(pieces[i + 1..]));
      var consumed, lost := parser.Execute(pieces[i]);
      text := text + pieces[i];
    }
    FlattenNone(pieces[|pieces|..]);
    assert text + [] == text;
    BodyIsData(parser.calls);
    DataOfMessage(m);
    EndsTold(parser.calls);
    OneEnd(m);
  }

  lemma NextPiece(m: Message, text: seq<byte>, piece: seq<byte>, rest: seq<byte>)
    requires Legal(m) && text + piece + rest == Encode(m) && piece != []
    ensures Sane(START) && Sane(Run(START, text).parser) && Live(Run(START, text).parser)
    ensures var o, r := Run(START, text), Run(Run(START, text).parser, piece);
            && r.parser.errno == OK
            && Run(START, text + piece) == Outcome(r.parser, o.notes + r.notes, |text| + |piece|)
  {
    Reassociate(text, piece, rest);
    StillGoing(m, text, piece + rest);
    StillGoing(m, text + piece, rest);
    RunSane(START, text);
    RunSplit(START, text, piece);
  }

  lemma ToldNone()
    ensures Told([]) == []
  {
  }

  lemma RunNone(p: Parser)
    requires Sane(p)
    ensures Run(p, []) == Outcome(p, [], 0)
  {
  }
}
