/** The chunked transfer coding, and what the parser makes of a body written in it. */
module ChunkedBodyCoding {
  import opened Bytes
  import opened ChunkedBodySpec

  /** A chunk: its size as it is spelled, its extensions, its data. */
  datatype Chunk = Chunk(digits: seq<byte>, ext: seq<byte>, data: seq<byte>)

  /** A chunked body without trailer fields. */
  datatype Message = Message(chunks: seq<Chunk>, zeros: seq<byte>, ext: seq<byte>)

  predicate IsHex(c: byte) {
    c < 128 && Unhex(c) != -1
  }

  /** A byte the parser takes for a digit of a size: the upper half of its table is zero. */
  predicate SizeDigit(c: byte) {
    IsHex(c) || c >= 128
  }

  /** The number spelled by hexadecimal digits that follow a number already read. */
  function HexFrom(v: nat, digits: seq<byte>): nat
    decreases |digits|
  {
    if digits == [] then v
    else if Unhex(digits[0]) == -1 then v
    else HexFrom(16 * v + Unhex(digits[0]), digits[1..])
  }

  function SizeLine(digits: seq<byte>, ext: seq<byte>): seq<byte> {
    digits + ext + [CR, LF]
  }

  predicate LegalLine(digits: seq<byte>, ext: seq<byte>) {
    && digits != [] && (forall i :: 0 <= i < |digits| ==> IsHex(digits[i]))
    && (ext == [] || (ext[0] in {SEMICOLON, SPACE} && CR !in ext))
    && |SizeLine(digits, ext)| <= HTTP_MAX_HEADER_SIZE
  }

  predicate LegalChunk(c: Chunk) {
    LegalLine(c.digits, c.ext) && 0 < |c.data| <= MAX_CHUNK && HexFrom(0, c.digits) == |c.data|
  }

  predicate Legal(m: Message) {
    && (forall i :: 0 <= i < |m.chunks| ==> LegalChunk(m.chunks[i]))
    && LegalLine(m.zeros, m.ext) && HexFrom(0, m.zeros) == 0
  }

  function EncodeChunk(c: Chunk): seq<byte> {
    SizeLine(c.digits, c.ext) + c.data + [CR, LF]
  }

  function EncodeChunks(chunks: seq<Chunk>): seq<byte> {
    if chunks == [] then [] else EncodeChunk(chunks[0]) + EncodeChunks(chunks[1..])
  }

  function Encode(m: Message): seq<byte> {
    EncodeChunks(m.chunks) + SizeLine(m.zeros, m.ext) + [CR, LF]
  }

  function Datas(data: seq<byte>): seq<Note> {
    seq(|data|, i requires 0 <= i < |data| => Data(data[i]))
  }

  /** What each chunk is to the receiver. */
  function ChunkNotes(chunks: seq<Chunk>): seq<Note> {
    if chunks == [] then [] else
      [Header(|chunks[0].data|)] + Datas(chunks[0].data) + [ChunkEnd] + ChunkNotes(chunks[1..])
  }

  function MessageNotes(m: Message): seq<Note> {
    ChunkNotes(m.chunks) + [Header(0), ChunkEnd, MessageEnd]
  }

  /** Two runs in a row. */
  lemma RunTwo(p: Parser, a: seq<byte>, o: Outcome, b: seq<byte>, r: Outcome)
    requires Sane(p) && Run(p, a) == o && Sane(o.parser) && Run(o.parser, b) == r
    ensures Run(p, a + b) == Outcome(r.parser, o.notes + r.notes, o.used + r.used)
  {
    RunSplit(p, a, b);
  }

  lemma RunOne(p: Parser, c: byte)
    requires Sane(p) && Live(p)
    ensures Sane(Step(p, c).0)
    ensures Step(p, c).0.errno == OK ==> Run(p, [c]) == Outcome(Step(p, c).0, Step(p, c).1, 1)
    ensures Step(p, c).0.errno != OK ==> Run(p, [c]).parser == Step(p, c).0
  {
    RunCons(p, c, []);
    assert [c] + [] == [c];
  }

  /** Two bytes, the first without a report. */
  lemma RunPair(p: Parser, c: byte, q: Parser, d: byte)
    requires Sane(p) && Live(p) && Step(p, c) == (q, []) && q.errno == OK && Sane(q) && Live(q)
             && Step(q, d).0.errno == OK
    ensures Run(p, [c, d]) == Outcome(Step(q, d).0, Step(q, d).1, 2)
  {
    hide Step;
    RunOne(p, c);
    RunOne(q, d);
    RunTwo(p, [c], Outcome(q, [], 1), [d], Run(q, [d]));
    assert [c] + [d] == [c, d];
  }

  lemma {:induction false} HexGrows(v: nat, digits: seq<byte>)
    ensures HexFrom(v, digits) >= v
    decreases |digits|
  {
    if digits != [] && Unhex(digits[0]) != -1 {
      UnhexBound(digits[0]);
      HexGrows(16 * v + Unhex(digits[0]), digits[1..]);
    }
  }

  lemma DigitStep(p: Parser, c: byte)
    requires Sane(p) && Live(p) && p.state == ChunkSize && SizeDigit(c) && p.nread < HTTP_MAX_HEADER_SIZE
    ensures Step(p, c).1 == []
    ensures 16 * p.contentLength + Unhex(c) <= MAX_CHUNK
            ==> Step(p, c).0 == p.(contentLength := 16 * p.contentLength + Unhex(c), nread := p.nread + 1)
    ensures 16 * p.contentLength + Unhex(c) > MAX_CHUNK ==> Step(p, c).0.errno == InvalidContentLength
  {
    UnhexBound(c);
  }

  /**
   * Reading a size to its end: the parser takes it iff it is at most the largest size, and
   * then holds its exact value.
   */
  lemma {:induction false} DigitsRun(p: Parser, digits: seq<byte>)
    requires Sane(p) && Live(p) && p.state == ChunkSize
    requires forall i :: 0 <= i < |digits| ==> SizeDigit(digits[i])
    requires p.nread + |digits| <= HTTP_MAX_HEADER_SIZE
    ensures HexFrom(p.contentLength, digits) <= MAX_CHUNK
            ==> Run(p, digits)
                == Outcome(p.(contentLength := HexFrom(p.contentLength, digits), nread := p.nread + |digits|), [],
                           |digits|)
    ensures HexFrom(p.contentLength, digits) > MAX_CHUNK ==> Run(p, digits).parser.errno == InvalidContentLength
    decreases |digits|
  {
    if digits != [] {
      hide Step, Run, Unhex, SizeDigit;
      var c, rest := digits[0], digits[1..];
      assert digits == [c] + rest && SizeDigit(c);
      DigitStep(p, c);
      DigitValue(c);
      RunCons(p, c, rest);
      var v := 16 * p.contentLength + Unhex(c);
      assert HexFrom(p.contentLength, digits) == HexFrom(v, rest);
      HexGrows(v, rest);
      hide HexFrom;
      if v <= MAX_CHUNK {
        DigitsRun(p.(contentLength := v, nread := p.nread + 1), rest);
      }
    }
  }

  lemma DigitValue(c: byte)
    ensures SizeDigit(c) <==> Unhex(c) != -1
    ensures SizeDigit(c) ==> 0 <= Unhex(c) < 16
  {
  }

  lemma LegalDigits(digits: seq<byte>)
    requires forall i :: 0 <= i < |digits| ==> IsHex(digits[i])
    ensures forall i :: 0 <= i < |digits| ==> SizeDigit(digits[i])
  {
  }

  lemma {:induction false} ParametersRun(p: Parser, ext: seq<byte>)
    requires Sane(p) && Live(p) && p.state == ChunkParameters && CR !in ext
    requires p.nread + |ext| <= HTTP_MAX_HEADER_SIZE
    ensures Run(p, ext) == Outcome(p.(nread := p.nread + |ext|), [], |ext|)
    decreases |ext|
  {
    if ext != [] {
      var q := p.(nread := p.nread + 1);
      assert ext == [ext[0]] + ext[1..];
      RunCons(p, ext[0], ext[1..]);
      assert Step(p, ext[0]) == (q, []);
      ParametersRun(q, ext[1..]);
    }
  }

  /** Chunk data, up to all of it, is reported as it is. */
  lemma {:induction false} DataRun(p: Parser, data: seq<byte>)
    requires Sane(p) && Live(p) && p.state == ChunkData && |data| <= p.contentLength
    ensures Run(p, data)
         == Outcome(p.(contentLength := p.contentLength - |data|,
                       state := if |data| == p.contentLength then ChunkDataAlmostDone else ChunkData),
                    Datas(data), |data|)
    decreases |data|
  {
    if data != [] {
      var (q, notes) := Step(p, data[0]);
      assert data == [data[0]] + data[1..];
      RunCons(p, data[0], data[1..]);
      assert Datas(data) == [Data(data[0])] + Datas(data[1..]);
      if |data| == 1 {
        assert data[1..] == [];
      } else {
        DataRun(q, data[1..]);
      }
    }
  }

  lemma FirstDigit(p: Parser, c: byte)
    requires Sane(p) && Live(p) && p.state == ChunkSizeStart && SizeDigit(c)
    ensures Step(p, c) == (p.(contentLength := Unhex(c), nread := 1, state := ChunkSize), [])
  {
    UnhexBound(c);
  }

  /** The digits of a size line. */
  lemma SizeRun(p: Parser, digits: seq<byte>)
    requires Sane(p) && Live(p) && p.state == ChunkSizeStart
    requires digits != [] && |digits| <= HTTP_MAX_HEADER_SIZE
    requires forall i :: 0 <= i < |digits| ==> SizeDigit(digits[i])
    ensures HexFrom(0, digits) <= MAX_CHUNK
            ==> Run(p, digits)
                == Outcome(p.(contentLength := HexFrom(0, digits), nread := |digits|, state := ChunkSize), [], |digits|)
    ensures HexFrom(0, digits) > MAX_CHUNK ==> Run(p, digits).parser.errno == InvalidContentLength
  {
    hide Step, Run, Unhex, SizeDigit;
    var c, rest := digits[0], digits[1..];
    assert digits == [c] + rest && SizeDigit(c);
    DigitValue(c);
    FirstDigit(p, c);
    RunCons(p, c, rest);
    DigitsRun(p.(contentLength := Unhex(c), nread := 1, state := ChunkSize), rest);
  }

  /** The bytes taken in a size are exactly these, up to the largest size. */
  lemma SizeDigitIff(p: Parser, c: byte)
    requires Sane(p) && Live(p) && p.nread < HTTP_MAX_HEADER_SIZE
    ensures p.state == ChunkSizeStart ==> (Step(p, c).0.errno == OK <==> SizeDigit(c))
    ensures p.state == ChunkSize
            ==> (Step(p, c).0.errno == OK && Step(p, c).0.state == ChunkSize
                 <==> SizeDigit(c) && 16 * p.contentLength + Unhex(c) <= MAX_CHUNK)
  {
    if p.state == ChunkSize && SizeDigit(c) {
      DigitStep(p, c);
    }
  }

  /** Which byte is an error in which state, and which error it is. */
  lemma ErrorIff(p: Parser, c: byte)
    requires Sane(p) && Live(p)
    ensures Step(p, c).0.errno ==
            if ParsingHeader(p.state) && p.nread == 81920 then HeaderOverflow
            else match p.state
                 case ChunkSizeStart => if SizeDigit(c) then OK else InvalidChunkSize
                 case ChunkSize =>
                   if SizeDigit(c) then
                     if 16 * p.contentLength + Unhex(c) <= 0xFFFF_FFFF_FFFF_FFEF then OK else InvalidContentLength
                   else if c in {13, 32, 59} then OK else InvalidChunkSize
                 case ChunkSizeAlmostDone => if c == 10 then OK else Strict
                 case ChunkDataAlmostDone => if c == 13 then OK else Strict
                 case ChunkDataDone => if c == 10 then OK else Strict
                 case HeadersAlmostDone => if c == 10 then OK else Strict
                 case _ => OK
  {
    DigitValue(c);
    if p.state == ChunkSize && SizeDigit(c) && p.nread < HTTP_MAX_HEADER_SIZE {
      DigitStep(p, c);
    }
    hide Unhex;
  }

  /** Behind the last chunk a line feed alone ends the message too; other bytes begin a trailer field. */
  lemma TrailerStart(p: Parser, c: byte)
    requires Sane(p) && Live(p) && p.state == HeaderFieldStart && p.nread < 81920
    ensures Step(p, c).0.state == if c == 13 then HeadersAlmostDone else if c == 10 then NewMessage else TrailerField
    ensures Step(p, c).1 == if c == 10 then [ChunkEnd, MessageEnd] else []
  {
  }

  /** A byte of the upper half is read as the digit zero. */
  lemma {:induction false} HighByteIsZero(v: nat, before: seq<byte>, c: byte, after: seq<byte>)
    requires c >= 128
    ensures HexFrom(v, before + [c] + after) == HexFrom(v, before + [48] + after)
    decreases |before|
  {
    var high, zero := before + [c] + after, before + [48] + after;
    if before == [] {
      assert high[1..] == after == zero[1..];
    } else {
      assert high[1..] == before[1..] + [c] + after && zero[1..] == before[1..] + [48] + after;
      if Unhex(before[0]) != -1 {
        HighByteIsZero(16 * v + Unhex(before[0]), before[1..], c, after);
      }
    }
  }

  /** Such a size: the bytes 49 and 128 are read as 10, which is 16. */
  lemma HighByteSize()
    ensures Run(START, [49, 128] + [CR, LF]).notes == [Header(16)]
  {
    hide Step, Run, HexFrom;
    var digits: seq<byte>, p := [49, 128], START.(contentLength := 16, nread := 2, state := ChunkSize);
    HighByteHex();
    SizeRun(START, digits);
    LineEndRun(p);
    RunTwo(START, digits, Outcome(p, [], 2), [CR, LF], Run(p, [CR, LF]));
    assert [] + [Header(16)] == [Header(16)];
  }

  lemma HighByteHex()
    ensures HexFrom(0, [49, 128]) == 16
  {
    assert [49, 128][1..] == [128] && [128][1..] == [];
    assert HexFrom(1, [128]) == HexFrom(16, []);
  }

  /** The extensions of a size line are skipped. */
  lemma ExtensionRun(p: Parser, ext: seq<byte>)
    requires Sane(p) && Live(p) && p.state == ChunkSize && p.nread + |ext| <= HTTP_MAX_HEADER_SIZE
    requires ext != [] && ext[0] in {SEMICOLON, SPACE} && CR !in ext
    ensures Run(p, ext) == Outcome(p.(nread := p.nread + |ext|, state := ChunkParameters), [], |ext|)
  {
    hide Step, Run;
    var q := p.(nread := p.nread + 1, state := ChunkParameters);
    assert ext == [ext[0]] + ext[1..];
    RunCons(p, ext[0], ext[1..]);
    ExtensionStep(p, ext[0]);
    ParametersRun(q, ext[1..]);
  }

  lemma ExtensionStep(p: Parser, c: byte)
    requires Sane(p) && Live(p) && p.state == ChunkSize && p.nread < HTTP_MAX_HEADER_SIZE && c in {SEMICOLON, SPACE}
    ensures Step(p, c) == (p.(nread := p.nread + 1, state := ChunkParameters), [])
  {
  }

  /** Where a size line leaves the parser. */
  function Sized(p: Parser, size: nat): Parser {
    if size == 0 then p.(contentLength := 0, nread := 0, state := HeaderFieldStart, trailing := true)
    else p.(contentLength := size, nread := 0, state := ChunkData)
  }

  lemma LineEndSteps(p: Parser, c: byte)
    requires Sane(p) && Live(p) && p.state in {ChunkSize, ChunkParameters} && p.nread + 2 <= HTTP_MAX_HEADER_SIZE
    ensures var q := p.(nread := p.nread + 1, state := ChunkSizeAlmostDone);
            && Step(p, CR) == (q, []) && Sane(q)
            && (c == LF ==> Step(q, c) == (Sized(p, p.contentLength), [Header(p.contentLength)]))
            && (c != LF ==> Step(q, c).0.errno == Strict)
  {
  }

  lemma LineEndRun(p: Parser)
    requires Sane(p) && Live(p) && p.state in {ChunkSize, ChunkParameters} && p.nread + 2 <= HTTP_MAX_HEADER_SIZE
    ensures Run(p, [CR, LF]) == Outcome(Sized(p, p.contentLength), [Header(p.contentLength)], 2)
  {
    LineEndSteps(p, LF);
    RunPair(p, CR, p.(nread := p.nread + 1, state := ChunkSizeAlmostDone), LF);
  }

  lemma SizedSame(p: Parser, size: nat, nread: nat, s: State)
    requires !p.trailing
    ensures Sized(p.(contentLength := size, nread := nread, state := s), size) == Sized(p, size)
  {
  }

  lemma RestOfLine(p: Parser, ext: seq<byte>)
    requires Sane(p) && Live(p) && p.state == ChunkSize && p.nread + |ext| + 2 <= HTTP_MAX_HEADER_SIZE
    requires ext == [] || (ext[0] in {SEMICOLON, SPACE} && CR !in ext)
    ensures Run(p, ext + [CR, LF]) == Outcome(Sized(p, p.contentLength), [Header(p.contentLength)], |ext| + 2)
  {
    if ext == [] {
      assert ext + [CR, LF] == [CR, LF];
      LineEndRun(p);
    } else {
      var q := p.(nread := p.nread + |ext|, state := ChunkParameters);
      ExtensionRun(p, ext);
      LineEndRun(q);
      hide Step, Run;
      SizedSame(p, p.contentLength, q.nread, ChunkParameters);
      RunTwo(p, ext, Outcome(q, [], |ext|), [CR, LF], Run(q, [CR, LF]));
    }
  }

  lemma Reassociate<T>(a: seq<T>, b: seq<T>, c: seq<T>)
    ensures a + (b + c) == a + b + c
  {
  }

  /**
   * A size line, however it is spelled, is accepted iff its size is at most the largest
   * one, and is then reported exactly.
   */
  lemma SizeLineRun(p: Parser, digits: seq<byte>, ext: seq<byte>)
    requires Sane(p) && Live(p) && p.state == ChunkSizeStart && LegalLine(digits, ext)
    ensures var size, line, o := HexFrom(0, digits), SizeLine(digits, ext), Run(p, SizeLine(digits, ext));
            && (size <= MAX_CHUNK ==> o == Outcome(Sized(p, size), [Header(size)], |line|) && Sane(o.parser))
            && (size > MAX_CHUNK ==> o.parser.errno == InvalidContentLength)
  {
    hide HexFrom, Step, Run;
    var size := HexFrom(0, digits);
    LegalDigits(digits);
    hide IsHex, SizeDigit;
    SizeRun(p, digits);
    RunSane(p, SizeLine(digits, ext));
    RunSane(p, digits);
    Reassociate(digits, ext, [CR, LF]);
    if size > MAX_CHUNK {
      RunSplit(p, digits, ext + [CR, LF]);
      RunDead(Run(p, digits).parser, ext + [CR, LF]);
    } else {
      var q := p.(contentLength := size, nread := |digits|, state := ChunkSize);
      RestOfLine(q, ext);
      SizedSame(p, size, |digits|, ChunkSize);
      RunTwo(p, digits, Outcome(q, [], |digits|), ext + [CR, LF], Run(q, ext + [CR, LF]));
    }
  }

  /** After a size line any further byte shows. */
  lemma NoQuietByte(p: Parser, data: seq<byte>)
    requires Sane(p) && Live(p) && p.state in {ChunkData, HeaderFieldStart} && p.nread == 0 && data != []
    ensures Run(p, data).notes != [] || Run(p, data).parser != p
  {
    var c, rest := data[0], data[1..];
    assert data == [c] + rest;
    RunCons(p, c, rest);
    var q := Step(p, c).0;
    if p.state == HeaderFieldStart && c == CR {
      if rest != [] {
        assert rest == [rest[0]] + rest[1..];
        RunCons(q, rest[0], rest[1..]);
      }
    }
  }

  lemma FirstCR(ext: seq<byte>) returns (i: nat)
    requires CR in ext
    ensures i < |ext| && ext[i] == CR && CR !in ext[..i]
  {
    i := 0;
    while ext[i] != CR
      invariant i < |ext| && CR !in ext[..i] && CR in ext[i..]
      decreases |ext| - i
    {
      assert ext[i..] == [ext[i]] + ext[i + 1..];
      assert ext[..i + 1] == ext[..i] + [ext[i]];
      i := i + 1;
    }
  }

  /** A carriage return inside the extensions is taken for the end of the size line. */
  lemma LineCut(p: Parser, tail: seq<byte>)
    requires Sane(p) && Live(p) && p.state == ChunkParameters && p.nread + 2 <= HTTP_MAX_HEADER_SIZE && !p.trailing
    requires |tail| >= 2
    ensures Run(p, [CR] + tail) != Outcome(Sized(p, p.contentLength), [Header(p.contentLength)], 1 + |tail|)
  {
    var q := p.(nread := p.nread + 1, state := ChunkSizeAlmostDone);
    var r := Sized(p, p.contentLength);
    LineEndSteps(p, tail[0]);
    RunCons(p, CR, tail);
    assert tail == [tail[0]] + tail[1..];
    RunCons(q, tail[0], tail[1..]);
    hide Step, Run;
    if tail[0] == LF {
      NoQuietByte(r, tail[1..]);
    }
  }

  /** The digits of a size line and its extensions. */
  lemma ExtendedRun(p: Parser, digits: seq<byte>, ext: seq<byte>)
    requires Sane(p) && Live(p) && p.state == ChunkSizeStart && HexFrom(0, digits) <= MAX_CHUNK
    requires digits != [] && forall i :: 0 <= i < |digits| ==> SizeDigit(digits[i])
    requires ext != [] && ext[0] in {SEMICOLON, SPACE} && CR !in ext && |digits| + |ext| <= HTTP_MAX_HEADER_SIZE
    ensures var r := p.(contentLength := HexFrom(0, digits), nread := |digits| + |ext|, state := ChunkParameters);
            Sane(r) && Run(p, digits + ext) == Outcome(r, [], |digits| + |ext|)
  {
    hide HexFrom, Step, Run, SizeDigit;
    var q := p.(contentLength := HexFrom(0, digits), nread := |digits|, state := ChunkSize);
    SizeRun(p, digits);
    ExtensionRun(q, ext);
    RunSane(q, ext);
    RunTwo(p, digits, Outcome(q, [], |digits|), ext, Run(q, ext));
  }

  /** At the first carriage return in the extensions the size line is over. */
  lemma ExtensionCut(p: Parser, digits: seq<byte>, ext: seq<byte>)
    requires Sane(p) && Live(p) && p.state == ChunkSizeStart && LegalLine(digits, []) && HexFrom(0, digits) <= MAX_CHUNK
    requires ext != [] && ext[0] in {SEMICOLON, SPACE} && |SizeLine(digits, ext)| <= HTTP_MAX_HEADER_SIZE && CR in ext
    ensures Run(p, SizeLine(digits, ext))
         != Outcome(Sized(p, HexFrom(0, digits)), [Header(HexFrom(0, digits))], |SizeLine(digits, ext)|)
  {
    LegalDigits(digits);
    hide HexFrom, Step, Run, IsHex, SizeDigit;
    var size := HexFrom(0, digits);
    var i := FirstCR(ext);
    var r := p.(contentLength := size, nread := |digits| + i, state := ChunkParameters);
    var start, tail := digits + ext[..i], ext[i + 1..] + [CR, LF];
    assert SizeLine(digits, ext) == start + ([CR] + tail);
    ExtendedRun(p, digits, ext[..i]);
    LineCut(r, tail);
    SizedSame(p, size, r.nread, ChunkParameters);
    hide Sane, SizeLine, Sized;
    RunTwo(p, start, Outcome(r, [], |start|), [CR] + tail, Run(r, [CR] + tail));
  }

  /**
   * A size line is read as meant iff its extensions hold no carriage return.  A quoted
   * extension value may hold a folded line, so not every legal size line is.
   */
  lemma ExtensionIff(p: Parser, digits: seq<byte>, ext: seq<byte>)
    requires Sane(p) && Live(p) && p.state == ChunkSizeStart && LegalLine(digits, []) && HexFrom(0, digits) <= MAX_CHUNK
    requires ext != [] && ext[0] in {SEMICOLON, SPACE} && |SizeLine(digits, ext)| <= HTTP_MAX_HEADER_SIZE
    ensures CR !in ext
       <==> Run(p, SizeLine(digits, ext))
            == Outcome(Sized(p, HexFrom(0, digits)), [Header(HexFrom(0, digits))], |SizeLine(digits, ext)|)
  {
    if CR !in ext {
      SizeLineRun(p, digits, ext);
    } else {
      ExtensionCut(p, digits, ext);
    }
  }

  lemma ChunkEndRun(p: Parser)
    requires Sane(p) && Live(p) && p.state == ChunkDataAlmostDone
    ensures Run(p, [CR, LF]) == Outcome(p.(nread := 0, state := ChunkSizeStart), [ChunkEnd], 2)
  {
    RunPair(p, CR, p.(state := ChunkDataDone), LF);
  }

  lemma MessageEndRun(p: Parser)
    requires Sane(p) && Live(p) && p.state == HeaderFieldStart && p.nread + 2 <= HTTP_MAX_HEADER_SIZE
    ensures Run(p, [CR, LF]) == Outcome(p.(nread := p.nread + 2, state := NewMessage), [ChunkEnd, MessageEnd], 2)
  {
    RunPair(p, CR, p.(nread := p.nread + 1, state := HeadersAlmostDone), LF);
  }

  /** One chunk. */
  lemma ChunkRun(p: Parser, c: Chunk)
    requires Sane(p) && Live(p) && p.state == ChunkSizeStart && LegalChunk(c)
    ensures Run(p, EncodeChunk(c))
         == Outcome(p.(contentLength := 0), [Header(|c.data|)] + Datas(c.data) + [ChunkEnd], |EncodeChunk(c)|)
  {
    var line, size := SizeLine(c.digits, c.ext), |c.data|;
    SizeLineRun(p, c.digits, c.ext);
    var q := Sized(p, size);
    DataRun(q, c.data);
    var r := q.(contentLength := 0, state := ChunkDataAlmostDone);
    ChunkEndRun(r);
    hide Step, Run, Sane, LegalLine, HexFrom, SizeLine, Datas;
    RunTwo(q, c.data, Outcome(r, Datas(c.data), size), [CR, LF], Run(r, [CR, LF]));
    RunTwo(p, line, Outcome(q, [Header(size)], |line|), c.data + [CR, LF], Run(q, c.data + [CR, LF]));
    Reassociate(line, c.data, [CR, LF]);
    Reassociate([Header(size)], Datas(c.data), [ChunkEnd]);
  }

  lemma {:induction false} ChunksRun(p: Parser, chunks: seq<Chunk>)
    requires Sane(p) && Live(p) && p.state == ChunkSizeStart
    requires forall i :: 0 <= i < |chunks| ==> LegalChunk(chunks[i])
    ensures Run(p, EncodeChunks(chunks))
         == Outcome(if chunks == [] then p else p.(contentLength := 0), ChunkNotes(chunks), |EncodeChunks(chunks)|)
    decreases |chunks|
  {
    if chunks != [] {
      var c, rest, q := chunks[0], chunks[1..], p.(contentLength := 0);
      assert LegalChunk(c);
      ChunkRun(p, c);
      ChunksRun(q, rest);
      hide Step, Run, Sane, LegalChunk, EncodeChunk, Datas;
      var notes := [Header(|c.data|)] + Datas(c.data) + [ChunkEnd];
      RunTwo(p, EncodeChunk(c), Outcome(q, notes, |EncodeChunk(c)|), EncodeChunks(rest), Run(q, EncodeChunks(rest)));
    }
  }

  /**
   * The parser consumes a whole chunked body, reports exactly its chunks and then one end
   * of message.
   */
  lemma MessageRun(m: Message)
    requires Legal(m)
    ensures Sane(START)
    ensures Run(START, Encode(m)).notes == MessageNotes(m) && Run(START, Encode(m)).used == |Encode(m)|
    ensures Run(START, Encode(m)).parser.errno == OK && Run(START, Encode(m)).parser.state == NewMessage
  {
    hide Step, Run, HexFrom, EncodeChunks, ChunkNotes;
    ChunksRun(START, m.chunks);
    var p := if m.chunks == [] then START else START.(contentLength := 0);
    var chunks, line := EncodeChunks(m.chunks), SizeLine(m.zeros, m.ext);
    SizeLineRun(p, m.zeros, m.ext);
    var q := Sized(p, 0);
    MessageEndRun(q);
    hide Sane, LegalLine, SizeLine;
    RunTwo(p, line, Outcome(q, [Header(0)], |line|), [CR, LF], Run(q, [CR, LF]));
    RunTwo(START, chunks, Outcome(p, ChunkNotes(m.chunks), |chunks|), line + [CR, LF], Run(p, line + [CR, LF]));
    Reassociate(chunks, line, [CR, LF]);
    assert [Header(0)] + [ChunkEnd, MessageEnd] == [Header(0), ChunkEnd, MessageEnd];
  }
}
