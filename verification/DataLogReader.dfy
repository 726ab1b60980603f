/** Reading a data log back. */
module DataLogReader {
  import opened Wrappers
  import opened Bytes
  import opened Endian
  import opened DataLogFormat
  import opened DataLogControl
  import opened DataLogWriter
  import opened DataLogRuns

  method ReadVarInt(buf: seq<byte>) returns (val: nat)
    ensures val == LittleEndian(buf)
  {
    val := 0;
    var scale: nat := 1;
    for i := 0 to |buf|
      invariant val + scale * LittleEndian(buf[i..]) == LittleEndian(buf)
    {
      Shift(buf, i, scale);
      val := val + scale * buf[i];
      scale := scale * 256;
    }
    assert buf[|buf|..] == [];
  }

  lemma Shift(buf: seq<byte>, i: nat, scale: nat)
    requires i < |buf|
    ensures scale * LittleEndian(buf[i..]) == scale * buf[i] + (scale * 256) * LittleEndian(buf[i + 1..])
  {
    var rest := LittleEndian(buf[i + 1..]);
    assert buf[i..][1..] == buf[i + 1..];
    assert scale * (buf[i] + 256 * rest) == scale * buf[i] + (scale * 256) * rest;
  }

  /** The lengths of the three header fields and of the header. */
  method ReadLengths(first: byte) returns (entryLen: nat, sizeLen: nat, timestampLen: nat, headerLen: nat)
    ensures entryLen == first % 4 + 1 && sizeLen == first / 4 % 4 + 1 && timestampLen == first / 16 % 8 + 1
    ensures headerLen == 1 + entryLen + sizeLen + timestampLen
  {
    entryLen := first % 4 + 1;
    sizeLen := first / 4 % 4 + 1;
    timestampLen := first / 16 % 8 + 1;
    headerLen := 1 + entryLen + sizeLen + timestampLen;
  }

  method GetRecord(buf: seq<byte>, pos: nat) returns (ok: bool, rec: RawRecord, next: nat)
    ensures ok <==> pos <= |buf| && ReadRecord(buf[pos..]).Some?
    ensures ok ==> pos < next <= |buf| && ReadRecord(buf[pos..]) == Some((rec, next - pos))
    ensures !ok ==> next == pos
  {
    ok, rec, next := false, Record(0, 0, []), pos;
    if pos >= |buf| {
      return;
    }
    var b := buf[pos..];
    if |b| < 4 {
      return;
    }
    var entryLen, sizeLen, timestampLen, headerLen := ReadLengths(b[0]);
    if |b| < headerLen {
      return;
    }
    FieldBounds(b[1..1 + entryLen], b[1 + entryLen..1 + entryLen + sizeLen], b[1 + entryLen + sizeLen..headerLen]);
    hide LittleEndian;
    var entry := ReadVarInt(b[1..1 + entryLen]);
    var size := ReadVarInt(b[1 + entryLen..1 + entryLen + sizeLen]);
    if size > |b| - headerLen {
      return;
    }
    var timestamp := ReadVarInt(b[1 + entryLen + sizeLen..headerLen]);
    rec := Record(Signed32(entry), Signed64(timestamp), b[headerLen..headerLen + size]);
    ok, next := true, pos + headerLen + size;
  }

  /** Moves on exactly when there is a record here and at least one byte after it. */
  method GetNextRecord(buf: seq<byte>, pos: nat) returns (ok: bool, next: nat)
    ensures ok <==> pos <= |buf| && ReadRecord(buf[pos..]).Some? && pos + ReadRecord(buf[pos..]).value.1 < |buf|
    ensures ok ==> next == pos + ReadRecord(buf[pos..]).value.1
    ensures !ok ==> next == pos
  {
    ok, next := false, pos;
    if |buf| < pos + 4 {
      return;
    }
    ghost var b := buf[pos..];
    assert b[0] == buf[pos];
    var entryLen, sizeLen, timestampLen, headerLen := ReadLengths(buf[pos]);
    if |buf| < pos + headerLen {
      return;
    }
    hide LittleEndian;
    assert buf[pos + 1 + entryLen..pos + 1 + entryLen + sizeLen] == b[1 + entryLen..1 + entryLen + sizeLen];
    var size := ReadVarInt(buf[pos + 1 + entryLen..pos + 1 + entryLen + sizeLen]);
    if size >= |buf| - pos - headerLen {
      return;
    }
    ok, next := true, pos + headerLen + size;
  }

  method GetRecords(buf: seq<byte>, start: nat) returns (rs: seq<RawRecord>, end: nat)
    requires start <= |buf|
    ensures (rs, end - start) == ReadAll(buf[start..]) && start <= end <= |buf|
  {
    hide ReadRecord;
    rs, end := [], start;
    var ok := true;
    while ok
      invariant start <= end <= |buf|
      invariant ok ==> ReadAll(buf[start..]).0 == rs + ReadAll(buf[end..]).0
      invariant ok ==> ReadAll(buf[start..]).1 == end - start + ReadAll(buf[end..]).1
      invariant !ok ==> ReadAll(buf[start..]) == (rs, end - start)
      decreases ok, |buf| - end
    {
      var rec, next;
      ok, rec, next := GetRecord(buf, end);
      if ok {
        assert buf[end..][next - end..] == buf[next..];
        rs, end := rs + [rec], next;
      } else {
        assert ReadAll(buf[end..]).0 == [] && rs + [] == rs;
      }
    }
  }

  // The file

  predicate IsValid(buf: seq<byte>) {
    |buf| >= 12 && buf[..6] == MAGIC[..6] && LittleEndian(buf[6..8]) >= 0x0100
  }

  /** Where the records begin. */
  function Begin(buf: seq<byte>): Option<nat> {
    if |buf| < 12 then None
    else
      var start := (12 + LittleEndian(buf[8..12])) % UINT32S;
      if |buf| < start then None else Some(start)
  }

  function GetExtraHeader(buf: seq<byte>): seq<byte> {
    if |buf| < 8 then []
    else
      match ReadString(buf[8..])
      case Some((extra, _)) => extra
      case None => []
  }

  /**
   * A written file header reads back, and the records are found behind it iff the sum that locates
   * them fits 32 bits.
   */
  lemma HeaderReads(extra: seq<byte>, rest: seq<byte>)
    requires |extra| < UINT32S
    ensures var buf := FileHeader(extra) + rest;
            && IsValid(buf) && buf[12 + |extra|..] == rest && GetExtraHeader(buf) == extra
            && (Begin(buf) == Some(12 + |extra|) <==> |extra| + 12 < UINT32S)
  {
    var buf := FileHeader(extra) + rest;
    var len := ToLittleEndian(|extra|, 4);
    assert buf == MAGIC + len + extra + rest;
    assert |MAGIC| == 8 && |len| == 4 && MAGIC[6] == 0 && MAGIC[7] == 1;
    assert buf[6] == 0 && buf[7] == 1;
    assert buf[..6] == MAGIC[..6] && buf[6..8] == [0, 1] && buf[8..12] == len;
    assert [0, 1][1..] == [1] && LittleEndian([1]) == 1 && LittleEndian([0, 1]) == 256;
    Sizes();
    LittleEndianValue(|extra|, 4);
    assert buf[8..] == StringBytes(extra) + rest;
    ReadStringWritten(extra, rest);
  }

  /**
   * The bytes a log has handed to its callback between two flushes are a
   * valid file; reading it gives the extra header and exactly the records
   * handed over, in order, and stops at the end of the bytes.
   */
  lemma LogReads(log: DataLog)
    requires log.Valid() && !log.thread.Starting? && !log.thread.Writing? && |log.extraHeader| < UINT32S
    ensures var file := Flatten(log.written);
            && IsValid(file) && GetExtraHeader(file) == log.extraHeader
            && (Begin(file) == Some(12 + |log.extraHeader|) <==> |log.extraHeader| + 12 < UINT32S)
            && ReadAll(file[12 + |log.extraHeader|..]) == (log.records[..log.sent], |file| - 12 - |log.extraHeader|)
  {
    hide DataLog.Valid, Flatten, ReadAll, EncodeAll, IsValid, GetExtraHeader, Begin;
    log.Accounting();
    HeaderReads(log.extraHeader, EncodeAll(log.records[..log.sent]));
    ReadAllWritten(log.records[..log.sent]);
  }

  /**
   * The end of a log, and reading its file: what comes back is what was logged, and all of
   * it iff the thread was waiting when told to stop or had nothing left to hand over.
   */
  method CloseAndRead(log: DataLog) returns (rs: seq<RawRecord>)
    requires log.Valid() && |log.extraHeader| + 12 < UINT32S
    modifies log, log.queue, log.queue.bufs
    ensures log.Valid() && log.TheBook() == old(log.TheBook()) && old(log.sent) <= |log.records|
    ensures rs == if old(log.thread) == Waiting then log.records else log.records[..old(log.sent)]
    ensures rs == log.records <==> old(log.thread == Waiting || log.sent == |log.records|)
  {
    hide DataLog.Valid, ReadAll, IsValid, FileHeader;
    Settled(log);
    StopAndJoin(log);
    Settled(log);
    LogReads(log);
    var end;
    var file := Flatten(log.written);
    rs, end := GetRecords(file, Begin(file).value);
  }

  /**
   * From calls to reader: after any schedule and the end of the log, the file holds all that the
   * calls logged if the thread was then waiting, and otherwise what it had taken; so it holds
   * everything iff the thread was waiting or had nothing left to take. What the calls logged is what
   * each of them says, one after the other.
   */
  method RunAndRead(extraHeader: seq<byte>, ops: seq<Op>) returns (rs: seq<RawRecord>, ghost trace: seq<Progress>)
    requires |ops| + 1 < UINT31S && (forall op :: op in ops ==> Typed(op)) && |extraHeader| + 12 < UINT32S
    ensures Follows(ops, trace) && trace[|ops|].sent <= |AfterAll(ops).records|
    ensures var all, end := AfterAll(ops).records, trace[|ops|];
            && rs == (if end.thread == Waiting then all else all[..end.sent])
            && (rs == all <==> end.thread == Waiting || end.sent == |all|)
    ensures AllDone(ops) && Tables(AfterAll(ops))
  {
    hide DataLog.Valid, AfterAll, Follows, AllDone, Tables;
    EveryCall(ops);
    var log;
    log, trace := RunSchedule(extraHeader, ops);
    FollowsTo(ops, trace);
    rs := CloseAndRead(log);
  }

  lemma FollowsTo(ops: seq<Op>, trace: seq<Progress>)
    requires |ops| + 1 < UINT31S && (forall op :: op in ops ==> Typed(op)) && Follows(ops, trace)
    ensures |trace| == |ops| + 1
  {
  }
}
