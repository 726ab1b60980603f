/** What the calls of a run add to a log, as a caller would say it. */
module DataLogRuns {
  import opened Wrappers
  import opened Bytes
  import opened Endian
  import opened DataLogFormat
  import opened DataLogControl
  import opened DataLogWriter

  /** Whether the log is paused: the last call that says so decides. */
  function Paused(ops: seq<Op>): bool {
    if ops == [] then false
    else
      var op := ops[|ops| - 1];
      if op.Pause? then op.value else Paused(ops[..|ops| - 1])
  }

  /** The time a record gets: the one given, or the current time if none is given. */
  predicate Dated(r: RawRecord, timestamp: int, now: int) {
    if timestamp != 0 then r.timestamp == timestamp else r.timestamp == now
  }

  /** One data record is added, or none while the log is paused or if the entry is not valid. */
  predicate AddsData(entry: int, data: seq<byte>, timestamp: int, now: int, paused: bool, before: seq<RawRecord>,
                     after: seq<RawRecord>) {
    if entry <= 0 || paused then after == before
    else
      && |after| == |before| + 1 && before == after[..|before|]
      && var r := after[|before|];
         r.entry == entry && r.payload == data && Dated(r, timestamp, now)
  }

  /** One control record is added. */
  predicate AddsControl(timestamp: int, now: int, before: seq<RawRecord>, after: seq<RawRecord>) {
    && |after| == |before| + 1 && before == after[..|before|]
    && after[|before|].entry == 0 && Dated(after[|before|], timestamp, now)
  }

  /** The number of an entry is its eight bytes, read back. */
  predicate AddsNumber(entry: int, number: int, timestamp: int, now: int, paused: bool, before: seq<RawRecord>,
                       after: seq<RawRecord>) {
    if entry <= 0 || paused then after == before
    else
      && |after| == |before| + 1 && before == after[..|before|]
      && var r := after[|before|];
         && r.entry == entry && Dated(r, timestamp, now) && |r.payload| == 8
         && LittleEndian(r.payload) == (if number < 0 then number + 0x1_0000_0000_0000_0000 else number)
  }

  /** The count of one id changes, if any does. */
  ghost predicate OnlyCount(before: map<int, nat>, after: map<int, nat>, id: int, n: nat) {
    forall i :: Count(after, i) == if i == id then n else Count(before, i)
  }

  /**
   * A start counts up. Only the first of several starts writes a record, which reads back as the
   * start of that entry; a new name gets the next id, a known one keeps its own.
   */
  ghost predicate AddsStart(name: seq<byte>, typ: seq<byte>, metadata: seq<byte>, timestamp: int, now: int,
                            before: Book, after: Book) {
    && name in after.entries
    && var id := after.entries[name].id;
    && id == (if name in before.entries then before.entries[name].id else before.lastId + 1)
    && after.lastId == (if name in before.entries then before.lastId else id)
    && OnlyCount(before.counts, after.counts, id, Count(before.counts, id) + 1)
    && if Count(before.counts, id) > 0 then after.records == before.records && after.entries == before.entries
       else
         && AddsControl(timestamp, now, before.records, after.records)
         && GetStartData(after.records[|before.records|]) == Some(StartEntry(id, name, typ, metadata))
         && after.entries == before.entries[name := EntryInfo(typ, id)]
  }

  /** A finish counts down. Only the last of them writes a record, which reads back as the finish of that entry. */
  ghost predicate AddsFinish(entry: int, timestamp: int, now: int, before: Book, after: Book) {
    && after.entries == before.entries && after.lastId == before.lastId
    && if entry <= 0 then after == before
       else
         && OnlyCount(before.counts, after.counts, entry,
                      if Count(before.counts, entry) == 0 then 0 else Count(before.counts, entry) - 1)
         && if Count(before.counts, entry) != 1 then after.records == before.records
            else
              && AddsControl(timestamp, now, before.records, after.records)
              && GetFinishEntry(after.records[|before.records|]) == Some(entry)
  }

  ghost predicate AddsMetadata(entry: int, metadata: seq<byte>, timestamp: int, now: int, before: Book, after: Book) {
    if entry <= 0 then after == before
    else
      && AddsControl(timestamp, now, before.records, after.records)
      && GetSetMetadataData(after.records[|before.records|]) == Some((entry, metadata))
      && after == before.(records := after.records)
  }

  /** What one call does to a log that is paused or not. */
  ghost predicate Does(op: Op, paused: bool, before: Book, after: Book) {
    match op
    case Append(entry, data, timestamp, now) =>
      && AddsData(entry, data, timestamp, now, paused, before.records, after.records)
      && after == before.(records := after.records)
    case AppendParts(entry, parts, timestamp, now) =>
      && AddsData(entry, Flatten(parts), timestamp, now, paused, before.records, after.records)
      && after == before.(records := after.records)
    case AppendNumber(entry, number, timestamp, now) =>
      && AddsNumber(entry, number, timestamp, now, paused, before.records, after.records)
      && after == before.(records := after.records)
    case StartOne(name, typ, metadata, timestamp, now) =>
      AddsStart(name, typ, metadata, timestamp, now, before, after)
    case FinishOne(entry, timestamp, now) => AddsFinish(entry, timestamp, now, before, after)
    case Describe(entry, metadata, timestamp, now) => AddsMetadata(entry, metadata, timestamp, now, before, after)
    case Pause(value) => after == before.(paused := after.paused)
    case _ => after == before
  }

  /** Every call of a run. */
  ghost predicate AllDone(ops: seq<Op>)
    requires |ops| + 1 < UINT31S && forall op :: op in ops ==> Typed(op)
  {
    && AfterAll([]) == Book(false, map[], map[], 0, [])
    && forall i :: 0 <= i < |ops| ==> Does(ops[i], Paused(ops[..i]), AfterAll(ops[..i]), AfterAll(ops[..i + 1]))
  }

  lemma {:induction false} PausedIs(ops: seq<Op>)
    requires |ops| + 1 < UINT31S && forall op :: op in ops ==> Typed(op)
    ensures AfterAll(ops).paused == Paused(ops)
  {
    if ops != [] {
      PausedIs(ops[..|ops| - 1]);
    }
  }

  lemma NumberReads(number: int)
    requires IsInt64(number)
    ensures LittleEndian(ToLittleEndian(Unsigned64(number), 8))
         == if number < 0 then number + 0x1_0000_0000_0000_0000 else number
  {
    Sizes();
    LittleEndianValue(Unsigned64(number), 8);
  }

  lemma DoesStart(b: Book, name: seq<byte>, typ: seq<byte>, metadata: seq<byte>, timestamp: int, now: int)
    requires |name| + |typ| + |metadata| + 17 < UINT32S && b.lastId + 1 < UINT31S
    requires IdFor(b.entries, b.lastId, name) < UINT31S
    requires Count(b.counts, IdFor(b.entries, b.lastId, name)) > 0 ==> name in b.entries
    ensures AddsStart(name, typ, metadata, timestamp, now, b,
                      Started(b, name, typ, metadata, if timestamp == 0 then now else timestamp))
  {
    var id := IdFor(b.entries, b.lastId, name);
    var stamp := if timestamp == 0 then now else timestamp;
    hide StartPayload, GetStartData;
    StartWritten(id, name, typ, metadata, stamp);
  }

  lemma DoesFinish(b: Book, entry: int, timestamp: int, now: int)
    requires Count(b.counts, entry) == 1 ==> entry < UINT31S
    ensures AddsFinish(entry, timestamp, now, b, FinishedBook(b, entry, if timestamp == 0 then now else timestamp))
  {
    if entry > 0 && Count(b.counts, entry) == 1 {
      hide ControlPayload, GetFinishEntry;
      FinishWritten(entry, if timestamp == 0 then now else timestamp);
    }
  }

  lemma DoesMetadata(b: Book, entry: int, metadata: seq<byte>, timestamp: int, now: int)
    requires entry < UINT31S && |metadata| + 9 < UINT32S
    ensures AddsMetadata(entry, metadata, timestamp, now, b,
                         Described(b, entry, metadata, if timestamp == 0 then now else timestamp))
    ensures var after := Described(b, entry, metadata, if timestamp == 0 then now else timestamp);
            after.entries == b.entries && after.counts == b.counts && after.lastId == b.lastId
  {
    if entry > 0 {
      hide MetadataPayload, GetSetMetadataData;
      MetadataWritten(entry, metadata, if timestamp == 0 then now else timestamp);
    }
  }

  /** Names have ids of their own up to the last one given out, and only such ids are counted. */
  ghost predicate Tables(b: Book) {
    && (forall name :: name in b.entries ==> 1 <= b.entries[name].id <= b.lastId)
    && (forall x, y :: x in b.entries && y in b.entries && b.entries[x].id == b.entries[y].id ==> x == y)
    && (forall id :: Count(b.counts, id) > 0 ==> exists name :: name in b.entries && b.entries[name].id == id)
  }

  lemma StartTables(b: Book, name: seq<byte>, typ: seq<byte>, metadata: seq<byte>, stamp: int)
    requires Tables(b)
    ensures Tables(Started(b, name, typ, metadata, stamp))
    ensures IdFor(b.entries, b.lastId, name) <= b.lastId + 1
    ensures Count(b.counts, IdFor(b.entries, b.lastId, name)) > 0 ==> name in b.entries
  {
    hide StartPayload;
    var id, after := IdFor(b.entries, b.lastId, name), Started(b, name, typ, metadata, stamp);
    assert Count(b.counts, id) > 0 ==> name in b.entries;
    forall i | Count(after.counts, i) > 0
      ensures exists n :: n in after.entries && after.entries[n].id == i
    {
      if i == id {
        assert after.entries[name].id == i;
      } else {
        assert Count(b.counts, i) == Count(after.counts, i);
        var n :| n in b.entries && b.entries[n].id == i;
        assert after.entries[n].id == i;
      }
    }
  }

  lemma FinishTables(b: Book, entry: int, stamp: int)
    requires Tables(b)
    ensures Tables(FinishedBook(b, entry, stamp)) && (Count(b.counts, entry) > 0 ==> entry <= b.lastId)
  {
    hide ControlPayload;
    assert forall i :: Count(Finished(b.counts, entry), i) > 0 ==> Count(b.counts, i) > 0;
  }

  lemma DoesOne(b: Book, op: Op)
    requires Typed(op) && b.lastId + 1 < UINT31S && Tables(b)
    ensures Does(op, b.paused, b, After(b, op)) && Tables(After(b, op))
  {
    hide AddsStart, AddsFinish, AddsMetadata, Started, FinishedBook, Described, LittleEndian, ToLittleEndian;
    hide StartPayload, GetStartData, Flatten;
    match op
    case AppendNumber(entry, number, timestamp, now) => NumberReads(number);
    case StartOne(name, typ, metadata, timestamp, now) =>
      hide Tables;
      StartTables(b, name, typ, metadata, Stamp(timestamp, now));
      DoesStart(b, name, typ, metadata, timestamp, now);
    case FinishOne(entry, timestamp, now) =>
      hide Tables;
      FinishTables(b, entry, Stamp(timestamp, now));
      DoesFinish(b, entry, timestamp, now);
    case Describe(entry, metadata, timestamp, now) => DoesMetadata(b, entry, metadata, timestamp, now);
    case _ =>
  }

  lemma {:induction false} TablesKept(ops: seq<Op>)
    requires |ops| + 1 < UINT31S && forall op :: op in ops ==> Typed(op)
    ensures Tables(AfterAll(ops))
  {
    hide Tables, Does, After;
    if ops == [] {
      NoTables();
    } else {
      TablesKept(ops[..|ops| - 1]);
      DoesOne(AfterAll(ops[..|ops| - 1]), ops[|ops| - 1]);
    }
  }

  lemma NoTables()
    ensures Tables(EMPTY_BOOK)
  {
  }

  /** In every run each call does what it says, and no two names share an id. */
  lemma EveryCall(ops: seq<Op>)
    requires |ops| + 1 < UINT31S && forall op :: op in ops ==> Typed(op)
    ensures AllDone(ops) && Tables(AfterAll(ops))
  {
    hide Tables, Does, After;
    TablesKept(ops);
    forall i | 0 <= i < |ops|
      ensures Does(ops[i], Paused(ops[..i]), AfterAll(ops[..i]), AfterAll(ops[..i + 1]))
    {
      assert ops[..i + 1][..i] == ops[..i];
      TablesKept(ops[..i]);
      PausedIs(ops[..i]);
      DoesOne(AfterAll(ops[..i]), ops[i]);
    }
  }
}
