/**
 * A data log and its writer thread. Everything a caller does runs under the
 * log's lock; the thread takes the lock to swap the outgoing blocks for an
 * empty list and to release them, and hands them to the callback without it.
 * Each method is one such step, so every interleaving of caller and thread is
 * a sequence of method calls.
 */
module DataLogWriter {
  import opened Wrappers
  import opened Bytes
  import opened Endian
  import opened DataLogFormat
  import opened DataLogControl
  import opened DataLogBlocks

  /**
   * Where the writer thread is: before the header, about to take the lock for the first
   * time, waiting, writing without the lock, or done.
   */
  datatype Place = Starting | AtLoop | Waiting | Writing(next: nat) | Stopped

  const MAGIC: seq<byte> := [87, 80, 73, 76, 79, 71, 0, 1]

  function FileHeader(extra: seq<byte>): seq<byte> {
    MAGIC + ToLittleEndian(|extra|, 4) + extra
  }

  /** The open start record of an entry carries this name and type. */
  predicate Opened(c: Option<Control>, name: seq<byte>, typ: seq<byte>) {
    c.Some? && c.value.StartEntry? && c.value.name == name && c.value.typ == typ
  }

  /** The counts after an entry is finished once more: a count of one goes, asking for an absent one leaves a zero. */
  function Finished(counts: map<int, nat>, entry: int): map<int, nat> {
    if entry <= 0 then counts
    else if Count(counts, entry) == 1 then counts - {entry}
    else counts[entry := if Count(counts, entry) == 0 then 0 else Count(counts, entry) - 1]
  }

  /** A timestamp of zero stands for the current time. */
  function Stamp(timestamp: int, now: int): int {
    if timestamp == 0 then now else timestamp
  }

  /** The file up to the first `done` records. */
  function Stored(extra: seq<byte>, rs: seq<Record>, done: nat): seq<byte>
    requires done <= |rs|
  {
    FileHeader(extra) + EncodeAll(rs[..done])
  }

  predicate NonEmpty(spans: seq<seq<byte>>) {
    forall i :: 0 <= i < |spans| ==> spans[i] != []
  }

  /** What the callback has got: all of `stored`, and the blocks in flight that are already written. */
  ghost predicate Delivered(thread: Place, written: seq<seq<byte>>, stored: seq<byte>, flight: seq<seq<byte>>) {
    match thread
    case Starting => written == [] && flight == []
    case AtLoop => NonEmpty(written) && Flatten(written) == stored && flight == []
    case Waiting => NonEmpty(written) && Flatten(written) == stored && flight == []
    case Writing(next) => NonEmpty(written) && next <= |flight| && Flatten(written) == stored + Flatten(flight[..next])
    case Stopped =>
      && written != [] && written[|written| - 1] == [] && NonEmpty(written[..|written| - 1])
      && Flatten(written) == stored && flight == []
  }

  /** What callers can change: whether the log is paused, its tables, and the records logged. */
  datatype Book = Book(paused: bool, entries: map<seq<byte>, EntryInfo>, counts: map<int, nat>, lastId: nat,
                       records: seq<RawRecord>)

  const EMPTY_BOOK := Book(false, map[], map[], 0, [])

  /** The book after data is appended to an entry. */
  function Appended(b: Book, entry: int, stamp: int, data: seq<byte>): Book {
    if entry <= 0 || b.paused then b else b.(records := b.records + [Record(entry, stamp, data)])
  }

  function Started(b: Book, name: seq<byte>, typ: seq<byte>, metadata: seq<byte>, stamp: int): Book {
    var id := IdFor(b.entries, b.lastId, name);
    var counted := b.(counts := b.counts[id := Count(b.counts, id) + 1]);
    if Count(b.counts, id) > 0 then counted
    else counted.(entries := b.entries[name := EntryInfo(typ, id)],
                  lastId := if name in b.entries then b.lastId else id,
                  records := b.records + [Record(0, stamp, StartPayload(id, name, typ, metadata))])
  }

  function FinishedBook(b: Book, entry: int, stamp: int): Book {
    b.(counts := Finished(b.counts, entry),
       records := if entry <= 0 || Count(b.counts, entry) != 1 then b.records
                  else b.records + [Record(0, stamp, ControlPayload(CONTROL_FINISH, entry))])
  }

  function Described(b: Book, entry: int, metadata: seq<byte>, stamp: int): Book {
    if entry <= 0 then b else b.(records := b.records + [Record(0, stamp, MetadataPayload(entry, metadata))])
  }

  /** Where the thread is and what it will see there, and how many records it has taken. */
  datatype Progress = Progress(thread: Place, sent: nat, active: bool, doFlush: bool)

  const START_OF_LOG := Progress(Starting, 0, true, false)

  /** Where the loop test leads. */
  function LoopTo(active: bool): Place {
    if active then Waiting else Stopped
  }

  /**
   * One step of the thread in a log of `n` records: only how many blocks a flush takes to write
   * is left open.
   */
  predicate Steps(timeout: bool, n: nat, a: Progress, b: Progress) {
    && b.active == a.active && b.doFlush == (a.doFlush && a.thread != Waiting)
    && match a.thread
       case Starting => b.thread == AtLoop && b.sent == a.sent
       case AtLoop => b.thread == LoopTo(a.active) && b.sent == a.sent
       case Waiting =>
         if (timeout || a.doFlush) && a.sent < n then b.thread == Writing(0) && b.sent == n
         else b.sent == a.sent && (b.thread == LoopTo(a.active) || ((timeout || a.doFlush) && b.thread == Writing(0)))
       case Writing(next) => b.sent == a.sent && (b.thread == Writing(next + 1) || b.thread == LoopTo(a.active))
       case Stopped => b == a
  }

  class DataLog {
    const queue: BlockQueue
    const extraHeader: seq<byte>
    var paused: bool
    var active: bool
    var doFlush: bool
    var entries: map<seq<byte>, EntryInfo>
    var counts: map<int, nat>
    var lastId: nat
    var thread: Place
    /** The spans given to the callback. */
    var written: seq<seq<byte>>
    /** The records logged, how many of them the callback has whole, and how many have left the outgoing blocks. */
    ghost var records: seq<Record>
    ghost var done: nat
    ghost var sent: nat

    ghost function Now(): Progress
      reads this
    {
      Progress(thread, sent, active, doFlush)
    }

    ghost function Repr(): set<object>
      reads this, queue
    {
      {this, queue} + queue.bufs + queue.home.Keys
    }

    /** The outgoing blocks hold the records not sent yet, and `more`. */
    ghost predicate Holding(more: seq<byte>)
      reads this`records, this`done, this`sent, this`thread, this`written, queue, queue.bufs, queue.home.Keys
    {
      && queue.Valid() && queue.released == 0 && done <= sent <= |records|
      && queue.Bytes() == EncodeAll(records[sent..]) + more
      && Flatten(queue.flight) == EncodeAll(records[done..sent])
      && Delivered(thread, written, Stored(extraHeader, records, done), queue.flight)
      && (thread.Starting? ==> sent == 0) && (!thread.Writing? ==> done == sent)
    }

    ghost predicate Valid()
      reads this, queue, queue.bufs, queue.home.Keys
    {
      Holding([]) && Sound(entries, counts, lastId, Controls(records))
    }

    constructor (extraHeader: seq<byte>)
      ensures Valid() && fresh(queue) && fresh(Repr()) && records == [] && this.extraHeader == extraHeader
      ensures TheBook() == EMPTY_BOOK && Now() == START_OF_LOG
    {
      queue := new BlockQueue();
      this.extraHeader := extraHeader;
      paused, active, doFlush := false, true, false;
      entries, counts, lastId, thread, written := map[], map[], 0, Starting, [];
      records, done, sent := [], 0, 0;
      new;
      EncodeNone();
      FlattenNone<byte>([]);
      SoundAtStart();
      hide BlockQueue.Valid, EncodeAll, Flatten, Sound, Controls;
      assert records[0..] == [] == records[0..0];
    }

    /** Takes over a record whose bytes are already at the end of the outgoing blocks. */
    ghost method Note(rec: Record)
      requires Holding(Encode(rec)) && Sound(entries, counts, lastId, Controls(records + [rec]))
      modifies this`records
      ensures Valid() && records == old(records) + [rec]
    {
      hide BlockQueue.Valid, BlockQueue.Bytes, Delivered, Flatten, EncodeAll, Encode, Controls, Sound;
      EncodeSlices(records, rec, done, sent);
      records := records + [rec];
      assert EncodeAll(records[sent..]) + [] == EncodeAll(records[sent..]);
    }

    // What callers do

    method AppendRaw(entry: int, data: seq<byte>, timestamp: int, now: int)
      requires Valid() && entry < UINT31S && |data| < UINT32S && IsInt64(timestamp) && IsInt64(now)
      modifies this`records, queue, queue.bufs, queue.home.Keys
      ensures Valid() && fresh(Repr() - old(Repr()))
      ensures TheBook() == Appended(old(TheBook()), entry, if timestamp == 0 then now else timestamp, data)
    {
      hide BlockQueue.Valid, BlockQueue.Bytes, Delivered, Stored, Flatten, EncodeAll, Encode, Controls, Sound;
      if entry <= 0 {
        return;
      }
      if paused {
        return;
      }
      var rec := Record(entry, Stamp(timestamp, now), data);
      queue.PutRaw(rec);
      DataIsNoControl(records, rec);
      Note(rec);
    }

    method AppendRaw2(entry: int, data: seq<seq<byte>>, timestamp: int, now: int)
      requires Valid() && entry < UINT31S && |Flatten(data)| < UINT32S && IsInt64(timestamp) && IsInt64(now)
      modifies this`records, queue, queue.bufs, queue.home.Keys
      ensures Valid() && fresh(Repr() - old(Repr()))
      ensures TheBook() == Appended(old(TheBook()), entry, if timestamp == 0 then now else timestamp, Flatten(data))
    {
      hide BlockQueue.Valid, BlockQueue.Bytes, Delivered, Stored, Flatten, EncodeAll, Encode, Controls, Sound;
      if entry <= 0 {
        return;
      }
      if paused {
        return;
      }
      var rec := Record(entry, Stamp(timestamp, now), Flatten(data));
      queue.PutPieces(rec, data);
      DataIsNoControl(records, rec);
      Note(rec);
    }

    method AppendInteger(entry: int, value: int, timestamp: int, now: int)
      requires Valid() && entry < UINT31S && IsInt64(value) && IsInt64(timestamp) && IsInt64(now)
      modifies this`records, queue, queue.bufs, queue.home.Keys
      ensures Valid() && fresh(Repr() - old(Repr()))
      ensures TheBook() == Appended(old(TheBook()), entry, if timestamp == 0 then now else timestamp,
                                    ToLittleEndian(Unsigned64(value), 8))
    {
      hide BlockQueue.Valid, BlockQueue.Bytes, Delivered, Stored, Flatten, EncodeAll, Encode, Controls, Sound;
      if entry <= 0 {
        return;
      }
      if paused {
        return;
      }
      var rec := Record(entry, Stamp(timestamp, now), ToLittleEndian(Unsigned64(value), 8));
      queue.PutInPlace(rec);
      DataIsNoControl(records, rec);
      Note(rec);
    }

    method Start(name: seq<byte>, typ: seq<byte>, metadata: seq<byte>, timestamp: int, now: int) returns (id: int)
      requires Valid() && |name| + |typ| + |metadata| + 17 < UINT32S && lastId + 1 < UINT31S
      requires IsInt64(timestamp) && IsInt64(now)
      modifies this`records, this`entries, this`counts, this`lastId, queue, queue.bufs, queue.home.Keys
      ensures Valid() && fresh(Repr() - old(Repr()))
      ensures id != 0 ==> Opened(Open(Controls(records), id), name, typ)
      ensures lastId == if name in old(entries) then old(lastId) else old(lastId) + 1
      ensures name in entries && counts == old(counts)[entries[name].id := Count(old(counts), entries[name].id) + 1]
      ensures Count(old(counts), entries[name].id) > 0 ==> records == old(records) && entries == old(entries)
      ensures Count(old(counts), entries[name].id) > 0
              ==> id == if entries[name].typ == typ then entries[name].id else 0
      ensures Count(old(counts), entries[name].id) == 0 ==>
                && id == entries[name].id && entries == old(entries)[name := EntryInfo(typ, id)]
                && records == old(records) + [Record(0, if timestamp == 0 then now else timestamp,
                                                     StartPayload(id, name, typ, metadata))]
                && Controls(records) == Controls(old(records)) + [StartEntry(id, name, typ, metadata)]
      ensures entries[name].id == IdFor(old(entries), old(lastId), name)
      ensures TheBook() == Started(old(TheBook()), name, typ, metadata, if timestamp == 0 then now else timestamp)
    {
      hide BlockQueue.Valid, BlockQueue.Bytes, Delivered, Stored, Flatten, EncodeAll, Encode, Controls, Sound;
      hide Holding, StartPayload, Open;
      ghost var cs := Controls(records);
      IdKnown(entries, counts, lastId, cs, name);
      ghost var entries0, counts0, lastId0 := entries, counts, lastId;
      id := Register(name, typ);
      if counts[id] > 1 {
        StartAgain(entries0, counts0, lastId0, cs, id, counts[id]);
        if entries[name].typ != typ {
          id := 0;
        }
        return;
      }
      StartOpens(entries0, counts0, lastId0, cs, name, typ, metadata);
      WriteStart(id, name, typ, metadata, Stamp(timestamp, now));
      OpenPush(cs, StartEntry(id, name, typ, metadata), id);
    }

    /** The id of a name, its count raised, and its type set if the count was zero. */
    method Register(name: seq<byte>, typ: seq<byte>) returns (id: int)
      requires Count(counts, IdFor(entries, lastId, name)) > 0 ==> name in entries
      modifies this`entries, this`counts, this`lastId
      ensures id == IdFor(old(entries), old(lastId), name)
      ensures counts == old(counts)[id := Count(old(counts), id) + 1]
      ensures if Count(old(counts), id) > 0 then entries == old(entries) && lastId == old(lastId)
              else && entries == old(entries)[name := EntryInfo(typ, id)]
                   && lastId == if name in old(entries) then old(lastId) else id
    {
      if name !in entries {
        lastId := lastId + 1;
        entries := entries[name := EntryInfo([], lastId)];
      }
      id := entries[name].id;
      var savedCount := if id in counts then counts[id] else 0;
      savedCount := savedCount + 1;
      counts := counts[id := savedCount];
      if savedCount > 1 {
        return;
      }
      entries := entries[name := EntryInfo(typ, id)];
    }

    method WriteStart(id: nat, name: seq<byte>, typ: seq<byte>, metadata: seq<byte>, stamp: int)
      requires Holding([])
      requires id < UINT31S && |name| + |typ| + |metadata| + 17 < UINT32S && IsInt64(stamp)
      requires Sound(entries, counts, lastId, Controls(records) + [StartEntry(id, name, typ, metadata)])
      modifies this`records, queue, queue.bufs, queue.home.Keys
      ensures Valid() && fresh(Repr() - old(Repr()))
      ensures records == old(records) + [Record(0, stamp, StartPayload(id, name, typ, metadata))]
      ensures Controls(records) == Controls(old(records)) + [StartEntry(id, name, typ, metadata)]
    {
      hide BlockQueue.Valid, BlockQueue.Bytes, Delivered, Stored, Flatten, EncodeAll, Encode, Controls, Sound;
      hide StartPayload;
      StartSize(id, name, typ, metadata);
      var rec := Record(0, stamp, StartPayload(id, name, typ, metadata));
      queue.PutStart(rec, id, name, typ, metadata);
      StartIsControl(records, id, name, typ, metadata, stamp);
      Note(rec);
    }

    method Finish(entry: int, timestamp: int, now: int)
      requires Valid() && IsInt64(timestamp) && IsInt64(now) && lastId < UINT31S
      modifies this`records, this`counts, queue, queue.bufs, queue.home.Keys
      ensures Valid() && fresh(Repr() - old(Repr()))
      ensures TheBook() == FinishedBook(old(TheBook()), entry, if timestamp == 0 then now else timestamp)
    {
      hide BlockQueue.Valid, BlockQueue.Bytes, Delivered, Stored, Flatten, EncodeAll, Encode, Controls, Sound;
      hide Holding, ControlPayload, Open;
      if entry <= 0 {
        return;
      }
      ghost var cs := Controls(records);
      var savedCount := if entry in counts then counts[entry] else 0;
      if savedCount == 0 {
        StartAgain(entries, counts, lastId, cs, entry, 0);
        counts := counts[entry := 0];
        return;
      }
      savedCount := savedCount - 1;
      if savedCount != 0 {
        StartAgain(entries, counts, lastId, cs, entry, savedCount);
        counts := counts[entry := savedCount];
        return;
      }
      FinishCloses(entries, counts, lastId, cs, entry);
      counts := counts - {entry};
      WriteFinish(entry, Stamp(timestamp, now));
    }

    method WriteFinish(id: nat, stamp: int)
      requires Holding([]) && id < UINT31S && IsInt64(stamp)
      requires Sound(entries, counts, lastId, Controls(records) + [FinishEntry(id)])
      modifies this`records, queue, queue.bufs, queue.home.Keys
      ensures Valid() && fresh(Repr() - old(Repr()))
      ensures records == old(records) + [Record(0, stamp, ControlPayload(CONTROL_FINISH, id))]
    {
      hide BlockQueue.Valid, BlockQueue.Bytes, Delivered, Stored, Flatten, EncodeAll, Encode, Controls, Sound;
      hide ControlPayload;
      ControlSize(CONTROL_FINISH, id);
      var rec := Record(0, stamp, ControlPayload(CONTROL_FINISH, id));
      queue.PutFinish(rec, id);
      FinishIsControl(records, id, stamp);
      Note(rec);
    }

    method SetMetadata(entry: int, metadata: seq<byte>, timestamp: int, now: int)
      requires Valid() && entry < UINT31S && |metadata| + 9 < UINT32S && IsInt64(timestamp) && IsInt64(now)
      modifies this`records, queue, queue.bufs, queue.home.Keys
      ensures Valid() && fresh(Repr() - old(Repr()))
      ensures TheBook() == Described(old(TheBook()), entry, metadata, if timestamp == 0 then now else timestamp)
    {
      hide BlockQueue.Valid, BlockQueue.Bytes, Delivered, Stored, Flatten, EncodeAll, Encode, Controls, Sound;
      hide MetadataPayload;
      if entry <= 0 {
        return;
      }
      MetadataSize(entry, metadata);
      var rec := Record(0, Stamp(timestamp, now), MetadataPayload(entry, metadata));
      queue.PutMetadata(rec, entry, metadata);
      MetadataIsNoControl(records, entry, metadata, rec.timestamp);
      Note(rec);
    }

    method Flush()
      requires Valid()
      modifies this`doFlush
      ensures Valid() && doFlush
    {
      hide Holding, Sound;
      doFlush := true;
    }

    method SetPaused(value: bool)
      requires Valid()
      modifies this`paused
      ensures Valid() && paused == value
    {
      hide Holding, Sound;
      paused := value;
    }

    /** The destructor's request to end the thread. */
    method Stop()
      requires Valid()
      modifies this`active, this`doFlush
      ensures Valid() && !active && doFlush
    {
      hide Holding, Sound;
      active, doFlush := false, true;
    }

    // What the writer thread does

    /**
     * The thread's next step; `timeout` tells how a wait ended. What the source does under
     * one hold of the lock is one step: the swap, and the release with the loop test.
     */
    method StepThread(timeout: bool)
      requires Valid()
      modifies this`doFlush, this`thread, this`written, this`done, this`sent, queue, queue.bufs
      ensures Valid() && queue.bufs == old(queue.bufs) && queue.home == old(queue.home)
      ensures old(written) <= written && (old(thread) == Stopped ==> written == old(written) && thread == Stopped)
      ensures old(thread) == Starting ==> thread == AtLoop
      ensures old(thread) == AtLoop ==> thread == LoopEnd()
      ensures old(thread) == Waiting ==>
                if (timeout || old(doFlush)) && old(queue.outgoing) != [] then thread == Writing(0) && sent == |records|
                else thread == LoopEnd()
      ensures old(thread).Writing? ==>
                if old(thread).next < |old(queue.toWrite)|
                then thread == Writing(old(thread).next + 1) && queue.toWrite == old(queue.toWrite)
                else thread == LoopEnd()
      ensures !thread.Writing? || old(thread) != Waiting ==> sent == old(sent)
      ensures doFlush == (old(doFlush) && old(thread) != Waiting)
    {
      hide BlockQueue.Valid, BlockQueue.Bytes, Flatten, EncodeAll, Controls, Sound;
      queue.FlightSize();
      match thread
      case Starting => WriteHeader();
      case AtLoop => LoopTest();
      case Waiting =>
        if (timeout || doFlush) && queue.outgoing != [] {
          doFlush := false;
          TakeOutgoing();
        } else {
          doFlush, thread := false, AtLoop;
          LoopTest();
        }
      case Writing(next) =>
        if next < |queue.toWrite| {
          WriteBlock(next);
        } else {
          ReleaseBlocks();
          LoopTest();
        }
      case Stopped =>
    }

    ghost function LoopEnd(): Place
      reads this`active
    {
      if active then Waiting else Stopped
    }

    /** Waits again, or marks the end of the data. */
    method LoopTest()
      requires Valid() && thread == AtLoop
      modifies this`thread, this`written
      ensures Valid() && thread == LoopEnd() && old(written) <= written
    {
      hide BlockQueue.Valid, BlockQueue.Bytes, Flatten, EncodeAll, Controls, Sound;
      if active {
        thread := Waiting;
      } else {
        FlattenPush(written, []);
        written, thread := written + [[]], Stopped;
      }
    }

    method WriteHeader()
      requires Valid() && thread == Starting
      modifies this`thread, this`written
      ensures Valid() && thread == AtLoop
    {
      hide BlockQueue.Valid, BlockQueue.Bytes, EncodeAll, Controls, Sound;
      var w := [MAGIC, ToLittleEndian(|extraHeader|, 4)];
      FlattenPush([MAGIC], ToLittleEndian(|extraHeader|, 4));
      FlattenPush([], MAGIC);
      FlattenPush(w, extraHeader);
      if |extraHeader| > 0 {
        w := w + [extraHeader];
      }
      assert records[..0] == [] && EncodeAll([]) == [] by { EncodeNone(); }
      written, thread := w, AtLoop;
    }

    /** Under the lock: the outgoing blocks for an empty list. */
    method TakeOutgoing()
      requires Valid() && thread == Waiting && queue.outgoing != []
      modifies this`thread, this`sent, queue, queue.bufs
      ensures Valid() && thread == Writing(0) && sent == |records|
      ensures queue.bufs == old(queue.bufs) && queue.home == old(queue.home)
    {
      hide BlockQueue.Valid, BlockQueue.Bytes, Flatten, EncodeAll, Controls, Sound;
      queue.FlightSize();
      assert EncodeAll(records[sent..]) + [] == EncodeAll(records[sent..]);
      queue.Swap();
      thread, sent := Writing(0), |records|;
      EncodeNone();
      assert records[done..|records|] == records[done..] && records[|records|..] == [];
      FlattenNone(queue.flight[..0]);
    }

    /** Without the lock: one block to the callback. */
    method WriteBlock(next: nat)
      requires Valid() && thread == Writing(next) && next < |queue.toWrite|
      modifies this`thread, this`written
      ensures Valid() && thread == Writing(next + 1) && old(written) <= written
    {
      hide BlockQueue.Valid, BlockQueue.Bytes, EncodeAll, Stored, Controls, Sound, Flatten;
      queue.FlightSize();
      var data := queue.GetData(next);
      FlattenPush(queue.flight[..next], data);
      assert queue.flight[..next + 1] == queue.flight[..next] + [data];
      FlattenPush(written, data);
      if data != [] {
        written := written + [data];
      }
      thread := Writing(next + 1);
    }

    /** Under the lock: the written blocks to the free list. */
    method ReleaseBlocks()
      requires Valid() && thread.Writing? && thread.next == |queue.toWrite|
      modifies this`thread, this`done, queue, queue.bufs
      ensures Valid() && thread == AtLoop
      ensures queue.bufs == old(queue.bufs) && queue.home == old(queue.home)
    {
      hide BlockQueue.Valid, BlockQueue.Bytes, Flatten, EncodeAll, Controls, Sound;
      queue.FlightSize();
      assert queue.flight[..|queue.toWrite|] == queue.flight;
      EncodeAllAppend(records[..done], records[done..sent]);
      assert records[..done] + records[done..sent] == records[..sent];
      queue.Release();
      thread, done := AtLoop, sent;
      assert records[sent..sent] == [];
      EncodeNone();
      FlattenNone(queue.flight);
    }

    ghost function TheBook(): Book
      reads this`paused, this`entries, this`counts, this`lastId, this`records
    {
      Book(paused, entries, counts, lastId, records)
    }

    // What holds at every point of every run

    ghost function Unwritten(): seq<seq<byte>>
      reads this, queue, queue.bufs, queue.home.Keys
      requires Valid()
    {
      if thread.Writing? then queue.flight[thread.next..] else []
    }

    /**
     * What the callback got, the blocks it is still to get and the outgoing
     * blocks are the file header and all records in order; what it got ends
     * between two records whenever no flush is going on; and the empty span
     * marks the end, once. Free blocks are empty.
     */
    lemma Accounting()
      requires Valid()
      ensures sent <= |records|
      ensures thread != Starting ==>
                Flatten(written) + Flatten(Unwritten()) + queue.Bytes() == FileHeader(extraHeader) + EncodeAll(records)
      ensures thread != Starting && !thread.Writing? ==>
                Flatten(written) == FileHeader(extraHeader) + EncodeAll(records[..sent])
      ensures forall i :: 0 <= i < |written| && written[i] == [] ==> thread == Stopped && i == |written| - 1
      ensures thread == Stopped ==> written != [] && written[|written| - 1] == []
      ensures queue.Bytes() == [] <==> sent == |records|
      ensures forall i :: 0 <= i < |queue.free| ==> queue.free[i].len == 0
    {
      hide BlockQueue.Valid, BlockQueue.Bytes, Flatten, EncodeAll, Encode, FileHeader, Controls, Sound;
      queue.FreeIsEmpty();
      EncodeAllAppend(records[..done], records[done..sent]);
      EncodeAllAppend(records[..sent], records[sent..]);
      assert records[..done] + records[done..sent] == records[..sent];
      assert records[..sent] + records[sent..] == records;
      EncodeNone();
      FlattenNone<byte>([]);
      if thread.Writing? {
        FlattenAppend(queue.flight[..thread.next], queue.flight[thread.next..]);
        assert queue.flight[..thread.next] + queue.flight[thread.next..] == queue.flight;
      } else {
        assert records[..done] == records[..sent];
      }
      if sent < |records| {
        EncodeSome(records[sent..]);
      }
      if thread == Stopped {
        assert forall i :: 0 <= i < |written| - 1 ==> written[i] == written[..|written| - 1][i];
      }
    }
  }

  lemma EncodeSome(rs: seq<Record>)
    requires rs != []
    ensures EncodeAll(rs) != []
  {
    EncodeNonEmpty(rs[|rs| - 1]);
  }

  // Runs

  datatype Op =
    | Append(entry: int, data: seq<byte>, timestamp: int, now: int)
    | AppendParts(entry: int, parts: seq<seq<byte>>, timestamp: int, now: int)
    | AppendNumber(entry: int, number: int, timestamp: int, now: int)
    | StartOne(name: seq<byte>, typ: seq<byte>, metadata: seq<byte>, timestamp: int, now: int)
    | FinishOne(entry: int, timestamp: int, now: int)
    | Describe(entry: int, metadata: seq<byte>, timestamp: int, now: int)
    | RequestFlush
    | Pause(value: bool)
    | RequestStop
    | Thread(timeout: bool)

  /** Arguments of the source's types. */
  predicate Typed(op: Op) {
    match op
    case Append(entry, data, timestamp, now) =>
      entry < UINT31S && |data| < UINT32S && IsInt64(timestamp) && IsInt64(now)
    case AppendParts(entry, parts, timestamp, now) =>
      entry < UINT31S && |Flatten(parts)| < UINT32S && IsInt64(timestamp) && IsInt64(now)
    case AppendNumber(entry, number, timestamp, now) =>
      entry < UINT31S && IsInt64(number) && IsInt64(timestamp) && IsInt64(now)
    case StartOne(name, typ, metadata, timestamp, now) =>
      |name| + |typ| + |metadata| + 17 < UINT32S && IsInt64(timestamp) && IsInt64(now)
    case FinishOne(entry, timestamp, now) => IsInt64(timestamp) && IsInt64(now)
    case Describe(entry, metadata, timestamp, now) =>
      entry < UINT31S && |metadata| + 9 < UINT32S && IsInt64(timestamp) && IsInt64(now)
    case RequestFlush => true
    case Pause(value) => true
    case RequestStop => true
    case Thread(timeout) => true
  }

  function After(b: Book, op: Op): Book
    requires Typed(op) && b.lastId + 1 < UINT31S
  {
    match op
    case Append(entry, data, timestamp, now) => Appended(b, entry, Stamp(timestamp, now), data)
    case AppendParts(entry, parts, timestamp, now) => Appended(b, entry, Stamp(timestamp, now), Flatten(parts))
    case AppendNumber(entry, number, timestamp, now) =>
      Appended(b, entry, Stamp(timestamp, now), ToLittleEndian(Unsigned64(number), 8))
    case StartOne(name, typ, metadata, timestamp, now) => Started(b, name, typ, metadata, Stamp(timestamp, now))
    case FinishOne(entry, timestamp, now) => FinishedBook(b, entry, Stamp(timestamp, now))
    case Describe(entry, metadata, timestamp, now) => Described(b, entry, metadata, Stamp(timestamp, now))
    case Pause(value) => b.(paused := value)
    case RequestFlush => b
    case RequestStop => b
    case Thread(timeout) => b
  }

  function AfterAll(ops: seq<Op>): (b: Book)
    requires |ops| + 1 < UINT31S && forall op :: op in ops ==> Typed(op)
    ensures b.lastId <= |ops|
  {
    if ops == [] then EMPTY_BOOK else After(AfterAll(ops[..|ops| - 1]), ops[|ops| - 1])
  }

  /** What a call or a step does to the thread in a log of `n` records. */
  predicate Moves(op: Op, n: nat, a: Progress, b: Progress) {
    match op
    case RequestFlush => b == a.(doFlush := true)
    case RequestStop => b == a.(active := false, doFlush := true)
    case Thread(timeout) => Steps(timeout, n, a, b)
    case _ => b == a
  }

  /** The thread's way through a run. */
  ghost predicate Follows(ops: seq<Op>, trace: seq<Progress>)
    requires |ops| + 1 < UINT31S && forall op :: op in ops ==> Typed(op)
  {
    && |trace| == |ops| + 1 && trace[0] == START_OF_LOG
    && forall i :: 0 <= i < |ops| ==> Moves(ops[i], |AfterAll(ops[..i]).records|, trace[i], trace[i + 1])
  }

  method Advance(log: DataLog, timeout: bool)
    requires log.Valid()
    modifies log`doFlush, log`thread, log`written, log`done, log`sent, log.queue, log.queue.bufs
    ensures log.Valid() && log.queue.bufs == old(log.queue.bufs) && log.queue.home == old(log.queue.home)
    ensures old(log.written) <= log.written && (old(log.thread) == Stopped ==> log.written == old(log.written))
    ensures Steps(timeout, |log.records|, old(log.Now()), log.Now())
  {
    hide DataLog.Valid;
    Settled(log);
    log.StepThread(timeout);
  }

  method Perform(log: DataLog, op: Op)
    requires log.Valid() && Typed(op) && log.lastId + 1 < UINT31S
    modifies log, log.queue, log.queue.bufs, log.queue.home.Keys
    ensures log.Valid() && fresh(log.Repr() - old(log.Repr())) && log.TheBook() == After(old(log.TheBook()), op)
    ensures old(log.written) <= log.written && Moves(op, |old(log.records)|, old(log.Now()), log.Now())
    ensures old(log.thread) == Stopped ==> log.written == old(log.written)
  {
    hide DataLog.Valid, Appended, Started, FinishedBook, Described, Flatten, ToLittleEndian, Steps;
    match op
    case Append(entry, data, timestamp, now) => log.AppendRaw(entry, data, timestamp, now);
    case AppendParts(entry, parts, timestamp, now) => log.AppendRaw2(entry, parts, timestamp, now);
    case AppendNumber(entry, number, timestamp, now) => log.AppendInteger(entry, number, timestamp, now);
    case StartOne(name, typ, metadata, timestamp, now) =>
      var id := log.Start(name, typ, metadata, timestamp, now);
    case FinishOne(entry, timestamp, now) => log.Finish(entry, timestamp, now);
    case Describe(entry, metadata, timestamp, now) => log.SetMetadata(entry, metadata, timestamp, now);
    case RequestFlush => log.Flush();
    case Pause(value) => log.SetPaused(value);
    case RequestStop => log.Stop();
    case Thread(timeout) => Advance(log, timeout);
  }

  /**
   * Any interleaving of calls and thread steps, from construction on: the log holds what the
   * calls logged, and the thread has gone its way.
   */
  method RunSchedule(extraHeader: seq<byte>, ops: seq<Op>) returns (log: DataLog, ghost trace: seq<Progress>)
    requires |ops| + 1 < UINT31S && forall op :: op in ops ==> Typed(op)
    ensures log.Valid() && fresh(log.Repr()) && log.extraHeader == extraHeader && log.TheBook() == AfterAll(ops)
    ensures Follows(ops, trace) && trace[|ops|] == log.Now()
  {
    hide DataLog.Valid, After, Moves;
    log := new DataLog(extraHeader);
    trace := [START_OF_LOG];
    for i := 0 to |ops|
      invariant log.Valid() && fresh(log.Repr()) && log.extraHeader == extraHeader
                && log.TheBook() == AfterAll(ops[..i])
      invariant |trace| == i + 1 && trace[0] == START_OF_LOG && trace[i] == log.Now()
      invariant forall j :: 0 <= j < i ==> Moves(ops[j], |AfterAll(ops[..j]).records|, trace[j], trace[j + 1])
    {
      assert ops[..i + 1][..i] == ops[..i];
      Perform(log, ops[i]);
      trace := trace + [log.Now()];
    }
    assert ops[..|ops|] == ops;
  }

  // The end of a log

  /**
   * The destructor: all records are handed over iff the thread was waiting when it was told
   * to stop, or there were none to hand over. A thread that has not taken the lock yet, or
   * that is writing, does not look again.
   */
  method StopAndJoin(log: DataLog)
    requires log.Valid()
    modifies log, log.queue, log.queue.bufs
    ensures log.Valid() && log.thread == Stopped && log.TheBook() == old(log.TheBook())
    ensures log.sent == |log.records| <==> old(log.thread == Waiting || log.sent == |log.records|)
    ensures log.sent == if old(log.thread) == Waiting then |log.records| else old(log.sent)
  {
    hide DataLog.Valid;
    log.Stop();
    Settled(log);
    while log.thread != Stopped
      invariant log.Valid() && !log.active && log.TheBook() == old(log.TheBook())
      invariant log.queue.bufs == old(log.queue.bufs) && log.queue.home == old(log.queue.home)
      invariant log.thread == Waiting ==> log.doFlush && old(log.thread) == Waiting
      invariant log.sent <= |log.records|
      invariant log.sent == if old(log.thread) == Waiting && log.thread != Waiting then |log.records| else old(log.sent)
      decreases match log.thread
                case Starting => 4 case AtLoop => 3 case Waiting => 2 case Writing(n) => 1 case Stopped => 0,
                if log.thread.Writing? then |log.queue.toWrite| - log.thread.next else 0
    {
      Settled(log);
      log.StepThread(false);
    }
  }

  /** A waiting thread with no block to take has handed over everything. */
  lemma Settled(log: DataLog)
    requires log.Valid()
    ensures log.queue.outgoing == [] ==> log.sent == |log.records|
    ensures log.thread.Writing? ==> log.thread.next <= |log.queue.toWrite|
    ensures log.sent <= |log.records|
  {
    if log.sent < |log.records| {
      NotEmpty(log);
    }
    hide BlockQueue.Bytes, EncodeAll, Controls, Sound, Flatten;
    log.queue.FlightSize();
  }

  /** A record logged during a flush is lost when the log ends there. */
  method ShutdownRace() returns (log: DataLog)
    ensures log.Valid() && log.thread == Stopped && log.sent == 1 && |log.records| == 2
  {
    hide DataLog.Valid;
    log := FlushOne();
    LogOne(log, 8);
    StopAndJoin(log);
  }

  /** One record, and a flush of it under way. */
  method FlushOne() returns (log: DataLog)
    ensures log.Valid() && fresh(log.Repr()) && !log.paused
    ensures log.thread.Writing? && log.sent == 1 == |log.records|
  {
    hide DataLog.Valid;
    log := Waited();
    LogOne(log, 7);
    NotEmpty(log);
    log.StepThread(true);
  }

  /** A new log whose thread has come to its wait. */
  method Waited() returns (log: DataLog)
    ensures log.Valid() && fresh(log.Repr()) && !log.paused && log.active
    ensures log.thread == Waiting && log.sent == 0 == |log.records|
  {
    hide DataLog.Valid;
    log := new DataLog([]);
    log.StepThread(false);
    log.StepThread(false);
  }

  /** So is a record logged before the thread first takes the lock. */
  method ShutdownEarly() returns (log: DataLog)
    ensures log.Valid() && log.thread == Stopped && log.sent == 0 && |log.records| == 1
  {
    hide DataLog.Valid;
    log := new DataLog([]);
    LogOne(log, 7);
    StopAndJoin(log);
  }

  method LogOne(log: DataLog, b: byte)
    requires log.Valid() && !log.paused
    modifies log`records, log.queue, log.queue.bufs, log.queue.home.Keys
    ensures log.Valid() && |log.records| == |old(log.records)| + 1 && fresh(log.Repr() - old(log.Repr()))
  {
    hide DataLog.Valid;
    log.AppendRaw(1, [b], 5, 5);
  }

  lemma NotEmpty(log: DataLog)
    requires log.Valid() && log.sent < |log.records|
    ensures log.queue.outgoing != []
  {
    hide BlockQueue.Valid, EncodeAll, Controls, Sound, Delivered, Flatten;
    EncodeSome(log.records[log.sent..]);
  }

  lemma EncodeNone()
    ensures EncodeAll([]) == []
  {
  }

  lemma ControlSize(kind: byte, id: nat)
    ensures |ControlPayload(kind, id)| == 5
  {
  }

  lemma StartIsControl(rs: seq<Record>, id: nat, name: seq<byte>, typ: seq<byte>, metadata: seq<byte>, stamp: int)
    requires id < UINT31S && |name| + |typ| + |metadata| + 17 < UINT32S
    ensures Controls(rs + [Record(0, stamp, StartPayload(id, name, typ, metadata))])
         == Controls(rs) + [StartEntry(id, name, typ, metadata)]
  {
    hide StartPayload, GetStartData, GetFinishEntry;
    var r := Record(0, stamp, StartPayload(id, name, typ, metadata));
    assert (rs + [r])[..|rs|] == rs;
    StartWritten(id, name, typ, metadata, stamp);
  }

  lemma FinishIsControl(rs: seq<Record>, id: nat, stamp: int)
    requires id < UINT31S
    ensures Controls(rs + [Record(0, stamp, ControlPayload(CONTROL_FINISH, id))]) == Controls(rs) + [FinishEntry(id)]
  {
    hide ControlPayload, GetStartData, GetFinishEntry;
    var r := Record(0, stamp, ControlPayload(CONTROL_FINISH, id));
    assert (rs + [r])[..|rs|] == rs;
    FinishWritten(id, stamp);
  }

  lemma MetadataIsNoControl(rs: seq<Record>, id: nat, metadata: seq<byte>, stamp: int)
    requires id < UINT31S && |metadata| + 9 < UINT32S
    ensures Controls(rs + [Record(0, stamp, MetadataPayload(id, metadata))]) == Controls(rs)
  {
    hide MetadataPayload, GetStartData, GetFinishEntry;
    var r := Record(0, stamp, MetadataPayload(id, metadata));
    assert (rs + [r])[..|rs|] == rs;
    MetadataWritten(id, metadata, stamp);
  }

  lemma DataIsNoControl(rs: seq<Record>, r: Record)
    requires r.entry != 0
    ensures Controls(rs + [r]) == Controls(rs)
  {
    assert (rs + [r])[..|rs|] == rs;
  }

  lemma EncodeSlices(rs: seq<Record>, r: Record, done: nat, sent: nat)
    requires done <= sent <= |rs|
    ensures (rs + [r])[..done] == rs[..done] && (rs + [r])[done..sent] == rs[done..sent]
    ensures EncodeAll((rs + [r])[sent..]) == EncodeAll(rs[sent..]) + Encode(r)
  {
    assert (rs + [r])[sent..] == rs[sent..] + [r];
    assert (rs[sent..] + [r])[..|rs[sent..]|] == rs[sent..];
  }
}
