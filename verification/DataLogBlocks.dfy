/**
 * The blocks a data log writes through: space is reserved at the end of the
 * last outgoing block, unused space is given back, and full, in-flight and
 * free blocks change hands without being copied.
 */
module DataLogBlocks {
  import opened Bytes
  import opened Endian
  import opened DataLogFormat
  import opened DataLogControl

  const BLOCK: nat := 16 * 1024
  const MAX_HEADER: nat := 17

  /** Which list a block is in, and where. */
  datatype Place = Free(index: nat) | Outgoing(index: nat) | InFlight(index: nat)

  class Buffer {
    const buf: array<byte>
    var len: nat
    ghost var place: Place

    constructor (ghost place: Place)
      ensures fresh(buf) && buf.Length == BLOCK && len == 0 && this.place == place
    {
      buf := new byte[BLOCK];
      len := 0;
      this.place := place;
    }

    method Reserve(size: nat) returns (off: nat)
      requires len + size <= buf.Length
      modifies this`len
      ensures off == old(len) && len == off + size
    {
      off := len;
      len := len + size;
    }

    method Unreserve(size: nat)
      requires size <= len
      modifies this`len
      ensures len == old(len) - size
    {
      len := len - size;
    }

    method Clear()
      modifies this`len
      ensures len == 0
    {
      len := 0;
    }
  }

  class BlockQueue {
    var outgoing: seq<Buffer>
    var free: seq<Buffer>
    var toWrite: seq<Buffer>
    ghost var bufs: set<Buffer>
    ghost var home: map<array<byte>, Buffer>
    /** What the outgoing blocks before the last one hold, and what the blocks in flight hold. */
    ghost var spans: seq<seq<byte>>
    ghost var flight: seq<seq<byte>>
    /** How many blocks in flight have already been moved to the free list. */
    ghost var released: nat

    ghost predicate Holds(b: Buffer, data: seq<byte>)
      reads b`len, b.buf
    {
      |data| == b.len <= b.buf.Length && forall k :: 0 <= k < |data| ==> b.buf[k] == data[k]
    }

    /** Every block has its own array and is in one place. */
    ghost predicate Owned()
      reads this, bufs
    {
      && (forall b :: b in bufs ==> b.buf in home && home[b.buf] == b && b.buf.Length == BLOCK && b.len <= BLOCK)
      && (forall i :: 0 <= i < |outgoing| ==> outgoing[i] in bufs && outgoing[i].place == Outgoing(i))
      && (forall i :: 0 <= i < |free| ==> free[i] in bufs && free[i].place == Free(i) && free[i].len == 0)
      && (forall i :: released <= i < |toWrite| ==> toWrite[i] in bufs && toWrite[i].place == InFlight(i))
    }

    ghost predicate Valid()
      reads this, bufs, home.Keys
    {
      && Owned()
      && |spans| == (if outgoing == [] then 0 else |outgoing| - 1)
      && (forall i :: 0 <= i < |spans| ==> Holds(outgoing[i], spans[i]))
      && |flight| == |toWrite| && released <= |toWrite|
      && (forall i :: released <= i < |flight| ==> Holds(toWrite[i], flight[i]))
    }

    /** Appending does not touch what is in flight. */
    twostate predicate InFlightKept()
      reads this
    {
      toWrite == old(toWrite) && flight == old(flight) && released == old(released)
    }

    ghost function Last(): Buffer
      reads this
      requires outgoing != []
    {
      outgoing[|outgoing| - 1]
    }

    /** All outgoing bytes in order. */
    ghost function Bytes(): seq<byte>
      reads this, bufs, home.Keys
      requires Valid()
    {
      if outgoing == [] then [] else Upto(Last().len)
    }

    /** The outgoing bytes if the last block ended at `off`. */
    ghost function Upto(off: nat): seq<byte>
      reads this, bufs, home.Keys
      requires Valid() && outgoing != [] && off <= BLOCK
    {
      Flatten(spans) + Last().buf[..off]
    }

    /** What each outgoing block holds, the last one too. */
    ghost function Spanned(): seq<seq<byte>>
      reads this, bufs, home.Keys
      requires Valid()
    {
      if outgoing == [] then [] else spans + [Last().buf[..Last().len]]
    }

    lemma Closed()
      requires Valid()
      ensures |Spanned()| == |outgoing| && forall i :: 0 <= i < |outgoing| ==> Holds(outgoing[i], Spanned()[i])
      ensures Flatten(Spanned()) == Bytes()
    {
      if outgoing != [] {
        FlattenPush(spans, Last().buf[..Last().len]);
      }
    }

    constructor ()
      ensures Valid() && bufs == {} && home == map[] && outgoing == [] && toWrite == [] && flight == []
    {
      outgoing, free, toWrite, bufs, home, spans, flight, released := [], [], [], {}, map[], [], [], 0;
    }

    /** `size` bytes at the end of the last block, in a new block if the last one has no room. */
    method Reserve(size: nat) returns (b: Buffer, off: nat)
      requires Valid() && size <= BLOCK
      modifies this, bufs
      ensures Valid() && outgoing != [] && b == Last() && off + size == b.len && b in bufs && b.buf in home.Keys
      ensures b.buf.Length == BLOCK && b.len <= BLOCK && Upto(off) == old(Bytes())
      ensures InFlightKept()
      ensures fresh(bufs - old(bufs)) && fresh(home.Keys - old(home.Keys))
    {
      hide Holds, Flatten;
      if outgoing == [] || size > BLOCK - outgoing[|outgoing| - 1].len {
        AddBlock();
      }
      b, off := TakeRoom(size);
    }

    /** `size` bytes at the end of the last block, which has room. */
    method TakeRoom(size: nat) returns (b: Buffer, off: nat)
      requires Valid() && outgoing != [] && Last().len + size <= BLOCK
      modifies Last()`len
      ensures Valid() && b == Last() && off + size == b.len && b in bufs && b.buf in home.Keys
      ensures b.buf.Length == BLOCK && b.len <= BLOCK && Upto(off) == old(Bytes())
    {
      hide Holds, Flatten;
      b := outgoing[|outgoing| - 1];
      off := b.Reserve(size);
    }

    method AddBlock()
      requires Valid()
      modifies this, bufs
      ensures Valid() && outgoing != [] && Last().len == 0 && Upto(0) == old(Bytes())
      ensures InFlightKept()
      ensures fresh(bufs - old(bufs)) && fresh(home.Keys - old(home.Keys))
    {
      hide Valid, Owned, Holds, Upto, Bytes, Flatten;
      var b := TakeFree();
      Push(b);
    }

    /** A block that is in no list, from the free ones if there is one. */
    method TakeFree() returns (b: Buffer)
      requires Valid()
      modifies this`free, this`bufs, this`home
      ensures Valid() && b in bufs && b.place == Free(|free|) && b.len == 0 && Bytes() == old(Bytes())
      ensures fresh(bufs - old(bufs)) && fresh(home.Keys - old(home.Keys))
      ensures b in old(bufs) || fresh(b)
    {
      hide Holds, Flatten;
      if free == [] {
        b := new Buffer(Free(0));
        bufs, home := bufs + {b}, home[b.buf := b];
      } else {
        b := free[|free| - 1];
        free := free[..|free| - 1];
      }
    }

    /** Appends a block that is in no list. */
    method Push(b: Buffer)
      requires Valid() && b in bufs && b.place == Free(|free|) && b.len == 0
      modifies this`outgoing, this`spans, b`place
      ensures Valid() && outgoing != [] && Last().len == 0 && Upto(0) == old(Bytes())
    {
      Closed();
      hide Flatten, Holds;
      PutLast(b, Spanned());
      hide Owned;
    }

    /** The block is the last one of the outgoing ones. */
    method PutLast(b: Buffer, ghost all: seq<seq<byte>>)
      requires Owned() && b in bufs && b.place == Free(|free|)
      modifies this`outgoing, this`spans, b`place
      ensures Owned() && outgoing == old(outgoing) + [b] && spans == all
    {
      b.place := Outgoing(|outgoing|);
      outgoing := outgoing + [b];
      spans := all;
    }

    /** Copies into reserved space. */
    method Copy(b: Buffer, off: nat, data: seq<byte>)
      requires Valid() && outgoing != [] && b == Last() && off + |data| <= b.len
      modifies b.buf
      ensures Valid() && Upto(off + |data|) == old(Upto(off)) + data
      ensures off + |data| == b.len ==> Bytes() == Upto(off + |data|)
    {
      hide Holds, Flatten;
      ghost var before := b.buf[..off];
      for i := 0 to |data|
        invariant b.buf[..off + i] == before + data[..i]
        modifies b.buf
      {
        b.buf[off + i] := data[i];
      }
    }

    /** The record header, in space for the longest one; what it does not need is given back. */
    method StartRecord(entry: nat, timestamp: nat, size: nat, reserve: nat) returns (b: Buffer, off: nat)
      requires Valid() && MAX_HEADER + reserve <= BLOCK
      requires entry < UINT32S && timestamp < UINT64S && size < UINT32S
      modifies this, bufs, home.Keys
      ensures Valid() && outgoing != [] && b == Last() && off + reserve == b.len <= BLOCK
      ensures b in bufs && b.buf in home.Keys
      ensures Upto(off) == old(Bytes()) + HeaderBytes(entry, timestamp, size)
      ensures reserve == 0 ==> Bytes() == Upto(off)
      ensures InFlightKept()
      ensures fresh(bufs - old(bufs)) && fresh(home.Keys - old(home.Keys))
    {
      hide Valid, Owned, Holds, Upto, Bytes, Flatten, HeaderBytes;
      b, off := Reserve(MAX_HEADER + reserve);
      var len := PutHeader(b, off, entry, timestamp, size);
      off := off + len;
    }

    method PutHeader(b: Buffer, off: nat, entry: nat, timestamp: nat, size: nat) returns (len: nat)
      requires Valid() && outgoing != [] && b == Last() && off + MAX_HEADER <= b.len
      requires entry < UINT32S && timestamp < UINT64S && size < UINT32S
      modifies b`len, b.buf
      ensures Valid() && b.len == old(b.len) - (MAX_HEADER - len) && off + len <= b.len <= BLOCK
      ensures Upto(off + len) == old(Upto(off)) + HeaderBytes(entry, timestamp, size)
      ensures off + len == b.len ==> Bytes() == Upto(off + len)
    {
      hide Holds, Flatten, HeaderBytes;
      ghost var before := b.buf[..off];
      len := WriteRecordHeader(b.buf, off, entry, timestamp, size);
      b.Unreserve(MAX_HEADER - len);
      assert b.buf[..off + len] == before + b.buf[off..off + len];
    }

    lemma FlightSize()
      requires Valid()
      ensures |flight| == |toWrite|
    {
    }

    lemma FreeIsEmpty()
      requires Valid()
      ensures forall i :: 0 <= i < |free| ==> free[i].len == 0
    {
    }

    // Draining

    method Swap()
      requires Valid() && outgoing != [] && toWrite == []
      modifies this, bufs
      ensures Valid() && outgoing == [] && Bytes() == [] && bufs == old(bufs) && home == old(home)
      ensures toWrite != [] && released == 0 && Flatten(flight) == old(Bytes())
    {
      Closed();
      hide Flatten, Holds;
      MoveOut(Spanned());
      hide Owned;
    }

    /** The outgoing blocks are on their way. */
    method MoveOut(ghost all: seq<seq<byte>>)
      requires Owned() && toWrite == []
      modifies this`toWrite, this`outgoing, this`flight, this`spans, this`released, outgoing`place
      ensures Owned() && toWrite == old(outgoing) && outgoing == [] && flight == all && spans == [] && released == 0
    {
      forall b | b in outgoing {
        b.place := InFlight(b.place.index);
      }
      toWrite, outgoing := outgoing, [];
      flight, spans, released := all, [], 0;
    }

    /** The bytes of a block that the writer may read without the lock. */
    method GetData(i: nat) returns (data: seq<byte>)
      requires Valid() && released <= i < |toWrite|
      ensures data == flight[i]
    {
      assert Holds(toWrite[i], flight[i]);
      data := toWrite[i].buf[..toWrite[i].len];
    }

    method Release()
      requires Valid() && released == 0
      modifies this, bufs
      ensures Valid() && toWrite == [] && flight == [] && released == 0 && bufs == old(bufs) && home == old(home)
      ensures outgoing == old(outgoing) && Bytes() == old(Bytes())
    {
      hide Valid, Owned, Holds, Upto, Bytes, Flatten;
      var n := |toWrite|;
      for i := 0 to n
        invariant Valid() && released == i && |toWrite| == n && bufs == old(bufs) && home == old(home)
        invariant outgoing == old(outgoing) && Bytes() == old(Bytes())
      {
        ReleaseOne(i);
      }
      DropMoved();
    }

    method ReleaseOne(i: nat)
      requires Valid() && i == released < |toWrite|
      modifies this`free, this`released, bufs
      ensures Valid() && released == i + 1 && Bytes() == old(Bytes())
    {
      hide Holds, Flatten;
      var b := toWrite[i];
      b.Clear();
      b.place := Free(|free|);
      free := free + [b];
      released := i + 1;
    }

    method DropMoved()
      requires Valid() && released == |toWrite|
      modifies this`toWrite, this`flight, this`released
      ensures Valid() && toWrite == [] && flight == [] && released == 0 && Bytes() == old(Bytes())
    {
      hide Holds, Flatten;
      toWrite, flight, released := [], [], 0;
      assert Owned();
      hide Owned;
    }

    // Appending

    method AppendImpl(data: seq<byte>)
      requires Valid()
      modifies this, bufs, home.Keys
      ensures Valid() && Bytes() == old(Bytes()) + data
      ensures InFlightKept()
      ensures fresh(bufs - old(bufs)) && fresh(home.Keys - old(home.Keys))
    {
      hide Valid, Owned, Holds, Upto, Bytes, Flatten;
      var rest := data;
      while |rest| > BLOCK
        invariant Valid() && Bytes() + rest == old(Bytes()) + data
        invariant InFlightKept()
        invariant fresh(bufs - old(bufs)) && fresh(home.Keys - old(home.Keys))
      {
        var b, off := Reserve(BLOCK);
        Copy(b, off, rest[..BLOCK]);
        assert rest == rest[..BLOCK] + rest[BLOCK..];
        rest := rest[BLOCK..];
      }
      var b, off := Reserve(|rest|);
      Copy(b, off, rest);
    }

    method AppendPieces(data: seq<seq<byte>>)
      requires Valid()
      modifies this, bufs, home.Keys
      ensures Valid() && Bytes() == old(Bytes()) + Flatten(data)
      ensures InFlightKept()
      ensures fresh(bufs - old(bufs)) && fresh(home.Keys - old(home.Keys))
    {
      hide Valid, Owned, Holds, Upto, Bytes, Flatten;
      for i := 0 to |data|
        invariant Valid() && Bytes() + Flatten(data[i..]) == old(Bytes()) + Flatten(data)
        invariant InFlightKept()
        invariant fresh(bufs - old(bufs)) && fresh(home.Keys - old(home.Keys))
      {
        FlattenFrom(data, i);
        AppendImpl(data[i]);
      }
      FlattenNone(data[|data|..]);
    }

    method AppendStringImpl(str: seq<byte>)
      requires Valid() && |str| < UINT32S
      modifies this, bufs, home.Keys
      ensures Valid() && Bytes() == old(Bytes()) + StringBytes(str)
      ensures InFlightKept()
      ensures fresh(bufs - old(bufs)) && fresh(home.Keys - old(home.Keys))
    {
      hide Valid, Owned, Holds, Upto, Bytes, Flatten, ToLittleEndian;
      var b, off := Reserve(4);
      Copy(b, off, ToLittleEndian(|str|, 4));
      AppendImpl(str);
    }

    // Whole records

    method PutRaw(rec: Record)
      requires Valid()
      modifies this, bufs, home.Keys
      ensures Valid() && Bytes() == old(Bytes()) + Encode(rec)
      ensures InFlightKept()
      ensures fresh(bufs - old(bufs)) && fresh(home.Keys - old(home.Keys))
    {
      hide Valid, Owned, Holds, Upto, Bytes, Flatten, HeaderBytes, Encode;
      var b, off := StartRecord(rec.entry, Unsigned64(rec.timestamp), |rec.payload|, 0);
      AppendImpl(rec.payload);
      EncodeIs(rec);
    }

    method PutPieces(rec: Record, data: seq<seq<byte>>)
      requires Valid() && rec.payload == Flatten(data)
      modifies this, bufs, home.Keys
      ensures Valid() && Bytes() == old(Bytes()) + Encode(rec)
      ensures InFlightKept()
      ensures fresh(bufs - old(bufs)) && fresh(home.Keys - old(home.Keys))
    {
      hide Valid, Owned, Holds, Upto, Bytes, Flatten, HeaderBytes, Encode;
      var size := TotalSize(data);
      var b, off := StartRecord(rec.entry, Unsigned64(rec.timestamp), size, 0);
      AppendPieces(data);
      EncodeIs(rec);
    }

    /** A record whose payload is written into the space reserved with its header. */
    method PutInPlace(rec: Record)
      requires Valid() && |rec.payload| <= 8
      modifies this, bufs, home.Keys
      ensures Valid() && Bytes() == old(Bytes()) + Encode(rec)
      ensures InFlightKept()
      ensures fresh(bufs - old(bufs)) && fresh(home.Keys - old(home.Keys))
    {
      hide Valid, Owned, Holds, Upto, Bytes, Flatten, HeaderBytes, Encode;
      var b, off := StartRecord(rec.entry, Unsigned64(rec.timestamp), |rec.payload|, |rec.payload|);
      Copy(b, off, rec.payload);
      EncodeIs(rec);
    }

    /** The header and the first five bytes of a control record. */
    method StartControl(kind: byte, id: nat, stamp: int, size: nat)
      requires Valid() && IsInt64(stamp) && size < UINT32S
      modifies this, bufs, home.Keys
      ensures Valid() && Bytes() == old(Bytes()) + (HeaderBytes(0, Unsigned64(stamp), size) + ControlPayload(kind, id))
      ensures InFlightKept()
      ensures fresh(bufs - old(bufs)) && fresh(home.Keys - old(home.Keys))
    {
      hide Valid, Owned, Holds, Upto, Bytes, Flatten, HeaderBytes, ToLittleEndian;
      var b, off := StartRecord(0, Unsigned64(stamp), size, 5);
      Copy(b, off, [kind]);
      Copy(b, off + 1, ToLittleEndian(id, 4));
    }

    method PutStart(rec: Record, id: nat, name: seq<byte>, typ: seq<byte>, metadata: seq<byte>)
      requires Valid() && rec == Record(0, rec.timestamp, StartPayload(id, name, typ, metadata))
      modifies this, bufs, home.Keys
      ensures Valid() && Bytes() == old(Bytes()) + Encode(rec)
      ensures InFlightKept()
      ensures fresh(bufs - old(bufs)) && fresh(home.Keys - old(home.Keys))
    {
      hide Valid, Owned, Holds, Upto, Bytes, Flatten, HeaderBytes, Encode, ControlPayload, StringBytes;
      StartSize(id, name, typ, metadata);
      StartControl(CONTROL_START, id, rec.timestamp, 5 + 12 + |name| + |typ| + |metadata|);
      AppendStringImpl(name);
      AppendStringImpl(typ);
      AppendStringImpl(metadata);
      EncodeIs(rec);
    }

    method PutFinish(rec: Record, id: nat)
      requires Valid() && rec == Record(0, rec.timestamp, ControlPayload(CONTROL_FINISH, id))
      modifies this, bufs, home.Keys
      ensures Valid() && Bytes() == old(Bytes()) + Encode(rec)
      ensures InFlightKept()
      ensures fresh(bufs - old(bufs)) && fresh(home.Keys - old(home.Keys))
    {
      hide Valid, Owned, Holds, Upto, Bytes, Flatten, HeaderBytes, Encode;
      StartControl(CONTROL_FINISH, id, rec.timestamp, 5);
      EncodeIs(rec);
    }

    method PutMetadata(rec: Record, id: nat, metadata: seq<byte>)
      requires Valid() && rec == Record(0, rec.timestamp, MetadataPayload(id, metadata))
      modifies this, bufs, home.Keys
      ensures Valid() && Bytes() == old(Bytes()) + Encode(rec)
      ensures InFlightKept()
      ensures fresh(bufs - old(bufs)) && fresh(home.Keys - old(home.Keys))
    {
      hide Valid, Owned, Holds, Upto, Bytes, Flatten, HeaderBytes, Encode, ControlPayload, StringBytes;
      MetadataSize(id, metadata);
      StartControl(CONTROL_SET_METADATA, id, rec.timestamp, 5 + 4 + |metadata|);
      AppendStringImpl(metadata);
      EncodeIs(rec);
    }
  }

  lemma EncodeIs(r: Record)
    ensures Encode(r) == HeaderBytes(r.entry, Unsigned64(r.timestamp), |r.payload|) + r.payload
  {
  }

  /** One more byte of a number that is being written. */
  lemma VarIntMore(was: seq<byte>, n: nat)
    ensures |was| < |was + VarInt(n)|
    ensures was + VarInt(n) == was + [n % 256] + if n / 256 == 0 then [] else VarInt(n / 256)
  {
  }

  method WriteVarInt(buf: array<byte>, off: nat, val: nat) returns (len: nat)
    requires off + |VarInt(val)| <= buf.Length
    modifies buf
    ensures len == |VarInt(val)| && buf[off..off + len] == VarInt(val)
    ensures forall k :: 0 <= k < off || off + len <= k < buf.Length ==> buf[k] == old(buf[k])
  {
    hide VarInt;
    len := 0;
    var v := val;
    var more := true;
    while more
      invariant off + len <= buf.Length
      invariant more ==> buf[off..off + len] + VarInt(v) == VarInt(val)
      invariant !more ==> buf[off..off + len] == VarInt(val)
      invariant forall k :: 0 <= k < off || off + len <= k < buf.Length ==> buf[k] == old(buf[k])
      decreases more, v
    {
      ghost var was := buf[off..off + len];
      VarIntMore(was, v);
      buf[off + len] := v % 256;
      len := len + 1;
      assert buf[off..off + len] == was + [v % 256];
      v := v / 256;
      more := v != 0;
    }
  }

  method WriteRecordHeader(buf: array<byte>, off: nat, entry: nat, timestamp: nat, size: nat) returns (len: nat)
    requires off + MAX_HEADER <= buf.Length
    requires entry < UINT32S && timestamp < UINT64S && size < UINT32S
    modifies buf
    ensures len <= MAX_HEADER && buf[off..off + len] == HeaderBytes(entry, timestamp, size)
    ensures buf[..off] == old(buf[..off])
  {
    hide VarInt;
    HeaderParts(entry, timestamp, size);
    hide HeaderBytes;
    var entryLen, sizeLen, timestampLen := WriteFields(buf, off + 1, entry, timestamp, size);
    len := 1 + entryLen + sizeLen + timestampLen;
    ghost var fields := buf[off + 1..off + len];
    buf[off] := (timestampLen - 1) * 16 + (sizeLen - 1) * 4 + (entryLen - 1);
    assert buf[off..off + len] == [buf[off]] + fields;
  }

  /** The three fields behind the length bits. */
  method WriteFields(buf: array<byte>, off: nat, entry: nat, timestamp: nat, size: nat)
    returns (entryLen: nat, sizeLen: nat, timestampLen: nat)
    requires off + |VarInt(entry)| + |VarInt(size)| + |VarInt(timestamp)| <= buf.Length
    modifies buf
    ensures entryLen == |VarInt(entry)| && sizeLen == |VarInt(size)| && timestampLen == |VarInt(timestamp)|
    ensures buf[off..off + entryLen + sizeLen + timestampLen] == VarInt(entry) + VarInt(size) + VarInt(timestamp)
    ensures buf[..off] == old(buf[..off])
  {
    hide VarInt;
    entryLen := WriteVarInt(buf, off, entry);
    sizeLen := WriteVarInt(buf, off + entryLen, size);
    ghost var both := buf[off..off + entryLen + sizeLen];
    assert both == VarInt(entry) + VarInt(size);
    timestampLen := WriteVarInt(buf, off + entryLen + sizeLen, timestamp);
    assert buf[off..off + entryLen + sizeLen] == both;
  }
}
