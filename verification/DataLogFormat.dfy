/** Records of a data log: variable-length headers and control payloads, and what reading recovers. */
module DataLogFormat {
  import opened Wrappers
  import opened Bytes
  import opened Endian

  const UINT8S: nat := 0x100
  const UINT31S: nat := 0x8000_0000
  const UINT32S: nat := 0x1_0000_0000
  const UINT63S: int := 0x8000_0000_0000_0000
  const UINT64S: nat := 0x1_0000_0000_0000_0000
  const CONTROL_START: byte := 0
  const CONTROL_FINISH: byte := 1
  const CONTROL_SET_METADATA: byte := 2

  // Numbers, least significant byte first

  /** At least one byte, no superfluous ones. */
  function VarInt(n: nat): (s: seq<byte>)
    ensures |s| >= 1
  {
    if n < 256 then [n] else [n % 256] + VarInt(n / 256)
  }

  lemma {:induction false} VarIntValue(n: nat)
    ensures LittleEndian(VarInt(n)) == n
  {
    if n < 256 {
      assert [n][1..] == [];
    } else {
      VarIntValue(n / 256);
      assert VarInt(n)[1..] == VarInt(n / 256);
    }
  }

  lemma {:induction false} VarIntSize(n: nat, k: nat)
    requires k >= 1 && n < Pow256(k)
    ensures |VarInt(n)| <= k
  {
    if n >= 256 {
      VarIntSize(n / 256, k - 1);
    }
  }

  lemma Sizes()
    ensures Pow256(1) == UINT8S && Pow256(4) == UINT32S && Pow256(8) == UINT64S
  {
  }

  // Two's complement

  predicate IsInt64(t: int) {
    -UINT63S <= t < UINT63S
  }

  function Unsigned64(t: int): nat
    requires IsInt64(t)
  {
    if t < 0 then t + UINT64S else t
  }

  function Signed64(n: nat): int
    requires n < UINT64S
  {
    if n < UINT63S then n else n - UINT64S
  }

  function Signed32(n: nat): int
    requires n < UINT32S
  {
    if n < UINT31S then n else n - UINT32S
  }

  // Records

  /** A record as a reader delivers it. */
  datatype RawRecord = Record(entry: int, timestamp: int, payload: seq<byte>)

  predicate Writable(r: RawRecord) {
    && 0 <= r.entry < UINT31S
    && IsInt64(r.timestamp)
    && |r.payload| < UINT32S
  }

  /** A record as a log holds it. */
  type Record = r: RawRecord | Writable(r) witness Record(0, 0, [])

  function HeaderBytes(entry: nat, timestamp: nat, size: nat): seq<byte>
    requires entry < UINT32S && timestamp < UINT64S && size < UINT32S
  {
    var e, s, t := VarInt(entry), VarInt(size), VarInt(timestamp);
    HeaderParts(entry, timestamp, size);
    [(|t| - 1) * 16 + (|s| - 1) * 4 + (|e| - 1)] + e + s + t
  }

  lemma HeaderParts(entry: nat, timestamp: nat, size: nat)
    requires entry < UINT32S && timestamp < UINT64S && size < UINT32S
    ensures |VarInt(entry)| <= 4 && |VarInt(size)| <= 4 && |VarInt(timestamp)| <= 8
  {
    Sizes();
    VarIntSize(entry, 4);
    VarIntSize(size, 4);
    VarIntSize(timestamp, 8);
  }

  function Encode(r: Record): seq<byte> {
    HeaderBytes(r.entry, Unsigned64(r.timestamp), |r.payload|) + r.payload
  }

  function EncodeAll(rs: seq<Record>): seq<byte> {
    if rs == [] then [] else EncodeAll(rs[..|rs| - 1]) + Encode(rs[|rs| - 1])
  }

  lemma EncodeAllPush(rs: seq<Record>, r: Record)
    ensures EncodeAll(rs + [r]) == EncodeAll(rs) + Encode(r)
  {
    hide Encode;
    assert (rs + [r])[..|rs|] == rs;
  }

  lemma Associative(a: seq<byte>, b: seq<byte>, c: seq<byte>)
    ensures a + (b + c) == a + b + c
  {
  }

  lemma {:induction false} EncodeAllAppend(a: seq<Record>, b: seq<Record>)
    ensures EncodeAll(a + b) == EncodeAll(a) + EncodeAll(b)
    decreases |b|
  {
    assert EncodeAll([]) == [];
    hide Encode, EncodeAll;
    if b == [] {
      assert a + b == a;
    } else {
      var init, last := b[..|b| - 1], b[|b| - 1];
      assert b == init + [last];
      assert a + b == a + init + [last];
      EncodeAllAppend(a, init);
      EncodeAllPush(a + init, last);
      EncodeAllPush(init, last);
      Associative(EncodeAll(a), EncodeAll(init), Encode(last));
    }
  }

  /** A string inside a payload. */
  function StringBytes(s: seq<byte>): seq<byte> {
    ToLittleEndian(|s|, 4) + s
  }

  // Reading

  /** The record at the start of `buf` and its size in bytes. */
  function ReadRecord(buf: seq<byte>): (o: Option<(RawRecord, nat)>)
    ensures o.Some? ==> 4 <= o.value.1 <= |buf|
  {
    if |buf| < 4 then None
    else
      var entryLen, sizeLen, timestampLen := buf[0] % 4 + 1, buf[0] / 4 % 4 + 1, buf[0] / 16 % 8 + 1;
      var headerLen := 1 + entryLen + sizeLen + timestampLen;
      if |buf| < headerLen then None
      else
        var entry := buf[1..1 + entryLen];
        var size := buf[1 + entryLen..1 + entryLen + sizeLen];
        var timestamp := buf[1 + entryLen + sizeLen..headerLen];
        FieldBounds(entry, size, timestamp);
        var n := LittleEndian(size);
        if n > |buf| - headerLen then None
        else
          Some((Record(Signed32(LittleEndian(entry)), Signed64(LittleEndian(timestamp)), buf[headerLen..headerLen + n]),
                headerLen + n))
  }

  lemma FieldBounds(entry: seq<byte>, size: seq<byte>, timestamp: seq<byte>)
    requires |entry| <= 4 && |size| <= 4 && |timestamp| <= 8
    ensures LittleEndian(entry) < UINT32S && LittleEndian(size) < UINT32S && LittleEndian(timestamp) < UINT64S
  {
    Sizes();
    LittleEndianBound(entry);
    LittleEndianBound(size);
    LittleEndianBound(timestamp);
    Pow256Grows(|entry|, 4);
    Pow256Grows(|size|, 4);
    Pow256Grows(|timestamp|, 8);
  }

  /** Reading undoes writing, whatever follows the record. */
  lemma ReadWritten(r: Record, rest: seq<byte>)
    ensures ReadRecord(Encode(r) + rest) == Some((r, |Encode(r)|))
  {
    hide VarInt, LittleEndian;
    var ts := Unsigned64(r.timestamp);
    var e, s, t := VarInt(r.entry), VarInt(|r.payload|), VarInt(ts);
    HeaderParts(r.entry, ts, |r.payload|);
    VarIntValue(r.entry);
    VarIntValue(|r.payload|);
    VarIntValue(ts);
    var first := (|t| - 1) * 16 + (|s| - 1) * 4 + (|e| - 1);
    FirstByte(|e|, |s|, |t|);
    var buf := Encode(r) + rest;
    assert buf == [first] + e + s + t + r.payload + rest;
    Fields(first, e, s, t, r.payload, rest);
  }

  /** The parts of a record, where the reader takes them from. */
  lemma Fields(first: byte, e: seq<byte>, s: seq<byte>, t: seq<byte>, payload: seq<byte>, rest: seq<byte>)
    ensures var buf, n := [first] + e + s + t + payload + rest, 1 + |e| + |s| + |t|;
            && buf[0] == first && buf[1..1 + |e|] == e && buf[1 + |e|..1 + |e| + |s|] == s
            && buf[1 + |e| + |s|..n] == t && buf[n..n + |payload|] == payload
  {
    var buf := [first] + e + s + t + payload + rest;
    assert buf == [first] + e + (s + t + payload + rest);
    assert buf == ([first] + e) + s + (t + payload + rest);
    assert buf == ([first] + e + s) + t + (payload + rest);
    Middle([first], e, s + t + payload + rest);
    Middle([first] + e, s, t + payload + rest);
    Middle([first] + e + s, t, payload + rest);
    Middle([first] + e + s + t, payload, rest);
  }

  lemma Middle(a: seq<byte>, b: seq<byte>, c: seq<byte>)
    ensures (a + b + c)[|a|..|a| + |b|] == b
  {
  }

  lemma FirstByte(e: nat, s: nat, t: nat)
    requires 1 <= e <= 4 && 1 <= s <= 4 && 1 <= t <= 8
    ensures var b := (t - 1) * 16 + (s - 1) * 4 + (e - 1);
            b % 4 + 1 == e && b / 4 % 4 + 1 == s && b / 16 % 8 + 1 == t
  {
  }

  function ReadAll(buf: seq<byte>): (seq<RawRecord>, nat) {
    match ReadRecord(buf)
    case None => ([], 0)
    case Some((r, n)) =>
      var (rs, m) := ReadAll(buf[n..]);
      ([r] + rs, n + m)
  }

  /** All the records come back in order and reading stops exactly at the end. */
  lemma {:induction false} ReadAllWritten(rs: seq<Record>)
    ensures ReadAll(EncodeAll(rs)) == (rs, |EncodeAll(rs)|)
    decreases |rs|
  {
    hide Encode, ReadRecord;
    if rs == [] {
      EmptyBuffer();
    } else {
      EncodeAllAppend([rs[0]], rs[1..]);
      assert [rs[0]] + rs[1..] == rs;
      assert [rs[0]][..0] == [] && EncodeAll([rs[0]]) == EncodeAll([]) + Encode(rs[0]);
      var rest := EncodeAll(rs[1..]);
      assert EncodeAll(rs) == Encode(rs[0]) + rest;
      ReadWritten(rs[0], rest);
      assert EncodeAll(rs)[|Encode(rs[0])|..] == rest;
      ReadAllWritten(rs[1..]);
    }
  }

  lemma EmptyBuffer()
    ensures ReadAll([]) == ([], 0)
  {
  }

  lemma EncodeNonEmpty(r: Record)
    ensures |Encode(r)| >= 4
  {
  }
}
