/** Control records: their payloads, and which entries they leave open. */
module DataLogControl {
  import opened Wrappers
  import opened Bytes
  import opened Endian
  import opened DataLogFormat

  datatype Control =
    | StartEntry(id: int, name: seq<byte>, typ: seq<byte>, metadata: seq<byte>)
    | FinishEntry(id: int)

  function ControlPayload(kind: byte, id: nat): seq<byte> {
    [kind] + ToLittleEndian(id, 4)
  }

  function StartPayload(id: nat, name: seq<byte>, typ: seq<byte>, metadata: seq<byte>): seq<byte> {
    ControlPayload(CONTROL_START, id) + StringBytes(name) + StringBytes(typ) + StringBytes(metadata)
  }

  function MetadataPayload(id: nat, metadata: seq<byte>): seq<byte> {
    ControlPayload(CONTROL_SET_METADATA, id) + StringBytes(metadata)
  }

  // Reading

  /** A string and what follows it. */
  function ReadString(buf: seq<byte>): Option<(seq<byte>, seq<byte>)> {
    if |buf| < 4 then None
    else
      var len := LittleEndian(buf[..4]);
      if len > |buf| - 4 then None else Some((buf[4..4 + len], buf[4 + len..]))
  }

  function ReadId(data: seq<byte>): int
    requires |data| >= 5
  {
    FieldBounds(data[1..5], [], []);
    Signed32(LittleEndian(data[1..5]))
  }

  predicate IsStart(r: RawRecord) {
    r.entry == 0 && |r.payload| >= 17 && r.payload[0] == CONTROL_START
  }

  predicate IsFinish(r: RawRecord) {
    r.entry == 0 && |r.payload| == 5 && r.payload[0] == CONTROL_FINISH
  }

  predicate IsSetMetadata(r: RawRecord) {
    r.entry == 0 && |r.payload| >= 9 && r.payload[0] == CONTROL_SET_METADATA
  }

  function GetStartData(r: RawRecord): Option<Control> {
    if !IsStart(r) then None
    else
      match ReadString(r.payload[5..])
      case None => None
      case Some((name, rest)) =>
        match ReadString(rest)
        case None => None
        case Some((typ, rest)) =>
          match ReadString(rest)
          case None => None
          case Some((metadata, _)) => Some(StartEntry(ReadId(r.payload), name, typ, metadata))
  }

  function GetFinishEntry(r: RawRecord): Option<int> {
    if IsFinish(r) then Some(ReadId(r.payload)) else None
  }

  function GetSetMetadataData(r: RawRecord): Option<(int, seq<byte>)> {
    if !IsSetMetadata(r) then None
    else
      match ReadString(r.payload[5..])
      case None => None
      case Some((metadata, _)) => Some((ReadId(r.payload), metadata))
  }

  lemma ReadStringWritten(s: seq<byte>, rest: seq<byte>)
    requires |s| < UINT32S
    ensures ReadString(StringBytes(s) + rest) == Some((s, rest))
  {
    Sizes();
    LittleEndianValue(|s|, 4);
    hide LittleEndian, ToLittleEndian;
    var buf := StringBytes(s) + rest;
    assert buf[..4] == ToLittleEndian(|s|, 4);
    assert buf[4..4 + |s|] == s && buf[4 + |s|..] == rest;
  }

  lemma ReadIdWritten(kind: byte, id: nat, rest: seq<byte>)
    requires id < UINT31S
    ensures ReadId(ControlPayload(kind, id) + rest) == id
  {
    Sizes();
    LittleEndianValue(id, 4);
    hide LittleEndian, ToLittleEndian;
    assert (ControlPayload(kind, id) + rest)[1..5] == ToLittleEndian(id, 4);
  }

  /** A start record carries its id and its three strings. */
  lemma StartWritten(id: nat, name: seq<byte>, typ: seq<byte>, metadata: seq<byte>, timestamp: int)
    requires id < UINT31S && |name| + |typ| + |metadata| + 17 < UINT32S
    ensures var r := Record(0, timestamp, StartPayload(id, name, typ, metadata));
            GetStartData(r) == Some(StartEntry(id, name, typ, metadata)) && GetFinishEntry(r) == None
  {
    hide ReadString, StringBytes, ReadId;
    StringSize(name);
    StringSize(typ);
    StringSize(metadata);
    var data := StartPayload(id, name, typ, metadata);
    var n, t, m := StringBytes(name), StringBytes(typ), StringBytes(metadata);
    assert data == ControlPayload(CONTROL_START, id) + (n + (t + m)) && m == m + [];
    assert data[5..] == n + (t + m);
    ReadIdWritten(CONTROL_START, id, n + (t + m));
    ReadStringWritten(name, t + m);
    ReadStringWritten(typ, m);
    ReadStringWritten(metadata, []);
  }

  lemma StringSize(s: seq<byte>)
    ensures |StringBytes(s)| == |s| + 4
  {
  }

  lemma StartSize(id: nat, name: seq<byte>, typ: seq<byte>, metadata: seq<byte>)
    ensures |StartPayload(id, name, typ, metadata)| == 17 + |name| + |typ| + |metadata|
  {
  }

  lemma MetadataSize(id: nat, metadata: seq<byte>)
    ensures |MetadataPayload(id, metadata)| == 9 + |metadata|
  {
  }

  lemma FinishWritten(id: nat, timestamp: int)
    requires id < UINT31S
    ensures var r := Record(0, timestamp, ControlPayload(CONTROL_FINISH, id));
            GetStartData(r) == None && GetFinishEntry(r) == Some(id)
  {
    ReadIdWritten(CONTROL_FINISH, id, []);
    assert ControlPayload(CONTROL_FINISH, id) + [] == ControlPayload(CONTROL_FINISH, id);
  }

  lemma MetadataWritten(id: nat, metadata: seq<byte>, timestamp: int)
    requires id < UINT31S && |metadata| + 9 < UINT32S
    ensures var r := Record(0, timestamp, MetadataPayload(id, metadata));
            && GetSetMetadataData(r) == Some((id, metadata))
            && GetStartData(r) == None && GetFinishEntry(r) == None
  {
    hide ReadString, StringBytes, ReadId;
    StringSize(metadata);
    var data := MetadataPayload(id, metadata);
    ReadIdWritten(CONTROL_SET_METADATA, id, StringBytes(metadata));
    assert data[5..] == StringBytes(metadata) + [];
    ReadStringWritten(metadata, []);
  }

  // Which entries are open

  function ControlOf(r: RawRecord): Option<Control> {
    match GetStartData(r)
    case Some(c) => Some(c)
    case None =>
      match GetFinishEntry(r)
      case Some(id) => Some(FinishEntry(id))
      case None => None
  }

  /** The control records of a log, in order. */
  function Controls(rs: seq<RawRecord>): seq<Control> {
    if rs == [] then []
    else
      var before := Controls(rs[..|rs| - 1]);
      match ControlOf(rs[|rs| - 1])
      case Some(c) => before + [c]
      case None => before
  }

  /** The start record that is not finished yet, if there is one for `id`. */
  function Open(cs: seq<Control>, id: int): Option<Control> {
    if cs == [] then None
    else
      var c := cs[|cs| - 1];
      if c.id != id then Open(cs[..|cs| - 1], id) else if c.StartEntry? then Some(c) else None
  }

  /** For every id, starts and finishes take turns, beginning with a start. */
  predicate Alternating(cs: seq<Control>) {
    cs == [] ||
    var before, c := cs[..|cs| - 1], cs[|cs| - 1];
    Alternating(before) && (c.StartEntry? <==> Open(before, c.id) == None)
  }

  /** What alternation means for any two consecutive control records of one id. */
  lemma {:induction false} AlternatingTurns(cs: seq<Control>, i: nat, j: nat)
    requires Alternating(cs) && i < j < |cs| && cs[i].id == cs[j].id
    requires forall k :: i < k < j ==> cs[k].id != cs[i].id
    ensures cs[i].StartEntry? <==> cs[j].FinishEntry?
  {
    if j < |cs| - 1 {
      AlternatingTurns(cs[..|cs| - 1], i, j);
    } else {
      OpenAt(cs[..j], i);
    }
  }

  lemma {:induction false} OpenAt(cs: seq<Control>, i: nat)
    requires i < |cs| && forall k :: i < k < |cs| ==> cs[k].id != cs[i].id
    ensures Open(cs, cs[i].id) == if cs[i].StartEntry? then Some(cs[i]) else None
  {
    if i < |cs| - 1 {
      OpenAt(cs[..|cs| - 1], i);
    }
  }

  /** The first control record of an id is a start. */
  lemma {:induction false} FirstIsStart(cs: seq<Control>, i: nat)
    requires Alternating(cs) && i < |cs| && forall k :: 0 <= k < i ==> cs[k].id != cs[i].id
    ensures cs[i].StartEntry?
  {
    if i < |cs| - 1 {
      FirstIsStart(cs[..|cs| - 1], i);
    } else {
      NeverOpen(cs[..i], cs[i].id);
    }
  }

  lemma {:induction false} NeverOpen(cs: seq<Control>, id: int)
    requires forall k :: 0 <= k < |cs| ==> cs[k].id != id
    ensures Open(cs, id) == None
  {
    if cs != [] {
      NeverOpen(cs[..|cs| - 1], id);
    }
  }

  // Names, ids and counts

  datatype EntryInfo = EntryInfo(typ: seq<byte>, id: nat)

  function Count(counts: map<int, nat>, id: int): nat {
    if id in counts then counts[id] else 0
  }

  /** What the tables of a log say about the control records it has written. */
  ghost predicate Sound(entries: map<seq<byte>, EntryInfo>, counts: map<int, nat>, lastId: nat, cs: seq<Control>) {
    && Alternating(cs)
    && (forall name :: name in entries ==> 1 <= entries[name].id <= lastId)
    && (forall a, b :: a in entries && b in entries && entries[a].id == entries[b].id ==> a == b)
    && (forall id :: Open(cs, id).Some? <==> Count(counts, id) > 0)
    && (forall id :: Open(cs, id).Some? ==> Registered(entries, Open(cs, id).value, id))
  }

  lemma SoundAtStart()
    ensures Controls([]) == [] && Sound(map[], map[], 0, [])
  {
  }

  predicate Registered(entries: map<seq<byte>, EntryInfo>, c: Control, id: int) {
    c.StartEntry? && c.id == id && c.name in entries
    && entries[c.name].typ == c.typ && entries[c.name].id == id
  }

  lemma OpenPush(cs: seq<Control>, c: Control, id: int)
    ensures Open(cs + [c], id) == if c.id != id then Open(cs, id) else if c.StartEntry? then Some(c) else None
  {
    assert (cs + [c])[..|cs|] == cs;
  }

  function IdFor(entries: map<seq<byte>, EntryInfo>, lastId: nat, name: seq<byte>): nat {
    if name in entries then entries[name].id else lastId + 1
  }

  /** A name whose count is positive has an open start record with that name. */
  lemma IdKnown(entries: map<seq<byte>, EntryInfo>, counts: map<int, nat>, lastId: nat, cs: seq<Control>,
                name: seq<byte>)
    requires Sound(entries, counts, lastId, cs)
    ensures var id := IdFor(entries, lastId, name);
            && 1 <= id <= lastId + 1
            && (Count(counts, id) > 0 ==>
                  name in entries && Open(cs, id).Some? && Open(cs, id).value.StartEntry?
                  && Open(cs, id).value.name == name && Open(cs, id).value.typ == entries[name].typ)
  {
    hide Open, Alternating;
    var id := IdFor(entries, lastId, name);
    if Count(counts, id) > 0 {
      assert Open(cs, id).Some? && Registered(entries, Open(cs, id).value, id);
    }
  }

  lemma StartOpens(entries: map<seq<byte>, EntryInfo>, counts: map<int, nat>, lastId: nat, cs: seq<Control>,
                   name: seq<byte>, typ: seq<byte>, metadata: seq<byte>)
    requires Sound(entries, counts, lastId, cs)
    requires Count(counts, IdFor(entries, lastId, name)) == 0
    ensures var id := IdFor(entries, lastId, name);
            Sound(entries[name := EntryInfo(typ, id)], counts[id := 1], if name in entries then lastId else id,
                  cs + [StartEntry(id, name, typ, metadata)])
  {
    var id := IdFor(entries, lastId, name);
    var c := StartEntry(id, name, typ, metadata);
    var cs', entries', counts' := cs + [c], entries[name := EntryInfo(typ, id)], counts[id := 1];
    assert Open(cs, id) == None;
    assert Alternating(cs') by {
      assert cs'[..|cs|] == cs;
    }
    hide Open, Alternating;
    forall i
      ensures Open(cs', i).Some? <==> Count(counts', i) > 0
      ensures Open(cs', i).Some? ==> Registered(entries', Open(cs', i).value, i)
    {
      OpenPush(cs, c, i);
      if i != id && Open(cs, i).Some? {
        assert Registered(entries, Open(cs, i).value, i);
      }
    }
  }

  lemma StartAgain(entries: map<seq<byte>, EntryInfo>, counts: map<int, nat>, lastId: nat, cs: seq<Control>, id: int,
                   n: nat)
    requires Sound(entries, counts, lastId, cs) && (n > 0 <==> Count(counts, id) > 0)
    ensures Sound(entries, counts[id := n], lastId, cs)
  {
    assert forall i :: Count(counts[id := n], i) > 0 <==> Count(counts, i) > 0;
  }

  lemma FinishCloses(entries: map<seq<byte>, EntryInfo>, counts: map<int, nat>, lastId: nat, cs: seq<Control>, id: int)
    requires Sound(entries, counts, lastId, cs) && Count(counts, id) == 1
    ensures 1 <= id <= lastId && Sound(entries, counts - {id}, lastId, cs + [FinishEntry(id)])
  {
    var c := FinishEntry(id);
    assert Open(cs, id).Some? && Registered(entries, Open(cs, id).value, id);
    assert (cs + [c])[..|cs|] == cs;
    forall i
      ensures Open(cs + [c], i).Some? <==> Count(counts - {id}, i) > 0
      ensures Open(cs + [c], i).Some? ==> Registered(entries, Open(cs + [c], i).value, i)
    {
      OpenPush(cs, c, i);
    }
  }
}
