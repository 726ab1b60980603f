/** Messages between the local store, the client engine and the wire, and what their order means. */
module ClientProtocol {
  import opened LocalStorageTypes

  datatype Options = Options(sendAll: bool, keepDuplicates: bool, periodicMs: nat)

  /** The topic a publisher is for and the type it publishes. */
  datatype TopicRef = TopicRef(topic: nat, name: string, typeStr: string)

  /** A message of the local store; publishers are named by their index. */
  datatype Message =
    | Publish(pub: nat, at: TopicRef, options: Options)
    | Unpublish(pub: nat)
    | SetValue(pub: nat, value: Value)
    | Other(tag: nat)

  datatype Wire =
    | Ping(now: int)
    | Text(msg: Message)
    | ValueOut(pub: nat, time: int, value: Value)

  /** The publishes (true) and unpublishes (false) of publisher `h`, in order. */
  function Turns(ms: seq<Message>, h: nat): seq<bool> {
    if ms == [] then []
    else
      var m := ms[|ms| - 1];
      Turns(ms[..|ms| - 1], h) + if IsTurn(m, h) then [m.Publish?] else []
  }

  predicate IsTurn(m: Message, h: nat) {
    (m.Publish? || m.Unpublish?) && m.pub == h
  }

  /** Publish, unpublish, publish and so on. */
  predicate Alternating(s: seq<bool>) {
    forall i :: 0 <= i < |s| ==> s[i] == (i % 2 == 0)
  }

  predicate EndsPublished(s: seq<bool>) {
    s != [] && s[|s| - 1]
  }

  lemma AlternatingPush(s: seq<bool>, b: bool)
    ensures Alternating(s + [b]) <==> Alternating(s) && (b <==> !EndsPublished(s))
  {
    if Alternating(s + [b]) {
      assert forall i :: 0 <= i < |s| ==> (s + [b])[i] == s[i];
      assert (s + [b])[|s|] == b;
    }
  }

  lemma {:induction false} TurnsAppend(a: seq<Message>, b: seq<Message>, h: nat)
    ensures Turns(a + b, h) == Turns(a, h) + Turns(b, h)
    decreases |b|
  {
    if b == [] {
      assert a + b == a;
    } else {
      var n := |b| - 1;
      assert (a + b)[..|a + b| - 1] == a + b[..n];
      TurnsAppend(a, b[..n], h);
    }
  }

  lemma TurnsPush(a: seq<Message>, m: Message, h: nat)
    ensures Turns(a + [m], h) == if IsTurn(m, h) then Turns(a, h) + [m.Publish?] else Turns(a, h)
  {
    assert (a + [m])[..|a|] == a;
  }

  /** The values set for `h` since it was last published or unpublished. */
  function SetSince(ms: seq<Message>, h: nat): seq<Value> {
    if ms == [] then []
    else
      var m, before := ms[|ms| - 1], SetSince(ms[..|ms| - 1], h);
      if IsTurn(m, h) then [] else if m.SetValue? && m.pub == h then before + [m.value] else before
  }

  lemma SetSincePush(ms: seq<Message>, m: Message, h: nat)
    ensures SetSince(ms + [m], h)
         == if IsTurn(m, h) then []
            else if m.SetValue? && m.pub == h then SetSince(ms, h) + [m.value]
            else SetSince(ms, h)
  {
    assert (ms + [m])[..|ms|] == ms;
  }

  // The wire

  function Texts(wire: seq<Wire>): seq<Message> {
    if wire == [] then []
    else
      var w := wire[|wire| - 1];
      Texts(wire[..|wire| - 1]) + if w.Text? then [w.msg] else []
  }

  lemma TextsPush(wire: seq<Wire>, w: Wire)
    ensures Texts(wire + [w]) == if w.Text? then Texts(wire) + [w.msg] else Texts(wire)
  {
    assert (wire + [w])[..|wire|] == wire;
  }

  /** The times the pings on the wire carry. */
  function PingsOn(wire: seq<Wire>): seq<int> {
    if wire == [] then []
    else
      var w := wire[|wire| - 1];
      PingsOn(wire[..|wire| - 1]) + if w.Ping? then [w.now] else []
  }

  lemma PingsPush(wire: seq<Wire>, w: Wire)
    ensures PingsOn(wire + [w]) == if w.Ping? then PingsOn(wire) + [w.now] else PingsOn(wire)
  {
    assert (wire + [w])[..|wire|] == wire;
  }

  /** The values of publisher `h` on the wire. */
  function ValuesOn(wire: seq<Wire>, h: nat): seq<Value> {
    if wire == [] then []
    else
      var w := wire[|wire| - 1];
      ValuesOn(wire[..|wire| - 1], h) + if w.ValueOut? && w.pub == h then [w.value] else []
  }

  lemma ValuesPush(wire: seq<Wire>, w: Wire, h: nat)
    ensures ValuesOn(wire + [w], h)
         == if w.ValueOut? && w.pub == h then ValuesOn(wire, h) + [w.value] else ValuesOn(wire, h)
  {
    assert (wire + [w])[..|wire|] == wire;
  }

  /** The values of `h` on the wire since its last turn there. */
  function SentSince(wire: seq<Wire>, h: nat): seq<Value> {
    if wire == [] then []
    else
      var w, before := wire[|wire| - 1], SentSince(wire[..|wire| - 1], h);
      if w.Text? && IsTurn(w.msg, h) then [] else if w.ValueOut? && w.pub == h then before + [w.value] else before
  }

  lemma SentSincePush(wire: seq<Wire>, w: Wire, h: nat)
    ensures SentSince(wire + [w], h)
         == if w.Text? && IsTurn(w.msg, h) then []
            else if w.ValueOut? && w.pub == h then SentSince(wire, h) + [w.value]
            else SentSince(wire, h)
  {
    assert (wire + [w])[..|wire|] == wire;
  }

  /** The values of `h` on the wire since its last turn, on the wire or still queued. */
  function Since(wire: seq<Wire>, queued: seq<Message>, h: nat): seq<Value> {
    if Turns(queued, h) == [] then SentSince(wire, h) else []
  }

  /** Every value on the wire belongs to a publisher whose last turn before it is a publish. */
  predicate Ordered(wire: seq<Wire>) {
    forall i :: 0 <= i < |wire| && wire[i].ValueOut? ==> EndsPublished(Turns(Texts(wire[..i]), wire[i].pub))
  }

  lemma OrderedPush(wire: seq<Wire>, w: Wire)
    requires Ordered(wire)
    requires w.ValueOut? ==> EndsPublished(Turns(Texts(wire), w.pub))
    ensures Ordered(wire + [w])
  {
    assert forall i :: 0 <= i <= |wire| ==> (wire + [w])[..i] == wire[..i];
    assert wire[..|wire|] == wire;
  }

  // Cancelling a publish that is still queued

  /** The index of the first queued publish of `h`, or the length of the queue. */
  function FirstPublish(ms: seq<Message>, h: nat): (i: nat)
    ensures i <= |ms|
    ensures i < |ms| ==> ms[i].Publish? && ms[i].pub == h
    ensures forall j :: 0 <= j < i ==> !(ms[j].Publish? && ms[j].pub == h)
  {
    if ms == [] then 0
    else if ms[0].Publish? && ms[0].pub == h then 0
    else 1 + FirstPublish(ms[1..], h)
  }

  lemma {:induction false} NoPublish(ms: seq<Message>, h: nat)
    requires FirstPublish(ms, h) == |ms|
    ensures forall i :: 0 <= i < |Turns(ms, h)| ==> !Turns(ms, h)[i]
    decreases |ms|
  {
    if ms != [] {
      var n := |ms| - 1;
      assert forall j :: 0 <= j < n ==> ms[..n][j] == ms[j];
      assert !(ms[n].Publish? && ms[n].pub == h);
      NoPublish(ms[..n], h);
    }
  }

  /** Removing a message changes only its own publisher's turns. */
  lemma TurnsWithout(ms: seq<Message>, i: nat, h: nat)
    requires i < |ms|
    ensures Turns(ms[..i] + ms[i + 1..], h) == Turns(ms[..i], h) + Turns(ms[i + 1..], h)
    ensures Turns(ms, h) == if IsTurn(ms[i], h) then Turns(ms[..i], h) + [ms[i].Publish?] + Turns(ms[i + 1..], h)
                            else Turns(ms[..i] + ms[i + 1..], h)
  {
    assert ms == ms[..i] + [ms[i]] + ms[i + 1..];
    TurnsAppend(ms[..i] + [ms[i]], ms[i + 1..], h);
    TurnsPush(ms[..i], ms[i], h);
    TurnsAppend(ms[..i], ms[i + 1..], h);
  }
}
