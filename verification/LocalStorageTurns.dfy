/** What the store tells the network, over whole runs: when publishes and unpublishes take turns. */
module LocalStorageTurns {
  import opened Wrappers
  import opened LocalStorageTypes
  import opened ClientProtocol
  import opened LocalStorageState

  /** Every publisher's publishes and unpublishes take turns, a publish first. */
  ghost predicate InTurn(sent: seq<Message>) {
    forall h: nat :: Alternating(Turns(sent, h))
  }

  lemma EachInTurn(sent: seq<Message>, h: nat)
    requires InTurn(sent)
    ensures Alternating(Turns(sent, h))
  {
  }

  /** The network's last word on a publisher is that it is published. */
  predicate Told(s: StoreState, h: nat) {
    EndsPublished(Turns(s.sent, h))
  }

  /** Only handles given out so far have been spoken of. */
  ghost predicate Spoken(sent: seq<Message>, next: nat) {
    forall h: nat :: h >= next ==> Turns(sent, h) == []
  }

  /** Listed publishers are registered where they are listed, each once, with handles given out so far. */
  ghost predicate Placing(topics: seq<TopicState>, publishers: map<nat, Placed>, next: nat) {
    && (forall i, a :: 0 <= i < |topics| && 0 <= a < |topics[i].publishers| ==> PlacedAt(topics, publishers, i, a))
    && (forall i :: 0 <= i < |topics| ==> Apart(topics[i].publishers))
    && (forall h :: h in publishers ==> h < next && publishers[h].info.handle == h)
  }

  ghost predicate PlacedAt(topics: seq<TopicState>, publishers: map<nat, Placed>, i: nat, a: nat)
    requires i < |topics| && a < |topics[i].publishers|
  {
    var p := topics[i].publishers[a];
    p.handle in publishers && publishers[p.handle] == Placed(i, p)
  }

  ghost predicate Known(s: StoreState) {
    Placing(s.topics, s.publishers, s.next) && Spoken(s.sent, s.next)
  }

  // One message

  /**
   * One more message keeps the turns iff it is a publish of one not published, an unpublish of one
   * that is, or neither.
   */
  lemma TurnPush(sent: seq<Message>, m: Message)
    requires InTurn(sent)
    ensures InTurn(sent + [m])
       <==> (m.Publish? || m.Unpublish? ==> m.Publish? == !EndsPublished(Turns(sent, m.pub)))
  {
    hide Turns, Alternating, EndsPublished;
    forall h: nat
      ensures Turns(sent + [m], h) == if IsTurn(m, h) then Turns(sent, h) + [m.Publish?] else Turns(sent, h)
    {
      TurnsPush(sent, m, h);
    }
    if m.Publish? || m.Unpublish? {
      assert Alternating(Turns(sent, m.pub));
      AlternatingPush(Turns(sent, m.pub), m.Publish?);
      assert InTurn(sent + [m]) ==> Alternating(Turns(sent + [m], m.pub));
    }
  }

  /** Out of turn once, out of turn for good. */
  lemma TurnPrefix(sent: seq<Message>, more: seq<Message>)
    requires InTurn(sent + more)
    ensures InTurn(sent)
  {
    forall h: nat
      ensures Alternating(Turns(sent, h))
    {
      TurnsAppend(sent, more, h);
      var a, b := Turns(sent, h), Turns(more, h);
      assert Alternating(Turns(sent + more, h));
      assert forall i :: 0 <= i < |a| ==> (a + b)[i] == a[i];
    }
  }

  /** Other publishers' messages do not change what the network knows of one. */
  lemma ToldStays(sent: seq<Message>, m: Message, h: nat)
    requires !IsTurn(m, h)
    ensures Turns(sent + [m], h) == Turns(sent, h)
  {
    TurnsPush(sent, m, h);
  }

  // Fair calls

  /** The first publisher of a topic, when it would be published for another type, is not published yet. */
  predicate FairFirst(s: StoreState, t: TopicState) {
    t.Republishing() != [] ==> !Told(s, t.publishers[0].handle)
  }

  /** A publisher that leaves while active is published, and the one whose type takes over is not. */
  predicate FairLeave(s: StoreState, h: nat) {
    if h !in s.publishers || s.publishers[h].topic >= |s.topics| then true
    else
      var t, p := s.topics[s.publishers[h].topic], s.publishers[h].info;
      t.Active(p) ==> Told(s, h) && FairFirst(s, t.Leaving(h))
  }

  /** The publisher a call takes out. */
  function Leaver(s: StoreState, op: Op): Option<nat> {
    match op
    case DoUnpublish(OfPublisher(n)) => if n in s.publishers && s.publishers[n].info.owner.None? then Some(n) else None
    case DoUnpublish(OfEntry(n)) => if n in s.entries then s.entries[n].publisher else None
    case DoReleaseEntry(n) => if n in s.entries then s.entries[n].publisher else None
    case _ => None
  }

  /** What a caller can check before a call to know that the network is told in turn. */
  predicate Fair(s: StoreState, op: Op) {
    s.network ==>
      match op
      case DoUnannounce(name) => s.Named(name) ==> FairFirst(s, s.topics[s.names[name]])
      case _ => Leaver(s, op).Some? ==> FairLeave(s, Leaver(s, op).value)
  }

  // What is known stays known

  lemma SpokenPush(sent: seq<Message>, next: nat, m: Message)
    requires Spoken(sent, next) && (m.Publish? || m.Unpublish? ==> m.pub < next)
    ensures Spoken(sent + [m], next)
  {
    forall h: nat | h >= next
      ensures Turns(sent + [m], h) == []
    {
      TurnsPush(sent, m, h);
    }
  }

  /** A change to a topic that leaves its publishers, and at most one message. */
  lemma PutKnown(s: StoreState, i: nat, t: TopicState, msgs: seq<Message>)
    requires Known(s) && i < |s.topics| && t.publishers == s.topics[i].publishers && |msgs| <= 1
    requires forall m :: m in msgs && (m.Publish? || m.Unpublish?) ==> m.pub < s.next
    ensures Known(s.Put(i, t).Send(msgs))
  {
    var topics := s.topics[i := t];
    forall j, a | 0 <= j < |topics| && 0 <= a < |topics[j].publishers|
      ensures PlacedAt(topics, s.publishers, j, a)
    {
      assert PlacedAt(s.topics, s.publishers, j, a);
    }
    if |msgs| == 1 {
      assert msgs == [msgs[0]] && msgs[0] in msgs;
      SpokenPush(s.sent, s.next, msgs[0]);
    } else {
      assert s.sent + msgs == s.sent;
    }
  }

  lemma AddedPlacing(topics: seq<TopicState>, publishers: map<nat, Placed>, next: nat, i: nat, t: TopicState,
                     p: PublisherInfo)
    requires Placing(topics, publishers, next) && i < |topics| && p.handle == next
    requires t.publishers == topics[i].publishers + [p]
    ensures Placing(topics[i := t], publishers[p.handle := Placed(i, p)], next + 1)
  {
    var topics', publishers' := topics[i := t], publishers[p.handle := Placed(i, p)];
    forall j, a | 0 <= j < |topics'| && 0 <= a < |topics'[j].publishers|
      ensures PlacedAt(topics', publishers', j, a)
    {
      if !(j == i && a == |t.publishers| - 1) {
        assert PlacedAt(topics, publishers, j, a);
      }
    }
    forall q | q in topics[i].publishers
      ensures q.handle != p.handle
    {
      var a :| 0 <= a < |topics[i].publishers| && topics[i].publishers[a] == q;
      assert PlacedAt(topics, publishers, i, a);
    }
    ApartPush(topics[i].publishers, p);
  }

  lemma AddedTurns(s: StoreState, i: nat, p: PublisherInfo)
    requires Known(s) && p.handle == s.next
    ensures Known(s.Added(i, p)) && (InTurn(s.sent) ==> InTurn(s.Added(i, p).sent))
  {
    if i < |s.topics| {
      var t, u := s.topics[i], s.Added(i, p);
      assert t.With(p).publishers == t.publishers + [p];
      AddedPlacing(s.topics, s.publishers, s.next, i, t.With(p), p);
      hide Placing, TopicState.With;
      assert Spoken(s.sent, s.next + 1);
      if s.network && t.WithSends(p) != [] {
        var m := t.With(p).Publishing(p);
        assert t.WithSends(p) == [m];
        SpokenPush(s.sent, s.next + 1, m);
        assert Turns(s.sent, m.pub) == [];
        if InTurn(s.sent) {
          TurnPush(s.sent, m);
        }
      } else {
        assert s.sent + [] == s.sent;
      }
    }
  }

  lemma {:induction false} DroppedHandles(publishers: seq<PublisherInfo>, h: nat)
    ensures forall p :: p in Dropped(publishers, h) ==> p in publishers && p.handle != h
  {
    if publishers != [] {
      DroppedHandles(publishers[..|publishers| - 1], h);
    }
  }

  ghost predicate Apart(publishers: seq<PublisherInfo>) {
    forall a, b :: 0 <= a < b < |publishers| ==> publishers[a].handle != publishers[b].handle
  }

  lemma ApartPush(publishers: seq<PublisherInfo>, p: PublisherInfo)
    requires Apart(publishers) && forall q :: q in publishers ==> q.handle != p.handle
    ensures Apart(publishers + [p])
  {
  }

  lemma {:induction false} DroppedApart(publishers: seq<PublisherInfo>, h: nat)
    requires Apart(publishers)
    ensures Apart(Dropped(publishers, h))
  {
    if publishers != [] {
      var n := |publishers| - 1;
      var rest := Dropped(publishers[..n], h);
      DroppedApart(publishers[..n], h);
      DroppedHandles(publishers[..n], h);
      forall q | q in rest
        ensures q.handle != publishers[n].handle
      {
        assert q in publishers[..n];
      }
      ApartPush(rest, publishers[n]);
      assert rest + [] == rest;
    }
  }

  lemma RemovedPlacing(topics: seq<TopicState>, publishers: map<nat, Placed>, next: nat, i: nat, t: TopicState, h: nat)
    requires Placing(topics, publishers, next) && i < |topics| && h in publishers && publishers[h].topic == i
    requires t.publishers == Dropped(topics[i].publishers, h)
    ensures Placing(topics[i := t], publishers - {h}, next)
  {
    var topics', publishers' := topics[i := t], publishers - {h};
    DroppedHandles(topics[i].publishers, h);
    DroppedApart(topics[i].publishers, h);
    forall j, a | 0 <= j < |topics'| && 0 <= a < |topics'[j].publishers|
      ensures PlacedAt(topics', publishers', j, a)
    {
      if j == i {
        var p := t.publishers[a];
        assert p in t.publishers;
        var b :| 0 <= b < |topics[i].publishers| && topics[i].publishers[b] == p;
        assert PlacedAt(topics, publishers, i, b);
      } else {
        assert PlacedAt(topics, publishers, j, a);
      }
    }
  }

  /** The publishers of a topic without one of them. */
  lemma LeavingPublishers(t: TopicState, p: PublisherInfo)
    ensures t.Leaving(p.handle).publishers == Dropped(t.publishers, p.handle) == t.Without(p).publishers
  {
  }

  /**
   * Taking out a publisher is fair iff it is published when it was active, and the next one is not
   * when its type is another.
   */
  lemma RemovedTurns(s: StoreState, h: nat)
    requires Known(s)
    ensures Known(s.Removed(h))
    ensures InTurn(s.sent) ==> (InTurn(s.Removed(h).sent) <==> (s.network ==> FairLeave(s, h)))
  {
    if h in s.publishers && s.publishers[h].topic < |s.topics| {
      var i, p := s.publishers[h].topic, s.publishers[h].info;
      var t := s.topics[i];
      LeavingPublishers(t, p);
      RemovedPlacing(s.topics, s.publishers, s.next, i, t.Without(p), h);
      LeaveSends(s, i, h);
      hide Placing, TopicState.Without, TopicState.Leaving, TopicState.WithoutSends;
      assert s.sent + [] == s.sent;
    }
  }

  lemma LeaveSends(s: StoreState, i: nat, h: nat)
    requires Known(s) && i < |s.topics| && h in s.publishers && s.publishers[h].topic == i
    ensures var t, p := s.topics[i], s.publishers[h].info;
            var sent := s.sent + t.WithoutSends(p);
            Spoken(sent, s.next) && (InTurn(s.sent) ==> (InTurn(sent) <==> FairLeave(s, h)))
  {
    var t, p := s.topics[i], s.publishers[h].info;
    if t.Active(p) {
      var m, rest := Unpublish(h), t.Leaving(h);
      SpokenPush(s.sent, s.next, m);
      if InTurn(s.sent) {
        TurnPush(s.sent, m);
      }
      if rest.Republishing() == [] {
        assert s.sent + t.WithoutSends(p) == s.sent + [m];
      } else {
        LeavingPublishers(t, p);
        DroppedHandles(t.publishers, h);
        var first := rest.publishers[0];
        assert first in rest.publishers;
        var b :| 0 <= b < |t.publishers| && t.publishers[b] == first;
        assert PlacedAt(s.topics, s.publishers, i, b);
        var n := rest.Retyped().Publishing(first);
        assert s.sent + t.WithoutSends(p) == s.sent + [m] + [n];
        SpokenPush(s.sent + [m], s.next, n);
        TwoMessages(s.sent, m, n);
      }
    } else {
      assert s.sent + t.WithoutSends(p) == s.sent;
    }
  }

  /** Two messages about two publishers are each in turn or not on their own. */
  lemma TwoMessages(sent: seq<Message>, m: Message, n: Message)
    requires m.Unpublish? && n.Publish? && m.pub != n.pub
    ensures InTurn(sent)
        ==> (InTurn(sent + [m] + [n])
             <==> EndsPublished(Turns(sent, m.pub)) && !EndsPublished(Turns(sent, n.pub)))
  {
    if InTurn(sent) {
      hide Turns, EndsPublished;
      TurnPush(sent, m);
      ToldStays(sent, m, n.pub);
      if InTurn(sent + [m]) {
        TurnPush(sent + [m], n);
      } else if InTurn(sent + [m] + [n]) {
        TurnPrefix(sent + [m], [n]);
      }
    }
  }

  /** Values are no turns. */
  lemma GivenTurns(s: StoreState, p: Placed, value: Value, force: bool)
    requires Known(s)
    ensures Known(s.Given(p, value, force)) && (InTurn(s.sent) ==> InTurn(s.Given(p, value, force).sent))
  {
    if p.topic < |s.topics| {
      var t := s.topics[p.topic];
      var msgs := t.PublishedSends(p.info, value, force);
      PutKnown(s, p.topic, t.Published(p.info, value, force, s.network), msgs);
      hide Placing, Spoken, TopicState.Published;
      if InTurn(s.sent) && s.network && msgs != [] {
        TurnPush(s.sent, msgs[0]);
        assert msgs == [msgs[0]];
      } else {
        assert s.sent + [] == s.sent;
      }
    }
  }

  /** Losing the network's publishers is fair iff the publisher whose type takes over is not published. */
  lemma UnannouncedTurns(s: StoreState, name: string)
    requires Known(s)
    ensures Known(s.Unannounced(name))
    ensures InTurn(s.sent)
        ==> (InTurn(s.Unannounced(name).sent)
             <==> (s.network && s.Named(name) ==> FairFirst(s, s.topics[s.names[name]])))
  {
    if s.Named(name) {
      var i := s.names[name];
      var t := s.topics[i];
      var msgs := t.Republishing();
      if msgs != [] {
        assert PlacedAt(s.topics, s.publishers, i, 0);
      }
      PutKnown(s, i, t.Unannounced(), msgs);
      hide Placing, Spoken, TopicState.Unannounced;
      if InTurn(s.sent) && s.network && msgs != [] {
        TurnPush(s.sent, msgs[0]);
        assert msgs == [msgs[0]];
      } else {
        assert s.sent + [] == s.sent;
      }
    }
  }

  // A network that starts

  /** An active publisher with the handle is among the first `n`. */
  ghost predicate ActiveAmong(t: TopicState, n: nat, h: nat)
    requires n <= |t.publishers|
  {
    exists a :: 0 <= a < n && t.publishers[a].handle == h && t.Active(t.publishers[a])
  }

  lemma {:induction false} StartPublishesTurns(t: TopicState, n: nat, h: nat)
    requires n <= |t.publishers|
    requires Apart(t.publishers)
    ensures Turns(t.StartPublishes(n), h) == if ActiveAmong(t, n, h) then [true] else []
  {
    hide Turns, ActiveAmong, TopicState.StartPublishes, Apart;
    if n == 0 {
      NonePublished(t, h);
    } else {
      StartPublishesTurns(t, n - 1, h);
      StartPublishesStep(t, n, h);
      AmongStep(t, n, h);
    }
  }

  lemma NonePublished(t: TopicState, h: nat)
    ensures Turns(t.StartPublishes(0), h) == [] && !ActiveAmong(t, 0, h)
  {
  }

  lemma StartPublishesStep(t: TopicState, n: nat, h: nat)
    requires 0 < n <= |t.publishers|
    ensures var p := t.publishers[n - 1];
            Turns(t.StartPublishes(n), h)
            == Turns(t.StartPublishes(n - 1), h) + if p.handle == h && t.Active(p) then [true] else []
  {
    var p := t.publishers[n - 1];
    TurnsPush(t.StartPublishes(n - 1), t.Publishing(p), h);
    hide Turns;
    assert t.StartPublishes(n - 1) + [] == t.StartPublishes(n - 1);
  }

  lemma AmongStep(t: TopicState, n: nat, h: nat)
    requires 0 < n <= |t.publishers| && Apart(t.publishers)
    ensures var p := t.publishers[n - 1];
            if p.handle == h && t.Active(p) then ActiveAmong(t, n, h) && !ActiveAmong(t, n - 1, h)
            else ActiveAmong(t, n, h) <==> ActiveAmong(t, n - 1, h)
  {
  }

  lemma StartTopicTurns(t: TopicState, h: nat)
    requires Apart(t.publishers)
    ensures Turns(t.StartSends(), h) == if ActiveAmong(t, |t.publishers|, h) then [true] else []
  {
    var n := |t.publishers|;
    var any := t.LastActive(n);
    StartPublishesTurns(t, n, h);
    if any.Some? && t.lastValue.Some? {
      TurnsPush(t.StartPublishes(n), SetValue(any.value.handle, t.lastValue.value), h);
    } else {
      assert t.StartPublishes(n) + [] == t.StartPublishes(n);
    }
  }

  /** Every publisher that is active when a network starts is published to it once, and no other. */
  lemma {:induction false} StartTurns(s: StoreState, n: nat, h: nat)
    requires Placing(s.topics, s.publishers, s.next) && n <= |s.topics|
    ensures Turns(StartSends(s.topics, n), h)
         == if h in s.publishers && s.publishers[h].topic < n && ActiveIn(s, s.publishers[h].topic, h)
            then [true] else []
  {
    hide Turns, StartSends, Placing, ActiveIn;
    if n == 0 {
      NothingStarted(s.topics, h);
    } else {
      StartTurns(s, n - 1, h);
      StartStep(s, n, h);
    }
  }

  lemma NothingStarted(topics: seq<TopicState>, h: nat)
    ensures Turns(StartSends(topics, 0), h) == []
  {
  }

  /** One more topic adds one publish of the publisher, if that is active there. */
  lemma StartStep(s: StoreState, n: nat, h: nat)
    requires Placing(s.topics, s.publishers, s.next) && 0 < n <= |s.topics|
    ensures Turns(StartSends(s.topics, n), h)
         == Turns(StartSends(s.topics, n - 1), h) + if ActiveIn(s, n - 1, h) then [true] else []
    ensures ActiveIn(s, n - 1, h) ==> h in s.publishers && s.publishers[h].topic == n - 1
  {
    hide Turns, TopicState.StartSends, Placing, ActiveAmong, Apart;
    var t := s.topics[n - 1];
    ApartAt(s, n - 1);
    StartTopicTurns(t, h);
    ActiveThere(s, n - 1, h);
    TurnsAppend(StartSends(s.topics, n - 1), t.StartSends(), h);
  }

  lemma ApartAt(s: StoreState, i: nat)
    requires Placing(s.topics, s.publishers, s.next) && i < |s.topics|
    ensures Apart(s.topics[i].publishers)
  {
  }

  lemma ActiveThere(s: StoreState, i: nat, h: nat)
    requires Placing(s.topics, s.publishers, s.next) && i < |s.topics|
    ensures ActiveIn(s, i, h) ==> h in s.publishers && s.publishers[h].topic == i
  {
    var t := s.topics[i];
    if ActiveIn(s, i, h) {
      var a :| 0 <= a < |t.publishers| && t.publishers[a].handle == h && t.Active(t.publishers[a]);
      assert PlacedAt(s.topics, s.publishers, i, a);
    }
  }

  ghost predicate ActiveIn(s: StoreState, i: nat, h: nat)
    requires i < |s.topics|
  {
    ActiveAmong(s.topics[i], |s.topics[i].publishers|, h)
  }

  lemma StartedTurns(s: StoreState)
    requires Known(s)
    ensures Known(s.Started()) && InTurn(s.Started().sent)
  {
    var u := s.Started();
    forall h: nat
      ensures Alternating(Turns(u.sent, h)) && (h >= u.next ==> Turns(u.sent, h) == [])
    {
      StartTurns(s, |s.topics|, h);
    }
    hide Turns, Alternating, Placing;
  }

  // Whole calls and whole runs

  lemma CanBeTyped(e: EntryState, ty: NtType)
    requires e.CanPublish(ty) && e.publisher.None?
    ensures e.Configured(ty).ty.Some? && e.Configured(ty).topic == e.topic
  {
  }

  lemma ReadyTurns(s: StoreState, handle: Handle, ty: NtType)
    requires Known(s)
    ensures Known(s.Ready(handle, ty)) && (InTurn(s.sent) ==> InTurn(s.Ready(handle, ty).sent))
  {
    hide Known, InTurn, EntryState.CanPublish, EntryState.Configured, StoreState.Added;
    var n := handle.n;
    if handle.OfEntry? && n in s.entries && s.entries[n].publisher.None? && s.entries[n].CanPublish(ty) {
      CanBeTyped(s.entries[n], ty);
      var e := s.entries[n].Configured(ty);
      var u := s.(entries := s.entries[n := e]);
      var p := PublisherInfo(s.next, e.ty.value, e.typeStr, e.options, Some(n));
      SameKnown(s, u);
      AddedTurns(u, e.topic, p);
      SameKnown(u.Added(e.topic, p), u.WithPublisher(n));
    }
  }

  lemma LetGoTurns(s: StoreState, n: nat)
    requires Known(s)
    ensures Known(s.LetGo(n))
    ensures InTurn(s.sent)
        ==> (InTurn(s.LetGo(n).sent)
             <==> (s.network && n in s.entries && s.entries[n].publisher.Some?
                   ==> FairLeave(s, s.entries[n].publisher.value)))
  {
    if n in s.entries && s.entries[n].publisher.Some? {
      RemovedTurns(s, s.entries[n].publisher.value);
    }
  }

  lemma SetTurns(s: StoreState, handle: Handle, value: Option<Value>)
    requires Known(s)
    ensures Known(s.Set(handle, value)) && (InTurn(s.sent) ==> InTurn(s.Set(handle, value).sent))
  {
    if value.Some? {
      var u := s.Ready(handle, value.value.ty);
      ReadyTurns(s, handle, value.value.ty);
      hide Known, InTurn, StoreState.Ready, StoreState.Given;
      if u.PublisherOf(handle).Some? {
        GivenTurns(u, u.PublisherOf(handle).value, value.value, false);
      }
    }
  }

  lemma SetDefaultTurns(s: StoreState, handle: Handle, value: Option<Value>)
    requires Known(s)
    ensures Known(s.SetDefault(handle, value)) && (InTurn(s.sent) ==> InTurn(s.SetDefault(handle, value).sent))
  {
    if s.SetsDefault(handle, value) {
      var u := s.Ready(handle, value.value.ty);
      ReadyTurns(s, handle, value.value.ty);
      hide Known, InTurn, StoreState.Ready, StoreState.Default;
      DefaultTurns(u, s.TopicOf(handle).value, u.PublisherOf(handle), value.value);
    }
  }

  lemma DefaultTurns(s: StoreState, i: nat, p: Option<Placed>, value: Value)
    requires Known(s)
    ensures Known(s.Default(i, p, value)) && (InTurn(s.sent) ==> InTurn(s.Default(i, p, value).sent))
  {
    if i < |s.topics| && s.topics[i].TakesDefault(value) {
      var t := s.topics[i].Defaulted(value);
      PutKnown(s, i, t, []);
      assert s.sent + [] == s.sent;
      assert s.Put(i, t).Send([]) == s.Put(i, t);
      hide Known, InTurn, StoreState.Given, TopicState.Defaulted;
      if p.Some? {
        GivenTurns(s.Put(i, t), p.value, t.lastValue.value, true);
      }
    }
  }

  lemma CreatedKnown(s: StoreState, name: string)
    requires Known(s)
    ensures Known(s.Created(name))
  {
    var u := s.Created(name);
    forall i, a | 0 <= i < |u.topics| && 0 <= a < |u.topics[i].publishers|
      ensures PlacedAt(u.topics, u.publishers, i, a)
    {
      assert PlacedAt(s.topics, s.publishers, i, a);
    }
  }

  lemma ClearedKnown(s: StoreState)
    requires Known(s)
    ensures Known(s.Cleared())
  {
    var u := s.Cleared();
    forall i, a | 0 <= i < |u.topics| && 0 <= a < |u.topics[i].publishers|
      ensures PlacedAt(u.topics, u.publishers, i, a)
    {
      assert u.topics[i].publishers == s.topics[i].publishers;
      assert PlacedAt(s.topics, s.publishers, i, a);
    }
    assert forall i :: 0 <= i < |u.topics| ==> u.topics[i].publishers == s.topics[i].publishers;
  }

  /** What is known of a store stays known after every call. */
  lemma StaysKnown(s: StoreState, op: Op)
    requires Known(s)
    ensures Known(After(s, op))
  {
    hide Known, StoreState.Created, StoreState.Announced, StoreState.Unannounced, StoreState.NetworkValue;
    hide StoreState.Started, StoreState.Cleared, StoreState.Added, StoreState.Removed, StoreState.LetGo;
    hide StoreState.Set, StoreState.SetDefault;
    match op
    case DoGetTopic(name) => CreatedKnown(s, name);
    case DoAnnounce(name, typeStr, ack) => CreatedKnown(s, name); AnnouncedKnown(s.Created(name), name, typeStr, ack);
    case DoUnannounce(name) => CreatedKnown(s, name); UnannouncedTurns(s.Created(name), name);
    case DoNetworkValue(topic, value) => NetworkValueKnown(s, topic, value);
    case DoStartNetwork => StartedTurns(s);
    case DoClearNetwork => ClearedKnown(s);
    case DoPublish(topic, ty, typeStr, options) =>
      if s.CanPublish(topic, ty, typeStr) {
        AddedTurns(s, topic, PublisherInfo(s.next, ty.value, typeStr, options, None));
      }
    case DoUnpublish(handle) =>
      if handle.OfPublisher? {
        RemovedTurns(s, handle.n);
      } else if handle.OfEntry? {
        LetGoTurns(s, handle.n);
      }
    case DoGetEntry(topic, ty, typeStr, options) => SameKnown(s, After(s, op));
    case DoReleaseEntry(entry) => LetGoTurns(s, entry); SameKnown(s.LetGo(entry), After(s, op));
    case DoSet(handle, input) => SetTurns(s, handle, input);
    case DoSetDefault(handle, input) => SetDefaultTurns(s, handle, input);
    case DoSubscribe(prefixes) => SameKnown(s, After(s, op));
    case DoUnsubscribe(sub) => SameKnown(s, After(s, op));
  }

  lemma SameKnown(s: StoreState, u: StoreState)
    requires Known(s) && u.topics == s.topics && u.publishers == s.publishers && u.sent == s.sent && u.next >= s.next
    ensures Known(u)
  {
  }

  lemma AnnouncedKnown(s: StoreState, name: string, typeStr: string, ack: bool)
    requires Known(s)
    ensures Known(s.Announced(name, typeStr, ack)) && s.Announced(name, typeStr, ack).sent == s.sent
  {
    if !ack && s.Named(name) {
      var t := s.topics[s.names[name]].Announced(typeStr);
      PutKnown(s, s.names[name], t, []);
      assert s.sent + [] == s.sent;
      assert s.Put(s.names[name], t).Send([]) == s.Put(s.names[name], t);
    }
  }

  lemma NetworkValueKnown(s: StoreState, i: nat, value: Value)
    requires Known(s)
    ensures Known(s.NetworkValue(i, value))
  {
    if i < |s.topics| {
      var t := s.topics[i].FromNetwork(value);
      PutKnown(s, i, t, []);
      assert s.sent + [] == s.sent;
      assert s.Put(i, t).Send([]) == s.Put(i, t);
    }
  }

  lemma UnannounceTurns(s: StoreState, name: string)
    requires Known(s)
    ensures InTurn(s.sent) ==> (InTurn(After(s, DoUnannounce(name)).sent) <==> Fair(s, DoUnannounce(name)))
  {
    CreatedKnown(s, name);
    UnannouncedTurns(s.Created(name), name);
    hide Known, InTurn, Told;
  }

  /** A call tells the network in turn iff it is fair; a network that starts is told in turn whatever went before. */
  lemma FairIffInTurn(s: StoreState, op: Op)
    requires Known(s)
    ensures InTurn(s.sent) && op != DoStartNetwork ==> (InTurn(After(s, op).sent) <==> Fair(s, op))
    ensures op == DoStartNetwork ==> InTurn(After(s, op).sent)
  {
    hide Known, InTurn, FairLeave, FairFirst;
    match op
    case DoUnannounce(name) => UnannounceTurns(s, name);
    case DoStartNetwork => StartedTurns(s);
    case DoPublish(topic, ty, typeStr, options) =>
      if s.CanPublish(topic, ty, typeStr) {
        AddedTurns(s, topic, PublisherInfo(s.next, ty.value, typeStr, options, None));
      }
    case DoUnpublish(handle) =>
      if handle.OfPublisher? {
        RemovedTurns(s, handle.n);
      } else if handle.OfEntry? {
        LetGoTurns(s, handle.n);
      }
    case DoReleaseEntry(entry) => LetGoTurns(s, entry);
    case DoSet(handle, input) => SetTurns(s, handle, input);
    case DoSetDefault(handle, input) => SetDefaultTurns(s, handle, input);
    case _ =>
  }

  /** Every call of a run is fair where it is made. */
  ghost predicate FairRun(s: StoreState, ops: seq<Op>) {
    if ops == [] then true
    else FairRun(s, ops[..|ops| - 1]) && Fair(AfterAll(s, ops[..|ops| - 1]), ops[|ops| - 1])
  }

  /** A network that stays is told in turn over a whole run iff every call of the run is fair. */
  lemma {:induction false} RunInTurnIff(s: StoreState, ops: seq<Op>)
    requires Known(s) && InTurn(s.sent) && DoStartNetwork !in ops
    ensures Known(AfterAll(s, ops)) && s.sent <= AfterAll(s, ops).sent
    ensures InTurn(AfterAll(s, ops).sent) <==> FairRun(s, ops)
    decreases |ops|
  {
    if ops != [] {
      var before, op := ops[..|ops| - 1], ops[|ops| - 1];
      var u := AfterAll(s, before);
      RunInTurnIff(s, before);
      assert op in ops;
      StaysKnown(u, op);
      FairIffInTurn(u, op);
      SentGrows(u, op);
      var more := After(u, op).sent[|u.sent|..];
      assert After(u, op).sent == u.sent + more;
      hide Known, InTurn, After, Fair;
      if InTurn(After(u, op).sent) {
        TurnPrefix(u.sent, more);
      }
    }
  }

  lemma ReadyGrows(s: StoreState, handle: Handle, ty: NtType)
    ensures s.sent <= s.Ready(handle, ty).sent
  {
  }

  lemma GivenGrows(s: StoreState, p: Placed, value: Value, force: bool)
    ensures s.sent <= s.Given(p, value, force).sent
  {
  }

  lemma DefaultGrows(s: StoreState, i: nat, p: Option<Placed>, value: Value)
    ensures s.sent <= s.Default(i, p, value).sent
  {
    hide StoreState.Given;
    if i < |s.topics| && s.topics[i].TakesDefault(value) && p.Some? {
      var t := s.topics[i].Defaulted(value);
      GivenGrows(s.Put(i, t), p.value, t.lastValue.value, true);
    }
  }

  lemma SetGrows(s: StoreState, handle: Handle, value: Option<Value>)
    ensures s.sent <= s.Set(handle, value).sent
  {
    hide StoreState.Given, StoreState.Ready;
    if value.Some? {
      var u := s.Ready(handle, value.value.ty);
      ReadyGrows(s, handle, value.value.ty);
      if u.PublisherOf(handle).Some? {
        GivenGrows(u, u.PublisherOf(handle).value, value.value, false);
      }
    }
  }

  lemma SetDefaultGrows(s: StoreState, handle: Handle, value: Option<Value>)
    ensures s.sent <= s.SetDefault(handle, value).sent
  {
    hide StoreState.Default, StoreState.Ready;
    if s.SetsDefault(handle, value) {
      var u := s.Ready(handle, value.value.ty);
      ReadyGrows(s, handle, value.value.ty);
      DefaultGrows(u, s.TopicOf(handle).value, u.PublisherOf(handle), value.value);
    }
  }

  /** While a network stays, it is only told more. */
  lemma SentGrows(s: StoreState, op: Op)
    requires op != DoStartNetwork
    ensures s.sent <= After(s, op).sent
  {
    hide TopicState.With, TopicState.WithSends, TopicState.Without, TopicState.WithoutSends;
    hide TopicState.Unannounced, TopicState.Republishing, TopicState.Announced, TopicState.FromNetwork;
    hide StoreState.Set, StoreState.SetDefault;
    match op
    case DoSet(handle, input) => SetGrows(s, handle, input);
    case DoSetDefault(handle, input) => SetDefaultGrows(s, handle, input);
    case _ =>
  }

  lemma {:induction false} AllKnown(ops: seq<Op>)
    ensures Known(AfterAll(EMPTY_STORE, ops))
    decreases |ops|
  {
    if ops != [] {
      AllKnown(ops[..|ops| - 1]);
      StaysKnown(AfterAll(EMPTY_STORE, ops[..|ops| - 1]), ops[|ops| - 1]);
    }
  }

  // Unfair runs

  /** A publisher that was published, lost its type to the network and got it back is published again. */
  lemma PublishedAgain(s: StoreState, name: string, typeStr: string)
    requires s.network && InTurn(s.sent) && s.Named(name) && s.topics[s.names[name]].publishers != []
    requires var first := s.topics[s.names[name]].publishers[0];
             Told(s, first.handle) && !first.Fits(Some(StringToType(typeStr)), typeStr)
    ensures var t := s.topics[s.names[name]];
            var u := After(After(s, DoAnnounce(name, typeStr, false)), DoUnannounce(name));
            u.sent == s.sent + [t.Retyped().Publishing(t.publishers[0])] && !InTurn(u.sent)
  {
    var t := s.topics[s.names[name]];
    TurnPush(s.sent, t.Retyped().Publishing(t.publishers[0]));
    hide InTurn, Turns, StringToType;
    var a := After(s, DoAnnounce(name, typeStr, false));
    assert a == s.Put(s.names[name], t.Announced(typeStr));
    assert t.Announced(typeStr).Republishing() == [t.Retyped().Publishing(t.publishers[0])];
  }

  /**
   * The active publisher `h` leaves, the first of the others has another type, and the one at `b`
   * has that type too.
   */
  ghost predicate TakesAlong(s: StoreState, h: nat, b: nat) {
    && h in s.publishers && s.publishers[h].topic < |s.topics|
    && var t, rest := s.topics[s.publishers[h].topic], s.topics[s.publishers[h].topic].Leaving(h);
    && t.Active(s.publishers[h].info) && 0 < b < |rest.publishers| && !rest.Active(rest.publishers[0])
    && rest.publishers[b].Fits(Some(rest.publishers[0].ty), rest.publishers[0].typeStr)
  }

  function Along(s: StoreState, h: nat, b: nat): Placed
    requires TakesAlong(s, h, b)
  {
    var i := s.publishers[h].topic;
    Placed(i, s.topics[i].Leaving(h).publishers[b])
  }

  /**
   * When the first publisher takes over with its type, others of that type become active with it
   * without being published.
   */
  lemma LeftUntold(s: StoreState, h: nat, b: nat)
    requires Known(s) && TakesAlong(s, h, b) && !Told(s, Along(s, h, b).info.handle)
    ensures var q, u := Along(s, h, b), s.Removed(h);
            && q.topic < |u.topics| && u.topics[q.topic].Active(q.info) && !Told(u, q.info.handle)
            && q.info.handle in u.publishers && u.publishers[q.info.handle] == q
  {
    var i, p := s.publishers[h].topic, s.publishers[h].info;
    var t, u := s.topics[i], s.Removed(h);
    var rest := t.Leaving(h).publishers;
    var q := rest[b];
    LeavingPublishers(t, p);
    DroppedHandles(t.publishers, h);
    DroppedApart(t.publishers, h);
    assert q in rest && rest[0] in rest && q.handle != h && q.handle != rest[0].handle;
    RemovedPlacing(s.topics, s.publishers, s.next, i, t.Without(p), h);
    assert PlacedAt(u.topics, u.publishers, i, b);
    OthersUntold(s, t, p, q.handle);
    hide Turns, Placing, Dropped, TopicState.WithoutSends;
  }

  /**
   * When such a publisher leaves in its turn, the network is told that it goes, though it was
   * never told that it came.
   */
  lemma NeverPublished(s: StoreState, h: nat, b: nat)
    requires Known(s) && s.network && TakesAlong(s, h, b) && !Told(s, Along(s, h, b).info.handle)
    ensures var x, u := Along(s, h, b).info.handle, s.Removed(h);
            u.sent + [Unpublish(x)] <= u.Removed(x).sent && !InTurn(u.Removed(x).sent)
  {
    var q, u := Along(s, h, b), s.Removed(h);
    var x := q.info.handle;
    LeftUntold(s, h, b);
    RemovedTurns(s, h);
    RemovedTurns(u, x);
    LeaveTells(u, x);
    var v := u.Removed(x);
    var more := v.sent[|u.sent|..];
    assert v.sent == u.sent + more;
    assert !FairLeave(u, x) by { hide Turns; }
    hide Known, InTurn, FairLeave, Told, StoreState.Removed;
    if InTurn(v.sent) {
      TurnPrefix(u.sent, more);
    }
  }

  /** An active publisher that leaves is reported first of all. */
  lemma LeaveTells(s: StoreState, h: nat)
    requires s.network && h in s.publishers && s.publishers[h].topic < |s.topics| && s.publishers[h].info.handle == h
    requires s.topics[s.publishers[h].topic].Active(s.publishers[h].info)
    ensures s.sent + [Unpublish(h)] <= s.Removed(h).sent
  {
    hide TopicState.Without, TopicState.Leaving;
  }

  /** Before that its values are sent, unless the network was last told the same. */
  lemma ValueUnpublished(s: StoreState, h: nat, b: nat, value: Value, force: bool)
    requires Known(s) && s.network && TakesAlong(s, h, b) && !Told(s, Along(s, h, b).info.handle)
    ensures var q, u := Along(s, h, b), s.Removed(h);
            && q.topic < |u.topics|
            && var t := u.topics[q.topic];
            && (t.Suits(value.ty) && !t.Repeats(q.info, value, force)
                ==> u.Given(q, value, force).sent == u.sent + [SetValue(q.info.handle, t.AsHere(value))])
            && !Told(u, q.info.handle)
  {
    LeftUntold(s, h, b);
    hide Known, Told, TakesAlong, TopicState.Repeats, TopicState.AsHere, TopicState.Suits, TopicState.Without;
    assert s.Removed(h).network;
  }

  lemma OthersUntold(s: StoreState, t: TopicState, p: PublisherInfo, x: nat)
    requires x != p.handle
    requires var rest := t.Leaving(p.handle).publishers; rest != [] ==> x != rest[0].handle
    ensures Turns(s.sent + t.WithoutSends(p), x) == Turns(s.sent, x)
  {
    var m, rest := Unpublish(p.handle), t.Leaving(p.handle);
    TurnsAppend(s.sent, t.WithoutSends(p), x);
    if t.Active(p) {
      TurnsAppend([m], rest.Republishing(), x);
    }
  }

  const OVERRIDDEN := [DoAnnounce("a", "string", false), DoUnannounce("a")]

  function OnePublisher(options: Options): seq<Op> {
    [DoStartNetwork, DoGetTopic("a"), DoPublish(0, Some(Integer), "int", options)]
  }

  lemma OneIsPublished(options: Options)
    ensures AfterAll(EMPTY_STORE, OnePublisher(options))
         == EMPTY_STORE.Started().Created("a").Published(0, Some(Integer), "int", options)
  {
    var ops := OnePublisher(options);
    AfterPush(EMPTY_STORE, ops, 0);
    AfterPush(EMPTY_STORE, ops, 1);
    AfterPush(EMPTY_STORE, ops, 2);
    AfterNone(EMPTY_STORE);
    hide AfterAll, StoreState.Started, StoreState.Created, StoreState.Published;
    assert ops[..0] == [] && ops[..3] == ops;
  }

  lemma OneIsTold(options: Options)
    ensures var s := EMPTY_STORE.Started().Created("a").Published(0, Some(Integer), "int", options);
            && s.network && s.Named("a") && s.names["a"] == 0
            && s.sent == [Publish(0, TopicRef(0, "a", "int"), options)]
            && s.topics == [NewTopic(0, "a").With(PublisherInfo(0, Integer, "int", options, None))]
  {
    assert EMPTY_STORE.Started().sent == [];
  }

  /** So it is from an empty store on. */
  lemma PublishedTwice(options: Options)
    ensures var p := Publish(0, TopicRef(0, "a", "int"), options);
            && AfterAll(EMPTY_STORE, OnePublisher(options)).sent == [p]
            && AfterAll(EMPTY_STORE, OnePublisher(options) + OVERRIDDEN).sent == [p, p] && !InTurn([p, p])
  {
    hide AfterAll, After, InTurn, Turns, StoreState.Started, StoreState.Created, StoreState.Published;
    var p := Publish(0, TopicRef(0, "a", "int"), options);
    var before := OnePublisher(options);
    var ops := before + OVERRIDDEN;
    var s := AfterAll(EMPTY_STORE, before);
    OneIsPublished(options);
    OneIsTold(options);
    OneInTurn(p);
    AfterPush(EMPTY_STORE, ops, 3);
    AfterPush(EMPTY_STORE, ops, 4);
    assert ops[..3] == before && ops[..5] == ops && [p] + [p] == [p, p];
    PublishedAgain(s, "a", "string");
  }

  lemma OneInTurn(p: Message)
    requires p.Publish?
    ensures InTurn([p]) && EndsPublished(Turns([p], p.pub))
  {
    assert [] + [p] == [p];
    assert InTurn([]);
    TurnPush([], p);
    TurnsPush([], p, p.pub);
  }

  // A run to it

  /** Three publishers, of which the first has another type. */
  function ThreePublishers(options: Options): seq<Op> {
    [DoStartNetwork, DoGetTopic("a"), DoPublish(0, Some(Integer), "int", options),
     DoPublish(0, Some(String), "string", options), DoPublish(0, Some(String), "string", options)]
  }

  const TWO_LEAVE := [DoUnpublish(OfPublisher(0)), DoUnpublish(OfPublisher(2))]

  function TextInfo(handle: nat, options: Options): PublisherInfo {
    PublisherInfo(handle, String, "string", options, None)
  }

  /** Topic "a" as a number, with some publishers. */
  function Numbers(publishers: seq<PublisherInfo>): TopicState {
    NewTopic(0, "a").(ty := Some(Integer), typeStr := "int", publishers := publishers)
  }

  /** A store with just these publishers, of which only the first was published. */
  ghost predicate Holds(s: StoreState, publishers: seq<PublisherInfo>, options: Options) {
    && s.network && s.next == |publishers| && s.topics == [Numbers(publishers)]
    && s.publishers == (map h: nat | h < |publishers| :: Placed(0, publishers[h]))
    && s.sent == [Publish(0, TopicRef(0, "a", "int"), options)]
  }

  lemma OneHeld(options: Options)
    ensures var number := PublisherInfo(0, Integer, "int", options, None);
            Holds(AfterAll(EMPTY_STORE, OnePublisher(options)), [number], options)
  {
    hide AfterAll;
    OneIsPublished(options);
    OneIsTold(options);
    var p := PublisherInfo(0, Integer, "int", options, None);
    var s := EMPTY_STORE.Started().Created("a").Published(0, Some(Integer), "int", options);
    assert s.publishers == map[0 := Placed(0, p)];
    assert [] + [p] == [p];
  }

  /** A publisher of another type is listed, and no one is told. */
  lemma TextListed(s: StoreState, publishers: seq<PublisherInfo>, options: Options)
    requires Holds(s, publishers, options) && 0 < |publishers| < MAX_PUBLISHERS
    ensures Holds(After(s, DoPublish(0, Some(String), "string", options)),
                  publishers + [TextInfo(|publishers|, options)], options)
  {
    var p := TextInfo(|publishers|, options);
    assert s.sent + [] == s.sent;
    assert Numbers(publishers).With(p) == Numbers(publishers + [p]);
  }

  lemma ThreeHeld(options: Options)
    ensures var number := PublisherInfo(0, Integer, "int", options, None);
            Holds(AfterAll(EMPTY_STORE, ThreePublishers(options)),
                  [number, TextInfo(1, options), TextInfo(2, options)], options)
  {
    hide AfterAll, After, Holds;
    var ops, number := ThreePublishers(options), PublisherInfo(0, Integer, "int", options, None);
    assert ops[..3] == OnePublisher(options) && ops[..5] == ops;
    OneHeld(options);
    AfterPush(EMPTY_STORE, ops, 3);
    TextListed(AfterAll(EMPTY_STORE, ops[..3]), [number], options);
    AfterPush(EMPTY_STORE, ops, 4);
    assert [number] + [TextInfo(1, options)] == [number, TextInfo(1, options)];
    TextListed(AfterAll(EMPTY_STORE, ops[..4]), [number, TextInfo(1, options)], options);
    assert [number, TextInfo(1, options)] + [TextInfo(2, options)]
        == [number, TextInfo(1, options), TextInfo(2, options)];
  }

  lemma DroppedPush(publishers: seq<PublisherInfo>, p: PublisherInfo, h: nat)
    ensures Dropped(publishers + [p], h)
         == if p.handle == h then Dropped(publishers, h) else Dropped(publishers, h) + [p]
  {
    assert (publishers + [p])[..|publishers|] == publishers;
    assert Dropped(publishers, h) + [] == Dropped(publishers, h);
  }

  lemma DroppedFirst(p: PublisherInfo, q: PublisherInfo, r: PublisherInfo)
    requires p.handle != q.handle && p.handle != r.handle && q.handle != r.handle
    ensures Dropped([p, q, r], p.handle) == [q, r] && Dropped([q, r], r.handle) == [q]
  {
    var none: seq<PublisherInfo> := [];
    assert Dropped(none, p.handle) == none == Dropped(none, r.handle);
    hide Dropped;
    DroppedPush(none, p, p.handle);
    DroppedPush(none + [p], q, p.handle);
    DroppedPush(none + [p] + [q], r, p.handle);
    assert none + [p] + [q] + [r] == [p, q, r] && none + [q] + [r] == [q, r] && none + [q] == [q];
    DroppedPush(none, q, r.handle);
    DroppedPush(none + [q], r, r.handle);
  }

  lemma FirstLeaves(s: StoreState, options: Options)
    requires var number := PublisherInfo(0, Integer, "int", options, None);
             Holds(s, [number, TextInfo(1, options), TextInfo(2, options)], options)
    ensures var u := After(s, DoUnpublish(OfPublisher(0)));
            && u.network && u.sent == s.sent + [Unpublish(0), Publish(1, TopicRef(0, "a", "string"), options)]
            && |u.topics| == 1 && u.topics[0].ty == Some(String) && u.topics[0].typeStr == "string"
            && u.topics[0].publishers == [TextInfo(1, options), TextInfo(2, options)]
            && 2 in u.publishers && u.publishers[2] == Placed(0, TextInfo(2, options))
  {
    var p, q, r := PublisherInfo(0, Integer, "int", options, None), TextInfo(1, options), TextInfo(2, options);
    DroppedFirst(p, q, r);
    hide Dropped;
    assert Numbers([p, q, r]).Leaving(0) == Numbers([q, r]);
    assert [Unpublish(0)] + [Publish(1, TopicRef(0, "a", "string"), options)]
        == [Unpublish(0), Publish(1, TopicRef(0, "a", "string"), options)];
  }

  lemma LastLeaves(s: StoreState, options: Options)
    requires s.network && |s.topics| == 1 && s.topics[0].publishers == [TextInfo(1, options), TextInfo(2, options)]
    requires s.topics[0].ty == Some(String) && s.topics[0].typeStr == "string"
    requires 2 in s.publishers && s.publishers[2] == Placed(0, TextInfo(2, options))
    ensures After(s, DoUnpublish(OfPublisher(2))).sent == s.sent + [Unpublish(2)]
  {
    DroppedFirst(PublisherInfo(0, Integer, "int", options, None), TextInfo(1, options), TextInfo(2, options));
    hide Dropped;
    assert s.topics[0].Leaving(2).publishers == [TextInfo(1, options)];
    assert [Unpublish(2)] + [] == [Unpublish(2)];
  }

  /** From an empty store on: an unpublish of a publisher that was never published. */
  lemma UnpublishedUntold(options: Options)
    ensures var sent := [Publish(0, TopicRef(0, "a", "int"), options), Unpublish(0),
                         Publish(1, TopicRef(0, "a", "string"), options), Unpublish(2)];
            AfterAll(EMPTY_STORE, ThreePublishers(options) + TWO_LEAVE).sent == sent && !InTurn(sent)
  {
    hide AfterAll, After, InTurn;
    var before, ops := ThreePublishers(options), ThreePublishers(options) + TWO_LEAVE;
    var sent := [Publish(0, TopicRef(0, "a", "int"), options), Unpublish(0),
                 Publish(1, TopicRef(0, "a", "string"), options), Unpublish(2)];
    assert ops[..5] == before && ops[..7] == ops;
    ThreeHeld(options);
    FirstLeaves(AfterAll(EMPTY_STORE, before), options);
    AfterPush(EMPTY_STORE, ops, 5);
    LastLeaves(AfterAll(EMPTY_STORE, ops[..6]), options);
    AfterPush(EMPTY_STORE, ops, 6);
    UntoldOutOfTurn(sent[..3], 2);
    assert sent == sent[..3] + [sent[3]];
  }

  lemma UntoldOutOfTurn(sent: seq<Message>, h: nat)
    requires forall i :: 0 <= i < |sent| ==> !IsTurn(sent[i], h)
    ensures !InTurn(sent + [Unpublish(h)])
  {
    NoTurnsOf(sent, h);
    hide Turns;
    if InTurn(sent + [Unpublish(h)]) {
      TurnPrefix(sent, [Unpublish(h)]);
      TurnPush(sent, Unpublish(h));
    }
  }

  lemma {:induction false} NoTurnsOf(sent: seq<Message>, h: nat)
    requires forall i :: 0 <= i < |sent| ==> !IsTurn(sent[i], h)
    ensures Turns(sent, h) == []
  {
    if sent != [] {
      NoTurnsOf(sent[..|sent| - 1], h);
    }
  }
}
