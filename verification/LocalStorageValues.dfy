/** Which values the store tells the network, and whether the network then has what was last heard. */
module LocalStorageValues {
  import opened Wrappers
  import opened LocalStorageTypes
  import opened ClientProtocol
  import opened LocalStorageState
  import opened LocalStorageTurns

  /** The same type and data, whatever the times. */
  predicate Alike(a: Value, b: Value) {
    a.ty == b.ty && a.data == b.data
  }

  /** The network, which has `known` of a topic, has this value, if it is one. */
  predicate Has(known: Option<Value>, value: Option<Value>) {
    value.Some? ==> known.Some? && Alike(known.value, value.value)
  }

  /** A caller's handle speaks through publisher `n`: it is that publisher, or an entry that has made it. */
  predicate SpeaksThrough(s: StoreState, handle: Handle, n: nat) {
    && n in s.publishers && s.publishers[n].topic < |s.topics| && s.publishers[n].info.handle == n
    && match handle
       case OfTopic(_) => false
       case OfPublisher(h) => h == n
       case OfEntry(e) => e in s.entries && s.entries[e].publisher == Some(n)
  }

  // One value

  /** A value of the topic's type from a publisher of that type. */
  predicate Straight(t: TopicState, p: PublisherInfo, value: Value) {
    t.ty == Some(p.ty) && t.typeStr == p.typeStr && t.ty == Some(value.ty)
  }

  /** The network has no value yet, or one with other data; a remote procedure call is never the same again. */
  predicate News(t: TopicState, p: PublisherInfo, value: Value) {
    || p.options.keepDuplicates || value.ty == Rpc
    || t.lastValueNetwork.None?
    || t.lastValueNetwork.value.ty != value.ty || t.lastValueNetwork.value.data != value.data
  }

  /**
   * A value is told exactly when it is news, and then it is what the network has; it is stored
   * unless the one there is newer.
   */
  lemma ValueTold(s: StoreState, handle: Handle, n: nat, value: Value)
    requires SpeaksThrough(s, handle, n)
    requires Straight(s.topics[s.publishers[n].topic], s.publishers[n].info, value)
    ensures var i, u := s.publishers[n].topic, After(s, DoSet(handle, Some(value)));
            var t, p := s.topics[i], s.publishers[n].info;
            var told := s.network && News(t, p, value);
            && u.sent == s.sent + (if told then [SetValue(n, value)] else [])
            && |u.topics| == |s.topics|
            && u.topics[i].lastValueNetwork == (if told then Some(value) else t.lastValueNetwork)
            && u.topics[i].lastValue ==
               if t.lastValue.None? || t.lastValue.value.time == 0 || t.lastValue.value.time <= value.time
               then Some(value) else t.lastValue
  {
    assert s.sent + [] == s.sent;
  }

  /** Kinds of numbers: each takes values of the others, as its own type and with the same times. */
  predicate SameKind(a: NtType, b: NtType) {
    (a in {Integer, Float, Double} && b in {Integer, Float, Double})
    || (a in {IntegerArray, FloatArray, DoubleArray} && b in {IntegerArray, FloatArray, DoubleArray})
  }

  /** A number of another type is told as if it had been given in the topic's own type. */
  lemma ValueConverted(s: StoreState, handle: Handle, n: nat, value: Value)
    requires SpeaksThrough(s, handle, n)
    requires var t, p := s.topics[s.publishers[n].topic], s.publishers[n].info;
             t.ty == Some(p.ty) && t.typeStr == p.typeStr && p.ty != value.ty && SameKind(p.ty, value.ty)
    ensures var own := Value(s.publishers[n].info.ty, value.time, value.serverTime, value.data);
            After(s, DoSet(handle, Some(value))) == After(s, DoSet(handle, Some(own)))
  {
    var t, p := s.topics[s.publishers[n].topic], s.publishers[n].info;
    TopicConverted(t, p, value, s.network);
    hide TopicState.Published, TopicState.PublishedSends;
  }

  lemma TopicConverted(t: TopicState, p: PublisherInfo, value: Value, network: bool)
    requires t.ty == Some(p.ty) && t.typeStr == p.typeStr && p.ty != value.ty && SameKind(p.ty, value.ty)
    ensures var own := Value(p.ty, value.time, value.serverTime, value.data);
            && t.Published(p, value, false, network) == t.Published(p, own, false, network)
            && t.PublishedSends(p, value, false) == t.PublishedSends(p, own, false)
  {
  }

  /** A publisher that is not of the topic's type is not heard, nor is a value of another kind. */
  lemma ValueUnheard(s: StoreState, handle: Handle, n: nat, value: Value)
    requires SpeaksThrough(s, handle, n)
    requires var t, p := s.topics[s.publishers[n].topic], s.publishers[n].info;
             t.ty != Some(p.ty) || t.typeStr != p.typeStr || (p.ty != value.ty && !SameKind(p.ty, value.ty))
    ensures After(s, DoSet(handle, Some(value))) == s
  {
    var i := s.publishers[n].topic;
    assert s.topics[i := s.topics[i]] == s.topics && s.sent + [] == s.sent;
  }

  // What the network has

  /** The last value in some messages from a publisher of topic `i`. */
  function LastTold(ms: seq<Message>, publishers: map<nat, Placed>, i: nat): Option<Value> {
    if ms == [] then None
    else
      var m := ms[|ms| - 1];
      if m.SetValue? && m.pub in publishers && publishers[m.pub].topic == i then Some(m.value)
      else LastTold(ms[..|ms| - 1], publishers, i)
  }

  lemma ToldPush(ms: seq<Message>, m: Message, publishers: map<nat, Placed>, i: nat)
    ensures LastTold(ms + [m], publishers, i)
         == if m.SetValue? && m.pub in publishers && publishers[m.pub].topic == i then Some(m.value)
            else LastTold(ms, publishers, i)
  {
    assert (ms + [m])[..|ms|] == ms;
  }

  predicate NoValues(ms: seq<Message>) {
    forall k :: 0 <= k < |ms| ==> !ms[k].SetValue?
  }

  lemma {:induction false} NoneTold(ms: seq<Message>, publishers: map<nat, Placed>, i: nat)
    requires NoValues(ms)
    ensures LastTold(ms, publishers, i) == None
  {
    if ms != [] {
      NoneTold(ms[..|ms| - 1], publishers, i);
    }
  }

  /**
   * What a network has of topic `i` after a call, `known` being what it had before: nothing once the
   * topic is gone, else the last value it was told or has sent itself. A network that starts has only
   * what it is then told.
   */
  ghost function KnownAfter(known: Option<Value>, s: StoreState, op: Op, u: StoreState, i: nat): Option<Value>
    requires i < |s.topics| <= |u.topics| && s.sent <= u.sent
  {
    var told := LastTold(u.sent[|s.sent|..], u.publishers, i);
    if u.topics[i].resets != s.topics[i].resets then None
    else if told.Some? then told
    else if op.DoNetworkValue? && op.topic == i && (s.topics[i].ty.None? || s.topics[i].ty == Some(op.value.ty))
    then Some(op.value)
    else known
  }

  /** Nothing but publishes and unpublishes is told, and what the store takes for known only goes with a topic. */
  ghost predicate Quiet(s: StoreState, u: StoreState, i: nat) {
    && i < |s.topics| <= |u.topics| && s.sent <= u.sent && NoValues(u.sent[|s.sent|..])
    && u.topics[i].lastValueNetwork ==
       if u.topics[i].resets != s.topics[i].resets then None else s.topics[i].lastValueNetwork
  }

  lemma QuietKept(s: StoreState, op: Op, u: StoreState, i: nat, known: Option<Value>)
    requires Quiet(s, u, i) && !op.DoNetworkValue? && Has(known, s.topics[i].lastValueNetwork)
    ensures Has(KnownAfter(known, s, op, u, i), u.topics[i].lastValueNetwork)
  {
    NoneTold(u.sent[|s.sent|..], u.publishers, i);
  }

  lemma SentQuietly(s: StoreState, ms: seq<Message>)
    requires NoValues(ms)
    ensures s.sent <= s.Send(ms).sent && NoValues(s.Send(ms).sent[|s.sent|..])
  {
    assert (s.sent + ms)[|s.sent|..] == ms && s.sent[|s.sent|..] == [];
  }

  lemma QuietAdded(s: StoreState, j: nat, p: PublisherInfo, i: nat)
    requires i < |s.topics|
    ensures var u := s.Added(j, p);
            Quiet(s, u, i) && u.topics[i].resets == s.topics[i].resets && u.network == s.network
  {
    assert s.sent[|s.sent|..] == [];
    if j < |s.topics| {
      SentQuietly(s, s.topics[j].WithSends(p));
    }
  }

  lemma QuietRemoved(s: StoreState, h: nat, i: nat)
    requires i < |s.topics|
    ensures Quiet(s, s.Removed(h), i)
  {
    assert s.sent[|s.sent|..] == [];
    if h in s.publishers && s.publishers[h].topic < |s.topics| {
      SentQuietly(s, s.topics[s.publishers[h].topic].WithoutSends(s.publishers[h].info));
      hide Dropped;
    }
  }

  lemma QuietUnannounced(s: StoreState, name: string, i: nat)
    requires i < |s.topics|
    ensures Quiet(s, s.Created(name).Unannounced(name), i)
  {
    var c := s.Created(name);
    assert s.sent[|s.sent|..] == [];
    if c.Named(name) {
      SentQuietly(c, c.topics[c.names[name]].Republishing());
    }
  }

  /** A publisher that is registered where it says. */
  predicate At(s: StoreState, p: Placed) {
    p.topic < |s.topics| && p.info.handle in s.publishers && s.publishers[p.info.handle] == p
  }

  /** A value is given after a quiet part of a call. */
  lemma GivenKept(s: StoreState, op: Op, m: StoreState, p: Placed, value: Value, force: bool, i: nat,
                  known: Option<Value>)
    requires Quiet(s, m, i) && m.topics[i].resets == s.topics[i].resets && m.network && At(m, p)
    requires !op.DoNetworkValue? && Has(known, s.topics[i].lastValueNetwork)
    ensures var u := m.Given(p, value, force);
            i < |s.topics| <= |u.topics| && s.sent <= u.sent
            && Has(KnownAfter(known, s, op, u, i), u.topics[i].lastValueNetwork)
  {
    var t, u := m.topics[p.topic], m.Given(p, value, force);
    var quiet := m.sent[|s.sent|..];
    NoneTold(quiet, u.publishers, i);
    if t.Hears(p.info, value) && !t.Repeats(p.info, value, force) {
      var told := SetValue(p.info.handle, t.AsHere(value));
      assert u.sent[|s.sent|..] == quiet + [told];
      ToldPush(quiet, told, u.publishers, i);
    } else {
      assert u.sent == m.sent;
    }
    hide LastTold, TopicState.Repeats, TopicState.AsHere;
  }

  lemma QuietReady(s: StoreState, handle: Handle, ty: NtType, i: nat)
    requires i < |s.topics|
    ensures var m := s.Ready(handle, ty);
            Quiet(s, m, i) && m.topics[i].resets == s.topics[i].resets && m.network == s.network
  {
    hide EntryState.CanPublish, EntryState.Configured, StoreState.Added, Quiet;
    var n := handle.n;
    if handle.OfEntry? && n in s.entries && s.entries[n].publisher.None? && s.entries[n].CanPublish(ty) {
      CanBeTyped(s.entries[n], ty);
      var e := s.entries[n].Configured(ty);
      var c := s.(entries := s.entries[n := e]);
      var p := PublisherInfo(s.next, e.ty.value, e.typeStr, e.options, Some(n));
      QuietAdded(c, e.topic, p, i);
      QuietSame(c, c.Added(e.topic, p), s, c.WithPublisher(n), i);
    } else {
      QuietNothing(s, i);
    }
  }

  lemma QuietSame(c: StoreState, d: StoreState, s: StoreState, m: StoreState, i: nat)
    requires Quiet(c, d, i) && s.topics == c.topics && s.sent == c.sent && m.topics == d.topics && m.sent == d.sent
    ensures Quiet(s, m, i)
  {
  }

  lemma QuietNothing(s: StoreState, i: nat)
    requires i < |s.topics|
    ensures Quiet(s, s, i)
  {
    assert s.sent[|s.sent|..] == [];
  }

  lemma SetKept(s: StoreState, handle: Handle, value: Value, i: nat, known: Option<Value>)
    requires Known(s) && s.network && i < |s.topics| && Has(known, s.topics[i].lastValueNetwork)
    ensures Kept(s, DoSet(handle, Some(value)), i, known)
  {
    hide Known, StoreState.Ready, StoreState.Given, Quiet, Has, KnownAfter;
    var m := s.Ready(handle, value.ty);
    QuietReady(s, handle, value.ty, i);
    ReadyTurns(s, handle, value.ty);
    var p := m.PublisherOf(handle);
    if p.None? {
      QuietIs(s, DoSet(handle, Some(value)), m, i, known);
    } else {
      KnownPlaced(m, handle);
      if p.value.topic < |m.topics| {
        GivenKept(s, DoSet(handle, Some(value)), m, p.value, value, false, i, known);
      } else {
        GivenNowhere(m, p.value, value, false);
        QuietIs(s, DoSet(handle, Some(value)), m, i, known);
      }
    }
  }

  lemma GivenNowhere(m: StoreState, p: Placed, value: Value, force: bool)
    requires p.topic >= |m.topics|
    ensures m.Given(p, value, force) == m
  {
  }

  lemma KnownPlaced(s: StoreState, handle: Handle)
    requires Known(s) && s.PublisherOf(handle).Some?
    ensures var p := s.PublisherOf(handle).value;
            p.info.handle in s.publishers && s.publishers[p.info.handle] == p
  {
  }

  lemma QuietIs(s: StoreState, op: Op, u: StoreState, i: nat, known: Option<Value>)
    requires u == After(s, op) && Quiet(s, u, i) && !op.DoNetworkValue? && Has(known, s.topics[i].lastValueNetwork)
    ensures Kept(s, op, i, known)
  {
    hide After;
    QuietKept(s, op, u, i, known);
  }

  /** The network still has what the store takes it to have. */
  ghost predicate Kept(s: StoreState, op: Op, i: nat, known: Option<Value>) {
    var u := After(s, op);
    && i < |s.topics| <= |u.topics| && s.sent <= u.sent
    && Has(KnownAfter(known, s, op, u, i), u.topics[i].lastValueNetwork)
  }

  lemma DefaultKept(s: StoreState, handle: Handle, value: Value, i: nat, known: Option<Value>)
    requires Known(s) && s.network && i < |s.topics| && Has(known, s.topics[i].lastValueNetwork)
    ensures Kept(s, DoSetDefault(handle, Some(value)), i, known)
  {
    var op := DoSetDefault(handle, Some(value));
    assert s.sent[|s.sent|..] == [];
    if s.TopicOf(handle).Some? && s.TopicOf(handle).value < |s.topics|
       && s.topics[s.TopicOf(handle).value].TakesDefault(value) {
      var j := s.TopicOf(handle).value;
      hide Known, StoreState.Ready, StoreState.Given, Has, KnownAfter, NoValues;
      var m := s.Ready(handle, value.ty);
      QuietReady(s, handle, value.ty, i);
      ReadyTurns(s, handle, value.ty);
      var p := m.PublisherOf(handle);
      if j < |m.topics| && m.topics[j].TakesDefault(value) {
        var t := m.topics[j].Defaulted(value);
        var d := m.Put(j, t);
        assert Quiet(s, d, i);
        if p.Some? {
          KnownPlaced(m, handle);
          if p.value.topic < |d.topics| {
            GivenKept(s, op, d, p.value, t.lastValue.value, true, i, known);
          } else {
            GivenNowhere(d, p.value, t.lastValue.value, true);
            QuietIs(s, op, d, i, known);
          }
        } else {
          QuietIs(s, op, d, i, known);
        }
      } else {
        QuietIs(s, op, m, i, known);
      }
    } else {
      QuietIs(s, op, s, i, known);
    }
  }

  // Whole calls

  /** The calls after which the network is another one, or gone. */
  predicate Switches(op: Op) {
    op.DoStartNetwork? || op.DoClearNetwork?
  }

  lemma QuietLetGo(s: StoreState, n: nat, i: nat)
    requires i < |s.topics|
    ensures Quiet(s, s.LetGo(n), i)
  {
    assert s.sent[|s.sent|..] == [];
    if n in s.entries && s.entries[n].publisher.Some? {
      hide StoreState.Removed, NoValues;
      QuietRemoved(s, s.entries[n].publisher.value, i);
    }
  }

  lemma QuietCalls(s: StoreState, op: Op, i: nat)
    requires i < |s.topics| && !Switches(op) && !op.DoNetworkValue? && !op.DoSet? && !op.DoSetDefault?
    ensures Quiet(s, After(s, op), i)
  {
    hide StoreState.Added, StoreState.Removed, StoreState.LetGo, StoreState.Unannounced;
    assert s.sent[|s.sent|..] == [];
    match op
    case DoUnannounce(name) => QuietUnannounced(s, name, i);
    case DoPublish(topic, ty, typeStr, options) =>
      if s.CanPublish(topic, ty, typeStr) {
        QuietAdded(s, topic, PublisherInfo(s.next, ty.value, typeStr, options, None), i);
      }
    case DoUnpublish(handle) =>
      QuietRemoved(s, handle.n, i);
      QuietLetGo(s, handle.n, i);
    case DoReleaseEntry(entry) => QuietLetGo(s, entry, i);
    case _ =>
  }

  lemma NetworkValueKept(s: StoreState, topic: nat, value: Value, i: nat, known: Option<Value>)
    requires i < |s.topics| && Has(known, s.topics[i].lastValueNetwork)
    ensures Kept(s, DoNetworkValue(topic, value), i, known)
  {
    var u := s.NetworkValue(topic, value);
    assert u.sent[|s.sent|..] == [];
    NoneTold([], u.publishers, i);
    hide LastTold;
  }

  /** Whatever is called, the network still has what the store takes it to have. */
  lemma CallKept(s: StoreState, op: Op, i: nat, known: Option<Value>)
    requires Known(s) && s.network && i < |s.topics| && !Switches(op)
    requires Has(known, s.topics[i].lastValueNetwork)
    ensures Kept(s, op, i, known)
  {
    hide After, Quiet, KnownAfter, Has, Kept, Known;
    match op
    case DoNetworkValue(topic, value) => NetworkValueKept(s, topic, value, i, known);
    case DoSet(handle, input) =>
      if input.Some? {
        SetKept(s, handle, input.value, i, known);
      } else {
        NothingSet(s, op, i, known);
      }
    case DoSetDefault(handle, input) =>
      if input.Some? {
        DefaultKept(s, handle, input.value, i, known);
      } else {
        NothingSet(s, op, i, known);
      }
    case _ =>
      QuietCalls(s, op, i);
      QuietIs(s, op, After(s, op), i, known);
  }

  lemma NothingSet(s: StoreState, op: Op, i: nat, known: Option<Value>)
    requires (op.DoSet? || op.DoSetDefault?) && op.input.None?
    requires i < |s.topics| && Has(known, s.topics[i].lastValueNetwork)
    ensures Kept(s, op, i, known)
  {
    assert s.sent[|s.sent|..] == [];
    QuietIs(s, op, s, i, known);
  }

  // Runs

  lemma CallGrows(s: StoreState, op: Op)
    requires !Switches(op)
    ensures |s.topics| <= |After(s, op).topics| && After(s, op).network == s.network
  {
    hide StoreState.Ready, StoreState.Given, StoreState.Default, TopicState.With, TopicState.WithSends;
    hide TopicState.Without, TopicState.WithoutSends, TopicState.Unannounced, TopicState.Republishing;
    hide TopicState.FromNetwork, TopicState.Announced, TopicState.TakesDefault, DroppedSub;
    match op
    case DoSet(handle, input) =>
      if input.Some? {
        ReadyTopics(s, handle, input.value.ty);
        GivenTopics(s.Ready(handle, input.value.ty), handle, input.value, false);
      }
    case DoSetDefault(handle, input) =>
      if input.Some? {
        ReadyTopics(s, handle, input.value.ty);
        DefaultTopics(s.Ready(handle, input.value.ty), handle, input.value);
      }
    case _ =>
  }

  lemma ReadyTopics(s: StoreState, handle: Handle, ty: NtType)
    ensures |s.Ready(handle, ty).topics| == |s.topics| && s.Ready(handle, ty).network == s.network
  {
  }

  lemma GivenTopics(s: StoreState, handle: Handle, value: Value, force: bool)
    ensures s.PublisherOf(handle).Some?
            ==> var u := s.Given(s.PublisherOf(handle).value, value, force);
                |u.topics| == |s.topics| && u.network == s.network
  {
  }

  lemma DefaultTopics(s: StoreState, handle: Handle, value: Value)
    ensures forall j :: var u := s.Default(j, s.PublisherOf(handle), value);
                        |u.topics| == |s.topics| && u.network == s.network
  {
  }

  predicate Stays(ops: seq<Op>) {
    forall op :: op in ops ==> !Switches(op)
  }

  lemma {:induction false} RunGrows(s: StoreState, ops: seq<Op>)
    requires Stays(ops)
    ensures |s.topics| <= |AfterAll(s, ops).topics| && AfterAll(s, ops).network == s.network
  {
    hide After;
    if ops != [] {
      var n := |ops| - 1;
      RunGrows(s, ops[..n]);
      CallGrows(AfterAll(s, ops[..n]), ops[n]);
    }
  }

  lemma LastCall(s: StoreState, ops: seq<Op>)
    requires Stays(ops) && ops != []
    ensures var n := |ops| - 1;
            var before := AfterAll(s, ops[..n]);
            && AfterAll(s, ops) == After(before, ops[n]) && Stays(ops[..n]) && !Switches(ops[n])
            && |s.topics| <= |before.topics| <= |AfterAll(s, ops).topics| && before.sent <= AfterAll(s, ops).sent
            && before.network == s.network
  {
    hide After;
    var n := |ops| - 1;
    RunGrows(s, ops[..n]);
    CallGrows(AfterAll(s, ops[..n]), ops[n]);
    SentGrows(AfterAll(s, ops[..n]), ops[n]);
  }

  /** What the network has of topic `i` after a run in which it stays. */
  ghost function KnownOver(known: Option<Value>, s: StoreState, ops: seq<Op>, i: nat): Option<Value>
    requires i < |s.topics| && Stays(ops)
  {
    if ops == [] then known
    else
      var n := |ops| - 1;
      LastCall(s, ops);
      KnownAfter(KnownOver(known, s, ops[..n], i), AfterAll(s, ops[..n]), ops[n], AfterAll(s, ops), i)
  }

  /** Over any run the network has what the store takes it to have, if it did at the start. */
  lemma {:induction false} RunKept(known: Option<Value>, s: StoreState, ops: seq<Op>, i: nat)
    requires Known(s) && s.network && i < |s.topics| && Stays(ops) && Has(known, s.topics[i].lastValueNetwork)
    ensures i < |AfterAll(s, ops).topics| && Known(AfterAll(s, ops))
    ensures Has(KnownOver(known, s, ops, i), AfterAll(s, ops).topics[i].lastValueNetwork)
  {
    hide After, Known, Has, KnownAfter;
    if ops != [] {
      var n := |ops| - 1;
      LastCall(s, ops);
      RunKept(known, s, ops[..n], i);
      var before := AfterAll(s, ops[..n]);
      CallKept(before, ops[n], i, KnownOver(known, s, ops[..n], i));
      StaysKnown(before, ops[n]);
    }
  }

  // The start of a network

  /** Some listed publisher has the topic's type. */
  predicate AnyActive(t: TopicState) {
    exists k :: 0 <= k < |t.publishers| && t.ty == Some(t.publishers[k].ty) && t.typeStr == t.publishers[k].typeStr
  }

  /** What a starting network is told of a topic: its last value, if there is a publisher to tell it. */
  function ToldAtStart(t: TopicState): Option<Value> {
    if AnyActive(t) then t.lastValue else None
  }

  lemma {:induction false} ToldAppend(a: seq<Message>, b: seq<Message>, publishers: map<nat, Placed>, i: nat)
    ensures LastTold(a + b, publishers, i)
         == if LastTold(b, publishers, i).Some? then LastTold(b, publishers, i) else LastTold(a, publishers, i)
    decreases |b|
  {
    if b == [] {
      assert a + b == a;
    } else {
      var n := |b| - 1;
      ToldAppend(a, b[..n], publishers, i);
      ToldPush(a + b[..n], b[n], publishers, i);
      ToldPush(b[..n], b[n], publishers, i);
      assert a + b == a + b[..n] + [b[n]] && b == b[..n] + [b[n]];
    }
  }

  lemma {:induction false} OnlyPublishes(t: TopicState, n: nat)
    requires n <= |t.publishers|
    ensures NoValues(t.StartPublishes(n))
    ensures t.LastActive(n).Some? <==> exists k :: 0 <= k < n && t.Active(t.publishers[k])
    ensures t.LastActive(n).Some? ==> t.LastActive(n).value in t.publishers
  {
    if n > 0 {
      OnlyPublishes(t, n - 1);
    }
  }

  lemma TopicStart(s: StoreState, j: nat, i: nat)
    requires Known(s) && i < |s.topics| && j < |s.topics|
    ensures LastTold(s.topics[j].StartSends(), s.publishers, i) == if j == i then ToldAtStart(s.topics[i]) else None
  {
    var t := s.topics[j];
    var quiet, any := t.StartPublishes(|t.publishers|), t.LastActive(|t.publishers|);
    OnlyPublishes(t, |t.publishers|);
    NoneTold(quiet, s.publishers, i);
    assert AnyActive(t) <==> any.Some?;
    if any.Some? && t.lastValue.Some? {
      var a :| 0 <= a < |t.publishers| && t.publishers[a] == any.value;
      assert PlacedAt(s.topics, s.publishers, j, a);
      ToldPush(quiet, SetValue(any.value.handle, t.lastValue.value), s.publishers, i);
    } else {
      assert quiet + [] == quiet;
    }
  }

  lemma {:induction false} TopicsStart(s: StoreState, n: nat, i: nat)
    requires Known(s) && i < |s.topics| && n <= |s.topics|
    ensures LastTold(StartSends(s.topics, n), s.publishers, i) == if i < n then ToldAtStart(s.topics[i]) else None
  {
    hide Known, ToldAtStart, TopicState.StartSends;
    if n > 0 {
      TopicsStart(s, n - 1, i);
      TopicStart(s, n - 1, i);
      ToldAppend(StartSends(s.topics, n - 1), s.topics[n - 1].StartSends(), s.publishers, i);
    }
  }

  /** A network that starts has the last value of every topic with a publisher of its type, and no other. */
  lemma StartTells(s: StoreState, i: nat)
    requires Known(s) && i < |s.topics|
    ensures var u := After(s, DoStartNetwork);
            && u.network && u.topics == s.topics && u.publishers == s.publishers
            && LastTold(u.sent, u.publishers, i) == ToldAtStart(s.topics[i])
  {
    TopicsStart(s, |s.topics|, i);
  }

  /** The store takes the network to have a value that it is not told at its start. */
  predicate Stale(t: TopicState) {
    t.lastValueNetwork.Some? && !Has(ToldAtStart(t), t.lastValueNetwork)
  }

  /**
   * From a start on: if the topic was not stale, then after any run of calls while this network stays, and one
   * more value that is heard, the network has that value's type and data.
   */
  lemma HeardIsKnown(b: StoreState, ops: seq<Op>, i: nat, handle: Handle, n: nat, value: Value)
    requires Known(b) && i < |b.topics| && !Stale(b.topics[i]) && Stays(ops)
    requires var s := AfterAll(After(b, DoStartNetwork), ops);
             && SpeaksThrough(s, handle, n) && s.publishers[n].topic == i
             && Straight(s.topics[i], s.publishers[n].info, value)
    ensures |b.topics| == |After(b, DoStartNetwork).topics|
    ensures var known := KnownOver(ToldAtStart(b.topics[i]), After(b, DoStartNetwork), ops, i);
            var s := AfterAll(After(b, DoStartNetwork), ops);
            var u := After(s, DoSet(handle, Some(value)));
            i < |s.topics| <= |u.topics| && s.sent <= u.sent
            && Has(KnownAfter(known, s, DoSet(handle, Some(value)), u, i), Some(value))
  {
    var first := After(b, DoStartNetwork);
    StartTells(b, i);
    StaysKnown(b, DoStartNetwork);
    var known := ToldAtStart(b.topics[i]);
    hide After, Known, ToldAtStart;
    RunKept(known, first, ops, i);
    RunGrows(first, ops);
    OneHeard(AfterAll(first, ops), handle, n, value, KnownOver(known, first, ops, i));
  }

  /** After a value is heard, the network has it iff it is news to the store or the network had it already. */
  lemma OneHeard(s: StoreState, handle: Handle, n: nat, value: Value, known: Option<Value>)
    requires s.network && SpeaksThrough(s, handle, n)
    requires Straight(s.topics[s.publishers[n].topic], s.publishers[n].info, value)
    ensures var op, i := DoSet(handle, Some(value)), s.publishers[n].topic;
            var u := After(s, op);
            && |s.topics| <= |u.topics| && s.sent <= u.sent
            && (Has(KnownAfter(known, s, op, u, i), Some(value))
                <==> News(s.topics[i], s.publishers[n].info, value) || Has(known, Some(value)))
  {
    var op, i := DoSet(handle, Some(value)), s.publishers[n].topic;
    var u := After(s, op);
    ValueTold(s, handle, n, value);
    SetKeeps(s, handle, n, value);
    hide After, News, Straight;
    var more := u.sent[|s.sent|..];
    if u.sent == s.sent {
      assert more == [];
    } else {
      assert more == [SetValue(n, value)];
      ToldPush([], SetValue(n, value), u.publishers, i);
      assert [] + [SetValue(n, value)] == more;
    }
  }

  lemma SetKeeps(s: StoreState, handle: Handle, n: nat, value: Value)
    requires SpeaksThrough(s, handle, n)
    ensures var i, u := s.publishers[n].topic, After(s, DoSet(handle, Some(value)));
            u.publishers == s.publishers && |u.topics| == |s.topics| && u.topics[i].resets == s.topics[i].resets
  {
  }

  /** Of a stale topic the network never gets to have the value it is taken to have, when that is heard next. */
  lemma StaleShows(b: StoreState, i: nat, n: nat, value: Value)
    requires Known(b) && i < |b.topics| && Stale(b.topics[i]) && n in b.publishers && b.publishers[n].topic == i
    requires var p := b.publishers[n].info;
             !p.options.keepDuplicates && Straight(b.topics[i], p, value) && value.ty != Rpc
    requires Alike(value, b.topics[i].lastValueNetwork.value)
    ensures var s, op := After(b, DoStartNetwork), DoSet(OfPublisher(n), Some(value));
            && |b.topics| == |s.topics| <= |After(s, op).topics| && s.sent <= After(s, op).sent
            && !Has(KnownAfter(ToldAtStart(b.topics[i]), s, op, After(s, op), i), Some(value))
  {
    var s := After(b, DoStartNetwork);
    StartTells(b, i);
    hide After, ToldAtStart;
    OneHeard(s, OfPublisher(n), n, value, ToldAtStart(b.topics[i]));
  }

  // A run to it

  function Info(options: Options): PublisherInfo {
    PublisherInfo(0, Double, "double", options, None)
  }

  function Number(data: string, time: int): Value {
    Value(Double, time, 0, data)
  }

  /** One topic "a" with one publisher, and its values. */
  predicate One(s: StoreState, options: Options, last: Option<Value>, known: Option<Value>) {
    && |s.topics| == 1 && 0 in s.publishers && s.publishers[0] == Placed(0, Info(options))
    && var t := s.topics[0];
    && t.handle == 0 && t.name == "a" && t.ty == Some(Double) && t.typeStr == "double" && !t.onNetwork
    && t.publishers == [Info(options)] && t.lastValue == last && t.lastValueNetwork == known
  }

  lemma OneMade(options: Options)
    ensures var made := After(After(EMPTY_STORE, DoGetTopic("a")), DoPublish(0, Some(Double), "double", options));
            One(made, options, None, None)
  {
    assert [] + [Info(options)] == [Info(options)];
  }

  lemma OneStarts(s: StoreState, options: Options, last: Option<Value>, known: Option<Value>)
    requires One(s, options, last, known)
    ensures var u, first := After(s, DoStartNetwork), Publish(0, TopicRef(0, "a", "double"), options);
            && One(u, options, last, known) && u.network
            && u.sent == if last.Some? then [first, SetValue(0, last.value)] else [first]
  {
    var t := s.topics[0];
    assert t.StartPublishes(1) == t.StartPublishes(0) + [t.Publishing(Info(options))];
    assert StartSends(s.topics, 1) == StartSends(s.topics, 0) + t.StartSends();
  }

  lemma OneCleared(s: StoreState, options: Options, last: Option<Value>, known: Option<Value>)
    requires One(s, options, last, known)
    ensures One(After(s, DoClearNetwork), options, last, known) && !After(s, DoClearNetwork).network
  {
  }

  lemma OneSet(s: StoreState, options: Options, last: Option<Value>, known: Option<Value>, v: Value)
    requires One(s, options, last, known) && v.ty == Double && (last.Some? ==> last.value.time <= v.time)
    requires !options.keepDuplicates
    ensures var u := After(s, DoSet(OfPublisher(0), Some(v)));
            var told := s.network && !(known.Some? && Alike(known.value, v));
            && One(u, options, Some(v), if told then Some(v) else known) && u.network == s.network
            && u.sent == s.sent + if told then [SetValue(0, v)] else []
  {
    ValueTold(s, OfPublisher(0), 0, v);
  }

  /** Values are set with a network, then without one, then with another. */
  function TwoNetworks(options: Options): seq<Op> {
    [DoGetTopic("a"), DoPublish(0, Some(Double), "double", options), DoStartNetwork,
     DoSet(OfPublisher(0), Some(Number("1.0", 1))), DoClearNetwork, DoSet(OfPublisher(0), Some(Number("2.0", 2))),
     DoStartNetwork, DoSet(OfPublisher(0), Some(Number("1.0", 3)))]
  }

  lemma TwoNetworksAre(options: Options)
    ensures var ops := TwoNetworks(options);
            && |ops| == 8 && ops[0] == DoGetTopic("a") && ops[1] == DoPublish(0, Some(Double), "double", options)
            && ops[2] == DoStartNetwork && ops[3] == DoSet(OfPublisher(0), Some(Number("1.0", 1)))
            && ops[4] == DoClearNetwork && ops[5] == DoSet(OfPublisher(0), Some(Number("2.0", 2)))
            && ops[6] == DoStartNetwork && ops[7] == DoSet(OfPublisher(0), Some(Number("1.0", 3)))
  {
  }

  /** Up to where the first network goes: it has 1.0, and the store takes it to have that. */
  lemma FirstNetwork(options: Options, ops: seq<Op>)
    requires !options.keepDuplicates && ops == TwoNetworks(options)
    ensures var s := AfterAll(EMPTY_STORE, ops[..5]);
            !s.network && One(s, options, Some(Number("1.0", 1)), Some(Number("1.0", 1)))
  {
    hide After, AfterAll, One, TwoNetworks;
    var a := Number("1.0", 1);
    TwoNetworksAre(options);
    AfterNone(EMPTY_STORE);
    assert ops[..0] == [];
    OneMade(options);
    AfterPush(EMPTY_STORE, ops, 0);
    AfterPush(EMPTY_STORE, ops, 1);
    AfterPush(EMPTY_STORE, ops, 2);
    OneStarts(AfterAll(EMPTY_STORE, ops[..2]), options, None, None);
    AfterPush(EMPTY_STORE, ops, 3);
    OneSet(AfterAll(EMPTY_STORE, ops[..3]), options, None, None, a);
    AfterPush(EMPTY_STORE, ops, 4);
    OneCleared(AfterAll(EMPTY_STORE, ops[..4]), options, Some(a), Some(a));
  }

  /** The second network is told 2.0 and never 1.0, which is the topic's value. */
  lemma StaleRun(options: Options)
    requires !options.keepDuplicates
    ensures var s := AfterAll(EMPTY_STORE, TwoNetworks(options));
            && s.network && |s.topics| == 1 && s.topics[0].lastValue == Some(Number("1.0", 3))
            && s.sent == [Publish(0, TopicRef(0, "a", "double"), options), SetValue(0, Number("2.0", 2))]
  {
    hide After, AfterAll, One, TwoNetworks;
    var ops := TwoNetworks(options);
    var a, b, c := Number("1.0", 1), Number("2.0", 2), Number("1.0", 3);
    TwoNetworksAre(options);
    assert ops[..8] == ops;
    FirstNetwork(options, ops);
    AfterPush(EMPTY_STORE, ops, 5);
    OneSet(AfterAll(EMPTY_STORE, ops[..5]), options, Some(a), Some(a), b);
    AfterPush(EMPTY_STORE, ops, 6);
    OneStarts(AfterAll(EMPTY_STORE, ops[..6]), options, Some(b), Some(a));
    AfterPush(EMPTY_STORE, ops, 7);
    OneSet(AfterAll(EMPTY_STORE, ops[..7]), options, Some(b), Some(a), c);
    OneHas(AfterAll(EMPTY_STORE, ops[..8]), options, Some(c), Some(a));
  }

  lemma OneHas(s: StoreState, options: Options, last: Option<Value>, known: Option<Value>)
    requires One(s, options, last, known)
    ensures |s.topics| == 1 && s.topics[0].lastValue == last
  {
  }
}
