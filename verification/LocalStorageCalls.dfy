/** What each call on the store does, said of its topics, its publishers and what it tells the network. */
module LocalStorageCalls {
  import opened Wrappers
  import opened LocalStorageTypes
  import opened ClientProtocol
  import opened LocalStorageState
  import opened LocalStorageTurns

  /** Only topic `i` changes among the topics, and nothing else but what is told. */
  predicate OnlyTopic(s: StoreState, u: StoreState, i: nat) {
    && |u.topics| == |s.topics| && (forall j :: 0 <= j < |s.topics| && j != i ==> u.topics[j] == s.topics[j])
    && u == s.(topics := u.topics, sent := u.sent, publishers := u.publishers, next := u.next)
  }

  /** A topic keeps its name, its values and the publishers listed with it. */
  predicate SameValues(t: TopicState, t': TopicState) {
    && t'.handle == t.handle && t'.name == t.name && t'.lastValue == t.lastValue
    && t'.lastValueNetwork == t.lastValueNetwork && t'.accepted == t.accepted && t'.resets == t.resets
  }

  predicate HasType(t: TopicState, ty: NtType, typeStr: string) {
    t.ty == Some(ty) && t.typeStr == typeStr
  }

  /** Without type and values, as if it had never been published. */
  predicate Blank(t: TopicState) {
    t.ty == None && t.typeStr == "" && t.lastValue == None && t.lastValueNetwork == None && t.accepted == []
  }

  /** The message that publishes `p` with topic `t` as a topic of its type. */
  function Publication(t: TopicState, p: PublisherInfo): Message {
    Publish(p.handle, TopicRef(t.handle, t.name, p.typeStr), p.options)
  }

  // The network

  /** An announcement gives the topic the network's type, whatever its publishers' types, and tells nothing. */
  lemma Announcing(s: StoreState, name: string, typeStr: string)
    requires name in s.names && s.names[name] < |s.topics|
    ensures var i, u := s.names[name], After(s, DoAnnounce(name, typeStr, false));
            && OnlyTopic(s, u, i) && u.sent == s.sent && u.publishers == s.publishers
            && SameValues(s.topics[i], u.topics[i]) && u.topics[i].publishers == s.topics[i].publishers
            && HasType(u.topics[i], StringToType(typeStr), typeStr) && u.topics[i].onNetwork
    ensures After(s, DoAnnounce(name, typeStr, true)) == s
  {
  }

  /**
   * When the network's publishers go, the first local one gives the topic its type, and is published if
   * that is another; without local publishers the topic is blank again.
   */
  lemma Unannouncing(s: StoreState, name: string)
    requires name in s.names && s.names[name] < |s.topics|
    ensures var i, u := s.names[name], After(s, DoUnannounce(name));
            var t, t' := s.topics[i], u.topics[i];
            && OnlyTopic(s, u, i) && u.publishers == s.publishers
            && !t'.onNetwork && t'.publishers == t.publishers
            && (if t.publishers != [] then
                  && SameValues(t, t') && HasType(t', t.publishers[0].ty, t.publishers[0].typeStr)
                  && u.sent == s.sent + if s.network && !HasType(t, t.publishers[0].ty, t.publishers[0].typeStr)
                                        then [Publication(t, t.publishers[0])] else []
                else u.sent == s.sent && (t.onNetwork ==> Blank(t')))
  {
    assert s.sent + [] == s.sent;
  }

  /** A network that goes takes all its publishers along, and is told nothing. */
  lemma Clearing(s: StoreState, i: nat)
    requires i < |s.topics|
    ensures var u := After(s, DoClearNetwork);
            && !u.network && u.sent == s.sent && u.publishers == s.publishers && |u.topics| == |s.topics|
            && var t, t' := s.topics[i], u.topics[i];
            && !t'.onNetwork && t'.publishers == t.publishers
            && (if t.publishers != [] then SameValues(t, t') && HasType(t', t.publishers[0].ty, t.publishers[0].typeStr)
                else t.onNetwork ==> Blank(t'))
  {
  }

  /** A value from the network counts iff it is of the topic's type, and is stored unless the one there is newer. */
  lemma NetworkGives(s: StoreState, i: nat, value: Value)
    requires i < |s.topics|
    ensures var t, u := s.topics[i], After(s, DoNetworkValue(i, value));
            if t.ty.Some? && t.ty != Some(value.ty) then u == s
            else
              && OnlyTopic(s, u, i) && u.sent == s.sent && u.publishers == s.publishers
              && u.topics[i] == t.(ty := Some(value.ty), lastValueNetwork := Some(value),
                                   accepted := t.accepted + [value], lastValue := u.topics[i].lastValue)
              && u.topics[i].lastValue ==
                 if t.lastValue.None? || t.lastValue.value.time == 0 || t.lastValue.value.time <= value.time
                 then Some(value) else t.lastValue
  {
    assert s.topics[i := s.topics[i]] == s.topics;
  }

  /**
   * A starting network is told of the publishers of each topic's type, in order, and then the topic's
   * last value by the last of them.
   */
  lemma {:induction false} StartingTopic(t: TopicState, n: nat, k: nat)
    requires k < n <= |t.publishers| && HasType(t, t.publishers[k].ty, t.publishers[k].typeStr)
    requires forall j :: k < j < n ==> !HasType(t, t.publishers[j].ty, t.publishers[j].typeStr)
    ensures t.LastActive(n) == Some(t.publishers[k])
    ensures t.StartPublishes(n) == t.StartPublishes(k) + [Publication(t, t.publishers[k])]
    ensures n == |t.publishers| && t.lastValue.Some?
            ==> t.StartSends() == t.StartPublishes(n) + [SetValue(t.publishers[k].handle, t.lastValue.value)]
  {
    if k < n - 1 {
      StartingTopic(t, n - 1, k);
      assert t.StartPublishes(n - 1) + [] == t.StartPublishes(n - 1);
    }
  }

  // Publishers

  /**
   * The first publisher of a topic that does not exist gives it its type; a publisher is published iff
   * its type is the topic's. Without a type, for no topic or for a full one there is no publisher.
   */
  lemma Publishing(s: StoreState, i: nat, ty: Option<NtType>, typeStr: string, options: Options)
    ensures var u := After(s, DoPublish(i, ty, typeStr, options));
            if i >= |s.topics| || ty.None? || typeStr == "" || |s.topics[i].publishers| >= 512 then u == s
            else
              var t, p := s.topics[i], PublisherInfo(s.next, ty.value, typeStr, options, None);
              && OnlyTopic(s, u, i) && SameValues(t, u.topics[i]) && u.topics[i].onNetwork == t.onNetwork
              && u.topics[i].publishers == t.publishers + [p]
              && u.publishers == s.publishers[s.next := Placed(i, p)] && u.next == s.next + 1
              && (if !t.onNetwork && t.publishers == [] then HasType(u.topics[i], p.ty, p.typeStr)
                  else u.topics[i].ty == t.ty && u.topics[i].typeStr == t.typeStr)
              && u.sent == s.sent
                           + if s.network && HasType(u.topics[i], p.ty, p.typeStr) then [Publication(t, p)] else []
  {
    assert s.sent + [] == s.sent;
  }

  /**
   * A publisher that leaves is unpublished iff it was of the topic's type; then the first of the others
   * gives the topic its type, and is published if that is another. The last one leaves a topic that is
   * not on the network blank.
   */
  lemma Leaving(s: StoreState, n: nat, k: nat)
    requires Known(s) && n in s.publishers && s.publishers[n].info.owner.None? && s.publishers[n].topic < |s.topics|
    requires var t := s.topics[s.publishers[n].topic]; k < |t.publishers| && t.publishers[k] == s.publishers[n].info
    ensures var i, u := s.publishers[n].topic, After(s, DoUnpublish(OfPublisher(n)));
            var t, t', p := s.topics[i], u.topics[i], s.publishers[n].info;
            var rest := t.publishers[..k] + t.publishers[k + 1..];
            && OnlyTopic(s, u, i) && u.publishers == s.publishers - {n}
            && t'.publishers == rest && t'.onNetwork == t.onNetwork
            && (rest == [] && !t.onNetwork ==> Blank(t'))
            && (rest != [] || t.onNetwork ==> SameValues(t, t'))
            && (if !HasType(t, p.ty, p.typeStr) then u.sent == s.sent
                else u.sent == s.sent
                               + if !s.network then []
                                 else if rest == [] || HasType(t, rest[0].ty, rest[0].typeStr) then [Unpublish(n)]
                                 else [Unpublish(n), Publication(t, rest[0])])
            && (rest != [] ==>
                  if HasType(t, p.ty, p.typeStr) then HasType(t', rest[0].ty, rest[0].typeStr)
                  else t'.ty == t.ty && t'.typeStr == t.typeStr)
  {
    var t, p := s.topics[s.publishers[n].topic], s.publishers[n].info;
    TopicLeft(t, p, k);
    hide TopicState.Without, TopicState.WithoutSends;
    assert s.sent + [] == s.sent;
  }

  lemma TopicLeft(t: TopicState, p: PublisherInfo, k: nat)
    requires k < |t.publishers| && t.publishers[k] == p && Apart(t.publishers)
    ensures var rest, t' := t.publishers[..k] + t.publishers[k + 1..], t.Without(p);
            && t'.publishers == rest && t'.onNetwork == t.onNetwork
            && (rest == [] && !t.onNetwork ==> Blank(t'))
            && (rest != [] || t.onNetwork ==> SameValues(t, t'))
            && (rest != [] ==>
                  if HasType(t, p.ty, p.typeStr) then HasType(t', rest[0].ty, rest[0].typeStr)
                  else t'.ty == t.ty && t'.typeStr == t.typeStr)
            && t.WithoutSends(p) == if !HasType(t, p.ty, p.typeStr) then []
                                    else if rest == [] || HasType(t, rest[0].ty, rest[0].typeStr)
                                    then [Unpublish(p.handle)]
                                    else [Unpublish(p.handle), Publication(t, rest[0])]
  {
    DroppedAt(t.publishers, k);
    hide Dropped;
  }

  lemma {:induction false} DroppedAt(publishers: seq<PublisherInfo>, k: nat)
    requires k < |publishers| && Apart(publishers)
    ensures Dropped(publishers, publishers[k].handle) == publishers[..k] + publishers[k + 1..]
  {
    var n := |publishers| - 1;
    var init, last := publishers[..n], publishers[n];
    if k < n {
      DroppedAt(init, k);
      assert init[k] == publishers[k] && init[..k] == publishers[..k];
      assert init[k + 1..] + [last] == publishers[k + 1..];
    } else {
      NoneDropped(init, last.handle);
    }
  }

  lemma {:induction false} NoneDropped(publishers: seq<PublisherInfo>, h: nat)
    requires forall i :: 0 <= i < |publishers| ==> publishers[i].handle != h
    ensures Dropped(publishers, h) == publishers
  {
    if publishers != [] {
      NoneDropped(publishers[..|publishers| - 1], h);
    }
  }

  // Topics, entries and multi-subscribers

  /** A topic is made once per name, without type, publishers or values. */
  lemma GettingTopic(s: StoreState, name: string)
    ensures var u := After(s, DoGetTopic(name));
            if name in s.names then u == s
            else
              && |u.topics| == |s.topics| + 1 && u.topics[..|s.topics|] == s.topics
              && u.names == s.names[name := |s.topics|] && u == s.(topics := u.topics, names := u.names)
              && var t := u.topics[|s.topics|];
                 t.name == name && t.handle == |s.topics| && Blank(t) && t.publishers == [] && !t.onNetwork
  {
  }

  /** An entry has no publisher to begin with. */
  lemma GettingEntry(s: StoreState, i: nat, ty: Option<NtType>, typeStr: string, options: Options)
    ensures var u := After(s, DoGetEntry(i, ty, typeStr, options));
            if i >= |s.topics| then u == s
            else
              && u == s.(entries := u.entries, next := s.next + 1)
              && u.entries == s.entries[s.next := EntryState(i, ty, typeStr, options, None)]
  {
  }

  /** Up to 512 multi-subscribers. */
  lemma Subscribing(s: StoreState, prefixes: seq<string>)
    ensures After(s, DoSubscribe(prefixes))
         == if |s.subs| >= 512 then s else s.(subs := s.subs + [SubInfo(s.next, prefixes)], next := s.next + 1)
  {
  }

  // Defaults

  /** The value a topic without one takes as its default: at time zero, and as a number of the topic's type. */
  predicate TakesAs(t: TopicState, value: Value, v: Value) {
    && t.lastValue == None && v.time == 0 && v.serverTime == 0 && v.data == value.data
    && (t.ty.None? || t.ty == Some(value.ty) || (IsNumericCompatible(t.ty.value, value.ty)))
    && v.ty == if t.ty.Some? then t.ty.value else value.ty
  }

  /** A default is ignored by a topic with a value and stored by one without; a topic's own handle tells nothing. */
  lemma Defaulting(s: StoreState, i: nat, value: Value)
    requires i < |s.topics|
    ensures var t, u := s.topics[i], After(s, DoSetDefault(OfTopic(i), Some(value)));
            && (t.lastValue.Some? ==> u == s)
            && forall v :: TakesAs(t, value, v)
                           ==> && OnlyTopic(s, u, i) && u.sent == s.sent && u.publishers == s.publishers
                               && u.topics[i] == t.(ty := Some(v.ty), lastValue := Some(v), accepted := [v])
  {
  }

  /** Through a publisher of the topic's type the default is told, even if the network has the same. */
  lemma DefaultTold(s: StoreState, n: nat, value: Value, v: Value)
    requires n in s.publishers && s.publishers[n].info.handle == n && s.publishers[n].topic < |s.topics|
    requires var t, p := s.topics[s.publishers[n].topic], s.publishers[n].info;
             HasType(t, p.ty, p.typeStr) && TakesAs(t, value, v)
    ensures var i, u := s.publishers[n].topic, After(s, DoSetDefault(OfPublisher(n), Some(value)));
            && OnlyTopic(s, u, i) && u.topics[i].lastValue == Some(v)
            && u.sent == s.sent + if s.network then [SetValue(n, v)] else []
  {
    assert s.sent + [] == s.sent;
  }

  // Values through entries

  /** The type and the type's name an entry publishes as: its own, or the value's if it has none. */
  function EntryType(e: EntryState, value: Value): NtType {
    if e.ty.Some? then e.ty.value else value.ty
  }

  function EntryTypeStr(e: EntryState, value: Value): string {
    if e.ty.Some? then e.typeStr else TypeToString(value.ty)
  }

  /** What an entry can publish: its own type by its plain name, a number of another type, or anything if untyped. */
  predicate CanPublishAs(e: EntryState, value: Value) {
    || e.ty.None? || (e.ty == Some(value.ty) && e.typeStr == TypeToString(value.ty))
    || (e.ty.value in {Integer, Float, Double} && value.ty in {Integer, Float, Double})
    || (e.ty.value in {IntegerArray, FloatArray, DoubleArray} && value.ty in {IntegerArray, FloatArray, DoubleArray})
  }

  /** The first value an entry can publish makes its publisher; one that it cannot changes nothing. */
  lemma EntryMakes(s: StoreState, e: nat, value: Value)
    requires e in s.entries && s.entries[e].publisher.None? && s.entries[e].topic < |s.topics|
    ensures var u, entry := After(s, DoSet(OfEntry(e), Some(value))), s.entries[e];
            if !CanPublishAs(entry, value) then u == s
            else
              var ty, typeStr := EntryType(entry, value), EntryTypeStr(entry, value);
              var p := PublisherInfo(s.next, ty, typeStr, entry.options, Some(e));
              && u.next == s.next + 1 && u.publishers == s.publishers[s.next := Placed(entry.topic, p)]
              && u.entries == s.entries[e := entry.(ty := Some(ty), typeStr := typeStr, publisher := Some(s.next))]
              && |u.topics| == |s.topics|
              && u.topics[entry.topic].publishers == s.topics[entry.topic].publishers + [p]
  {
    EntryReady(s, e, value);
    var m := s.Ready(OfEntry(e), value.ty);
    hide StoreState.Ready, StoreState.Given, CanPublishAs, EntryType, EntryTypeStr;
    if m.PublisherOf(OfEntry(e)).Some? {
      GivenKeeps(m, m.PublisherOf(OfEntry(e)).value, value, false);
    }
  }

  lemma EntryReady(s: StoreState, e: nat, value: Value)
    requires e in s.entries && s.entries[e].publisher.None? && s.entries[e].topic < |s.topics|
    ensures var m, entry := s.Ready(OfEntry(e), value.ty), s.entries[e];
            if !CanPublishAs(entry, value) then m == s
            else
              var ty, typeStr := EntryType(entry, value), EntryTypeStr(entry, value);
              var p := PublisherInfo(s.next, ty, typeStr, entry.options, Some(e));
              && m.next == s.next + 1 && m.publishers == s.publishers[s.next := Placed(entry.topic, p)]
              && m.entries == s.entries[e := entry.(ty := Some(ty), typeStr := typeStr, publisher := Some(s.next))]
              && |m.topics| == |s.topics|
              && m.topics[entry.topic].publishers == s.topics[entry.topic].publishers + [p]
  {
  }

  lemma GivenKeeps(m: StoreState, p: Placed, value: Value, force: bool)
    ensures var u := m.Given(p, value, force);
            && u.next == m.next && u.publishers == m.publishers && u.entries == m.entries && |u.topics| == |m.topics|
            && forall i :: 0 <= i < |m.topics| ==> u.topics[i].publishers == m.topics[i].publishers
  {
  }

  /** A released entry is gone, and its publisher with it. */
  lemma Releasing(s: StoreState, e: nat)
    requires e in s.entries
    requires s.entries[e].publisher.Some?
             ==> var n := s.entries[e].publisher.value; n in s.publishers && s.publishers[n].topic < |s.topics|
    ensures var u, entry := After(s, DoReleaseEntry(e)), s.entries[e];
            && u.entries == s.entries - {e}
            && if entry.publisher.None? then u == s.(entries := u.entries)
               else u.publishers == s.publishers - {entry.publisher.value}
  {
    hide TopicState.Without, TopicState.WithoutSends;
  }
}
