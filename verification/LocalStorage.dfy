/** The local store: topics by name, publishers, entries and multi-subscribers by handle. */
module LocalStorage {
  import opened Wrappers
  import opened LocalStorageTypes
  import opened ClientProtocol
  import opened LocalStorageState
  import opened LocalStorageTopic

  /** An entry: a subscriber, whose type it may set, and a publisher made on demand. */
  class Entry {
    const handle: nat
    const topic: Topic
    const options: Options
    var ty: Option<NtType>
    var typeStr: string
    var publisher: Option<Publisher>

    constructor (handle: nat, topic: Topic, ty: Option<NtType>, typeStr: string, options: Options)
      ensures this.handle == handle && this.topic == topic && publisher == None
      ensures State() == EntryState(topic.handle, ty, typeStr, options, None)
    {
      this.handle, this.topic, this.ty, this.typeStr, publisher := handle, topic, ty, typeStr, None;
      this.options := options;
    }

    function State(): EntryState
      reads this`ty, this`typeStr, this`publisher
    {
      EntryState(topic.handle, ty, typeStr, options, if publisher.Some? then Some(publisher.value.handle) else None)
    }
  }

  /** The multi-subscribers listed for a name: each live one that matches, exactly once, and no other. */
  ghost predicate Indexed(listed: seq<MultiSubscriber>, live: seq<MultiSubscriber>, name: string) {
    && (forall i, j :: 0 <= i < j < |listed| ==> listed[i] != listed[j])
    && (forall m :: m in listed ==> m in live && Matches(m.prefixes, name))
    && (forall m :: m in live && Matches(m.prefixes, name) ==> m in listed)
  }

  /** Live multi-subscribers have handles of their own, given out before `next`. */
  ghost predicate Live(subs: seq<MultiSubscriber>, next: nat) {
    && (forall i, j :: 0 <= i < j < |subs| ==> subs[i] != subs[j])
    && (forall m, n :: m in subs && n in subs && m.handle == n.handle ==> m == n)
    && (forall m :: m in subs ==> m.handle < next)
  }

  lemma LivePush(subs: seq<MultiSubscriber>, next: nat, sub: MultiSubscriber)
    requires Live(subs, next) && sub.handle == next
    ensures Live(subs + [sub], next + 1) && sub !in subs
  {
  }

  function SubInfos(subs: seq<MultiSubscriber>): seq<SubInfo> {
    seq(|subs|, i requires 0 <= i < |subs| => SubInfo(subs[i].handle, subs[i].prefixes))
  }

  lemma {:induction false} SubInfosDropped(subs: seq<MultiSubscriber>, sub: MultiSubscriber)
    requires forall m :: m in subs && m.handle == sub.handle ==> m == sub
    ensures SubInfos(Erase(subs, sub)) == DroppedSub(SubInfos(subs), sub.handle)
  {
    if subs != [] {
      var n := |subs| - 1;
      assert SubInfos(subs)[..n] == SubInfos(subs[..n]);
      SubInfosDropped(subs[..n], sub);
      var rest := Erase(subs[..n], sub);
      assert SubInfos(rest + [subs[n]]) == SubInfos(rest) + [SubInfo(subs[n].handle, subs[n].prefixes)];
    }
  }

  lemma SubInfosPush(subs: seq<MultiSubscriber>, sub: MultiSubscriber)
    ensures SubInfos(subs + [sub]) == SubInfos(subs) + [SubInfo(sub.handle, sub.prefixes)] && |SubInfos(subs)| == |subs|
  {
  }

  lemma {:induction false} NoSubDropped(subs: seq<SubInfo>, h: nat)
    requires forall i :: 0 <= i < |subs| ==> subs[i].handle != h
    ensures DroppedSub(subs, h) == subs
  {
    if subs != [] {
      NoSubDropped(subs[..|subs| - 1], h);
    }
  }

  function PlacesOf(publishers: map<nat, Publisher>): map<nat, Placed> {
    map h | h in publishers :: publishers[h].Place()
  }

  lemma PlacesPush(publishers: map<nat, Publisher>, p: Publisher)
    ensures PlacesOf(publishers[p.handle := p]) == PlacesOf(publishers)[p.handle := p.Place()]
    ensures PlacesOf(publishers - {p.handle}) == PlacesOf(publishers) - {p.handle}
  {
  }

  class LSImpl {
    var topics: seq<Topic>
    var nameTopics: map<string, nat>
    var publishers: map<nat, Publisher>
    var entries: map<nat, Entry>
    var multiSubscribers: seq<MultiSubscriber>
    var nextHandle: nat

    // whether there is a network, and what it was told since it started
    var network: bool
    var sent: seq<Message>

    // the topics and the entries as values
    ghost var topicStates: seq<TopicState>
    ghost var entryStates: map<nat, EntryState>

    constructor ()
      ensures Valid() && topics == [] && entries == map[] && multiSubscribers == [] && State() == EMPTY_STORE
    {
      topics, nameTopics, publishers, entries, multiSubscribers, nextHandle := [], map[], map[], map[], [], 0;
      network, sent, topicStates, entryStates := false, [], [], map[];
    }

    /** The store as a value. */
    ghost function State(): StoreState
      reads this
    {
      StoreState(topicStates, nameTopics, PlacesOf(publishers), entryStates, SubInfos(multiSubscribers),
                 nextHandle, network, sent)
    }

    predicate Has(topic: Topic)
      reads this`topics
    {
      topic.handle < |topics| && topics[topic.handle] == topic
    }

    predicate Registered(p: Publisher)
      reads this`publishers
    {
      p.handle in publishers && publishers[p.handle] == p
    }

    ghost predicate TopicsNamed()
      reads this`topics, this`nameTopics
    {
      && (forall i :: 0 <= i < |topics| ==> topics[i].handle == i && topics[i].special == IsSpecial(topics[i].name))
      && (forall i :: 0 <= i < |topics| ==> topics[i].name in nameTopics && nameTopics[topics[i].name] == i)
      && (forall n :: n in nameTopics ==> nameTopics[n] < |topics| && topics[nameTopics[n]].name == n)
    }

    ghost function Listed(): set<Publisher>
      reads this`topics, topics`localPublishers
      ensures forall t, p :: t in topics && p in t.localPublishers ==> p in Listed()
    {
      set t, p | t in topics && p in t.localPublishers :: p
    }

    ghost predicate TopicsOk()
      reads this`topics, topics`onNetwork, topics`ty, topics`typeStr, topics`lastValue, topics`accepted
      reads topics`localPublishers, Listed()`active
    {
      forall t :: t in topics ==> t.Ok()
    }

    ghost predicate PublishersListed()
      reads this`topics, this`publishers, this`nextHandle, topics`localPublishers
    {
      && (forall h :: h in publishers ==> publishers[h].handle == h < nextHandle && Has(publishers[h].topic))
      && (forall h :: h in publishers ==> publishers[h] in publishers[h].topic.localPublishers)
      && (forall t, p :: t in topics && p in t.localPublishers ==> Registered(p))
    }

    ghost predicate EntriesOk()
      reads this`topics, this`publishers, this`entries, this`nextHandle, entries.Values`publisher
    {
      && (forall h :: h in entries ==> entries[h].handle == h < nextHandle && Has(entries[h].topic))
      && (forall h :: h in entries && entries[h].publisher.Some?
            ==> var p := entries[h].publisher.value; Registered(p) && p.owner == Some(h) && p.topic == entries[h].topic)
    }

    ghost predicate TopicsIndexed()
      reads this`topics, this`multiSubscribers, this`nextHandle, topics`multiSubscribers
    {
      Live(multiSubscribers, nextHandle) && AllIndexed(multiSubscribers)
    }

    ghost predicate Shaped()
      reads this`topics, this`nameTopics, this`publishers, this`entries, this`multiSubscribers, this`nextHandle
      reads topics`onNetwork, topics`ty, topics`typeStr, topics`lastValue, topics`accepted, topics`localPublishers
      reads topics`multiSubscribers, Listed()`active, entries.Values`publisher
    {
      TopicsNamed() && TopicsOk() && PublishersListed() && EntriesOk() && TopicsIndexed()
    }

    ghost predicate MirrorsTopics()
      reads this`topicStates, this`topics, topics`lastValue, topics`lastValueNetwork, topics`ty, topics`typeStr
      reads topics`onNetwork, topics`localPublishers, topics`accepted, topics`resets
    {
      |topicStates| == |topics| && forall i :: 0 <= i < |topics| ==> topicStates[i] == topics[i].State()
    }

    ghost predicate MirrorsEntries()
      reads this`entryStates, this`entries, entries.Values`ty, entries.Values`typeStr, entries.Values`publisher
    {
      entryStates.Keys == entries.Keys && forall h :: h in entries ==> entryStates[h] == entries[h].State()
    }

    ghost predicate Valid()
      reads this, topics, Listed(), entries.Values
    {
      Shaped() && MirrorsTopics() && MirrorsEntries()
    }

    /** All topics but one are as they are noted. */
    ghost predicate MirrorsOthers(topic: Topic)
      reads this`topicStates, this`topics, topics`lastValue, topics`lastValueNetwork, topics`ty, topics`typeStr
      reads topics`onNetwork, topics`localPublishers, topics`accepted, topics`resets
    {
      && |topicStates| == |topics|
      && forall i :: 0 <= i < |topics| && topics[i] != topic ==> topicStates[i] == topics[i].State()
    }

    twostate lemma OthersMirrored(topic: Topic)
      requires old(MirrorsTopics()) && topics == old(topics) && topicStates == old(topicStates)
      requires forall t :: t in topics && t != topic ==> unchanged(t)
      ensures MirrorsOthers(topic)
    {
      forall i | 0 <= i < |topics| && topics[i] != topic
        ensures topicStates[i] == topics[i].State()
      {
        assert topics[i] in topics;
        assert topics[i].State() == old(topics[i].State());
      }
    }

    /** Notes what a topic has become. */
    ghost method Note(topic: Topic)
      requires Shaped() && MirrorsOthers(topic) && MirrorsEntries() && Has(topic)
      modifies this`topicStates
      ensures Valid() && topicStates == old(topicStates)[topic.handle := topic.State()]
    {
      hide Topic.Ok, TopicsOk, PublishersListed, EntriesOk, TopicsIndexed, MirrorsEntries;
      topicStates := topicStates[topic.handle := topic.State()];
    }

    /** Tells the network, if there is one. */
    method Tell(msgs: seq<Message>)
      requires Valid()
      modifies this`sent
      ensures Valid() && sent == if network then old(sent) + msgs else old(sent)
    {
      hide Topic.Ok, TopicsNamed, TopicsOk, PublishersListed, EntriesOk, TopicsIndexed, MirrorsEntries, MirrorsTopics;
      if network {
        sent := sent + msgs;
      }
    }

    lemma TopicAsState(topic: Topic)
      requires MirrorsTopics() && Has(topic)
      ensures |topicStates| == |topics| && topicStates[topic.handle] == topic.State()
    {
    }

    lemma EntryAsState(h: nat)
      requires MirrorsEntries()
      ensures h in entryStates <==> h in entries
      ensures h in entries ==> entryStates[h] == entries[h].State()
    {
    }

    /** All entries but one are as they are noted. */
    ghost predicate MirrorsOtherEntries(h: nat)
      reads this`entryStates, this`entries, entries.Values`ty, entries.Values`typeStr, entries.Values`publisher
    {
      && (forall g :: g in entries && g != h ==> g in entryStates && entryStates[g] == entries[g].State())
      && (forall g :: g in entryStates && g != h ==> g in entries)
    }

    twostate lemma OtherEntriesMirrored(h: nat)
      requires old(MirrorsEntries()) && entryStates == old(entryStates)
      requires forall g :: g != h ==> (g in entries <==> g in old(entries))
      requires forall g :: g != h && g in entries ==> entries[g] == old(entries)[g] && unchanged(entries[g])
      ensures MirrorsOtherEntries(h)
    {
      forall g | g in entries && g != h
        ensures g in entryStates && entryStates[g] == entries[g].State()
      {
        assert entries[g].State() == old(entries[g].State());
      }
    }

    /** Notes what an entry has become, or that it is gone. */
    ghost method NoteEntry(h: nat)
      requires Shaped() && MirrorsTopics() && MirrorsOtherEntries(h)
      modifies this`entryStates
      ensures Valid()
      ensures entryStates == if h in entries then old(entryStates)[h := entries[h].State()] else old(entryStates) - {h}
    {
      hide Topic.Ok, TopicsNamed, TopicsOk, PublishersListed, EntriesOk, TopicsIndexed, MirrorsTopics;
      entryStates := if h in entries then entryStates[h := entries[h].State()] else entryStates - {h};
    }

    /** A publisher of a known topic, of which the network is told if it is active. */
    method AddLocalPublisher(topic: Topic, ty: NtType, typeStr: string, options: Options, owner: Option<nat>)
      returns (publisher: Publisher)
      requires Valid() && Has(topic)
      modifies this`publishers, this`nextHandle, this`sent, this`topicStates
      modifies topic`ty, topic`typeStr, topic`localPublishers, topic.localPublishers`active
      ensures Valid() && fresh(publisher) && publisher.topic == topic
      ensures publishers == old(publishers)[publisher.handle := publisher] && publisher.handle !in old(publishers)
      ensures publisher.Info() == PublisherInfo(old(nextHandle), ty, typeStr, options, owner)
      ensures topic.localPublishers == old(topic.localPublishers) + [publisher]
      ensures topic.State() == old(topic.State()).With(publisher.Info())
      ensures State() == old(State()).Added(topic.handle, publisher.Info())
    {
      hide Topic.Ok, TopicsNamed, TopicsOk, PublishersListed, EntriesOk, TopicsIndexed, MirrorsTopics, MirrorsEntries;
      hide Topic.State, PlacesOf, SubInfos, TopicState.With;
      TopicAsState(topic);
      publisher := ListPublisher(topic, ty, typeStr, options, owner);
      OthersMirrored(topic);
      Note(topic);
      PlacesPush(old(publishers), publisher);
      Tell(if publisher.active then [topic.PublishMessage(publisher)] else []);
    }

    method ListPublisher(topic: Topic, ty: NtType, typeStr: string, options: Options, owner: Option<nat>)
      returns (publisher: Publisher)
      requires Shaped() && Has(topic)
      modifies this`publishers, this`nextHandle
      modifies topic`ty, topic`typeStr, topic`localPublishers, topic.localPublishers`active
      ensures Shaped() && fresh(publisher) && publisher.topic == topic && nextHandle == old(nextHandle) + 1
      ensures publishers == old(publishers)[publisher.handle := publisher] && publisher.handle !in old(publishers)
      ensures publisher.Info() == PublisherInfo(old(nextHandle), ty, typeStr, options, owner)
      ensures topic.localPublishers == old(topic.localPublishers) + [publisher]
      ensures topic.State() == old(topic.State()).With(publisher.Info())
      ensures publisher.active == topic.State().Active(publisher.Info())
    {
      hide Topic.Ok, TopicsNamed, TopicsOk, PublishersListed, EntriesOk, TopicsIndexed, TopicState.With;
      hide Topic.State, Infos;
      TopicOk(topic);
      FreshHandle();
      publisher := topic.AddLocalPublisher(nextHandle, ty, typeStr, options, owner);
      publishers := publishers[nextHandle := publisher];
      nextHandle := nextHandle + 1;
      OthersStayOk(topic);
      PublisherListed(topic, publisher);
      EntriesStayOk();
      IndexStays();
    }

    lemma TopicOk(topic: Topic)
      requires TopicsOk() && Has(topic)
      ensures topic.Ok()
    {
    }

    lemma FreshHandle()
      requires PublishersListed()
      ensures nextHandle !in publishers
    {
    }

    twostate lemma PublisherListed(topic: Topic, new publisher: Publisher)
      requires old(PublishersListed()) && topics == old(topics) && Has(topic)
      requires forall t :: t in topics && t != topic ==> t.localPublishers == old(t.localPublishers)
      requires topic.localPublishers == old(topic.localPublishers) + [publisher]
      requires publisher.topic == topic && publisher.handle == old(nextHandle) && nextHandle == old(nextHandle) + 1
      requires publishers == old(publishers)[publisher.handle := publisher]
      ensures PublishersListed()
    {
      forall t, p | t in topics && p in t.localPublishers
        ensures Registered(p)
      {
        if p != publisher {
          assert p in old(t.localPublishers) && old(Registered(p));
        }
      }
    }

    /** Entries keep their publishers as long as those stay registered. */
    twostate lemma EntriesStayOk()
      requires old(EntriesOk()) && topics == old(topics) && entries == old(entries) && nextHandle >= old(nextHandle)
      requires forall h :: h in entries ==> entries[h].publisher == old(entries[h].publisher)
      requires forall h :: h in entries && entries[h].publisher.Some? && old(Registered(entries[h].publisher.value))
                 ==> Registered(entries[h].publisher.value)
      ensures EntriesOk()
    {
    }

    twostate lemma IndexStays()
      requires old(TopicsIndexed()) && topics == old(topics) && multiSubscribers == old(multiSubscribers)
      requires nextHandle >= old(nextHandle)
      requires forall t :: t in topics ==> t.multiSubscribers == old(t.multiSubscribers)
      ensures TopicsIndexed()
    {
    }

    /** A change to one topic and its own publishers leaves the other topics as they were. */
    twostate lemma OthersStayOk(topic: Topic)
      requires old(TopicsOk()) && topics == old(topics) && topic in topics && topic.Ok()
      requires forall t :: t in topics && t != topic ==> unchanged(t)
      requires forall p: Publisher :: old(allocated(p)) && p !in old(topic.localPublishers) ==> unchanged(p)
      ensures TopicsOk()
    {
      forall t | t in topics && t != topic
        ensures t.Ok()
      {
        assert old(t.Ok()) && old(topic.Ok());
        forall i | 0 <= i < |t.localPublishers|
          ensures t.localPublishers[i].active == old(t.localPublishers[i].active)
        {
          var p := t.localPublishers[i];
          assert p == old(t.localPublishers[i]) && p.topic == t;
          assert p !in old(topic.localPublishers);
          assert old(allocated(p));
        }
      }
    }

    /** No entry holds the publisher. */
    ghost predicate Unheld(publisher: Publisher)
      reads this`entries, entries.Values`publisher
    {
      forall e :: e in entries.Values ==> e.publisher != Some(publisher)
    }

    /** Takes out a publisher that no entry holds, and tells the network if it was active. */
    method RemoveLocalPublisher(topic: Topic, publisher: Publisher)
      requires Valid() && Registered(publisher) && publisher.topic == topic
      requires Unheld(publisher)
      modifies this`publishers, this`sent, this`topicStates, topic.localPublishers`active
      modifies topic`ty, topic`typeStr, topic`localPublishers
      modifies topic`lastValue, topic`lastValueNetwork, topic`accepted, topic`resets
      ensures Valid() && publishers == old(publishers) - {publisher.handle}
      ensures topic.Later() && topic.Grown() && topic.localPublishers == Erase(old(topic.localPublishers), publisher)
      ensures !topic.Exists() ==> topic.Fresh()
      ensures topic.State() == old(topic.State()).Without(publisher.Info())
      ensures State() == old(State()).Removed(publisher.handle)
    {
      hide Topic.Ok, TopicsNamed, TopicsOk, PublishersListed, EntriesOk, TopicsIndexed, MirrorsTopics, MirrorsEntries;
      hide Topic.Fresh, Topic.State, Infos, PlacesOf, SubInfos, Unheld, Erase, TopicState.Without;
      PublisherPlace(publisher);
      TopicAsState(topic);
      PlaceOf(publisher);
      var sends := UnlistPublisher(topic, publisher);
      OthersMirrored(topic);
      Note(topic);
      PlacesPush(old(publishers), publisher);
      Tell(sends);
    }

    lemma PlaceOf(publisher: Publisher)
      requires Registered(publisher)
      ensures publisher.handle in PlacesOf(publishers) && PlacesOf(publishers)[publisher.handle] == publisher.Place()
    {
    }

    method UnlistPublisher(topic: Topic, publisher: Publisher) returns (sends: seq<Message>)
      requires Shaped() && Registered(publisher) && publisher.topic == topic
      requires Unheld(publisher)
      modifies this`publishers, topic.localPublishers`active
      modifies topic`ty, topic`typeStr, topic`localPublishers
      modifies topic`lastValue, topic`lastValueNetwork, topic`accepted, topic`resets
      ensures Shaped() && publishers == old(publishers) - {publisher.handle}
      ensures topic.Later() && topic.Grown() && topic.localPublishers == Erase(old(topic.localPublishers), publisher)
      ensures !topic.Exists() ==> topic.Fresh()
      ensures topic.State() == old(topic.State()).Without(publisher.Info())
      ensures sends == old(topic.State()).WithoutSends(publisher.Info())
    {
      hide Topic.Ok, Topic.Fresh, TopicsNamed, TopicsOk, PublishersListed, EntriesOk, TopicsIndexed, Unheld, Erase;
      hide Topic.State, Infos, TopicState.Without, TopicState.WithoutSends;
      PublisherPlace(publisher);
      TopicOk(topic);
      HandlesDistinct(topic, publisher);
      publishers := publishers - {publisher.handle};
      sends := TakeOut(topic, publisher);
      OthersStayOk(topic);
      PublisherUnlisted(publisher);
      EntriesLose(publisher);
    }

    /** Takes a publisher out of its topic; with what the network is to be told. */
    static method TakeOut(topic: Topic, publisher: Publisher) returns (sends: seq<Message>)
      requires topic.Ok() && publisher in topic.localPublishers
      requires forall q :: q in topic.localPublishers && q.handle == publisher.handle ==> q == publisher
      modifies topic`ty, topic`typeStr, topic`lastValue, topic`lastValueNetwork, topic`accepted, topic`resets
      modifies topic`localPublishers, topic.localPublishers`active
      ensures topic.Ok() && topic.Later() && topic.Grown() && (!topic.Exists() ==> topic.Fresh())
      ensures topic.localPublishers == Erase(old(topic.localPublishers), publisher)
      ensures topic.State() == old(topic.State()).Without(publisher.Info())
      ensures sends == old(topic.State()).WithoutSends(publisher.Info())
    {
      hide Topic.Ok, Topic.Fresh, Erase;
      var next := topic.RemoveLocalPublisher(publisher);
      sends := [];
      if publisher.active {
        sends := [Message.Unpublish(publisher.handle)];
        if next.Some? {
          sends := sends + [topic.PublishMessage(next.value)];
        }
      }
    }

    /** Listed publishers are known by their handles. */
    lemma HandlesDistinct(topic: Topic, publisher: Publisher)
      requires PublishersListed() && topic in topics && Registered(publisher)
      ensures forall q :: q in topic.localPublishers && q.handle == publisher.handle ==> q == publisher
    {
      forall q | q in topic.localPublishers && q.handle == publisher.handle
        ensures q == publisher
      {
        assert Registered(q);
      }
    }

    twostate lemma EntriesLose(publisher: Publisher)
      requires old(EntriesOk()) && topics == old(topics) && entries == old(entries) && nextHandle == old(nextHandle)
      requires forall e :: e in entries.Values ==> e.publisher == old(e.publisher)
      requires old(Unheld(publisher) && Registered(publisher)) && publishers == old(publishers) - {publisher.handle}
      ensures EntriesOk()
    {
      forall h | h in entries && entries[h].publisher.Some?
        ensures Registered(entries[h].publisher.value)
      {
        assert old(entries[h] in entries.Values);
        assert old(Registered(entries[h].publisher.value));
      }
    }

    lemma PublisherPlace(publisher: Publisher)
      requires PublishersListed() && Registered(publisher)
      ensures Has(publisher.topic) && publisher in publisher.topic.localPublishers
    {
    }

    twostate lemma PublisherUnlisted(publisher: Publisher)
      requires old(PublishersListed()) && topics == old(topics) && nextHandle == old(nextHandle)
      requires old(Registered(publisher)) && publishers == old(publishers) - {publisher.handle}
      requires forall t :: t in topics && t != publisher.topic ==> t.localPublishers == old(t.localPublishers)
      requires publisher.topic.localPublishers == Erase(old(publisher.topic.localPublishers), publisher)
      requires old(TopicsOk())
      ensures PublishersListed()
    {
      EraseMembers(old(publisher.topic.localPublishers), publisher);
      forall t, p | t in topics && p in t.localPublishers
        ensures Registered(p)
      {
        assert p in old(t.localPublishers) && old(Registered(p));
      }
      forall h | h in publishers
        ensures publishers[h] in publishers[h].topic.localPublishers
      {
        assert old(publishers[h] in publishers[h].topic.localPublishers);
      }
    }

    /** A change to one topic that keeps its list of publishers. */
    twostate lemma TopicChanged(topic: Topic)
      requires old(Shaped()) && Has(topic) && topic.Ok()
      requires topics == old(topics) && nameTopics == old(nameTopics) && publishers == old(publishers)
      requires entries == old(entries) && multiSubscribers == old(multiSubscribers) && nextHandle == old(nextHandle)
      requires forall t :: t in topics && t != topic ==> unchanged(t)
      requires topic.localPublishers == old(topic.localPublishers)
               && topic.multiSubscribers == old(topic.multiSubscribers)
      requires forall p: Publisher :: old(allocated(p)) && p !in old(topic.localPublishers) ==> unchanged(p)
      requires forall e :: e in entries.Values ==> e.publisher == old(e.publisher)
      ensures Shaped()
    {
      hide Topic.Ok, TopicsNamed, TopicsOk, EntriesOk, TopicsIndexed, PublishersListed;
      OthersStayOk(topic);
      EntriesStayOk();
      IndexStays();
      ListsStay();
    }

    twostate lemma ListsStay()
      requires old(PublishersListed()) && topics == old(topics) && publishers == old(publishers)
      requires nextHandle == old(nextHandle)
      requires forall t :: t in topics ==> t.localPublishers == old(t.localPublishers)
      ensures PublishersListed()
    {
      forall t, p | t in topics && p in t.localPublishers
        ensures Registered(p)
      {
        assert old(Registered(p));
      }
    }

    /** A topic by name, made and attached to the matching multi-subscribers when new. */
    method GetOrCreateTopic(name: string) returns (topic: Topic)
      requires Valid()
      modifies this`topics, this`nameTopics, this`topicStates
      ensures Valid() && Has(topic) && topic.name == name && name in nameTopics && nameTopics[name] == topic.handle
      ensures name in old(nameTopics) ==> topics == old(topics) && nameTopics == old(nameTopics)
      ensures name !in old(nameTopics)
              ==> fresh(topic) && topics == old(topics) + [topic] && topic.Fresh() && !topic.Exists()
      ensures Kept() && State() == old(State()).Created(name)
    {
      hide Topic.Ok, TopicsNamed, TopicsOk, PublishersListed, EntriesOk, TopicsIndexed, MirrorsTopics, MirrorsEntries;
      if name in nameTopics {
        NamedPlace(name);
        return topics[nameTopics[name]];
      }
      topic := CreateTopic(name);
      StartMirrored(topic);
      NoteNew(topic);
    }

    lemma NamedPlace(name: string)
      requires TopicsNamed() && name in nameTopics
      ensures nameTopics[name] < |topics| && Has(topics[nameTopics[name]]) && topics[nameTopics[name]].name == name
      ensures topics[nameTopics[name]].handle == nameTopics[name]
    {
    }

    method CreateTopic(name: string) returns (topic: Topic)
      requires Shaped() && name !in nameTopics
      modifies this`topics, this`nameTopics
      ensures Shaped() && fresh(topic) && Has(topic) && topic.State() == NewTopic(|old(topics)|, name)
      ensures topics == old(topics) + [topic] && nameTopics == old(nameTopics)[name := |old(topics)|]
    {
      topic := new Topic(|topics|, name);
      Attach(topic);
      topics := topics + [topic];
      nameTopics := nameTopics[name := topic.handle];
      TopicAdded(topic);
    }

    /** All topics but the last are as they are noted. */
    ghost predicate MirrorsStart()
      reads this`topicStates, this`topics, topics`lastValue, topics`lastValueNetwork, topics`ty, topics`typeStr
      reads topics`onNetwork, topics`localPublishers, topics`accepted, topics`resets
    {
      |topicStates| + 1 == |topics| && forall i :: 0 <= i < |topicStates| ==> topicStates[i] == topics[i].State()
    }

    twostate lemma StartMirrored(new topic: Topic)
      requires old(MirrorsTopics()) && topics == old(topics) + [topic] && topicStates == old(topicStates)
      requires forall t :: t in old(topics) ==> unchanged(t)
      ensures MirrorsStart()
    {
      forall i | 0 <= i < |topicStates|
        ensures topicStates[i] == topics[i].State()
      {
        assert topics[i] == old(topics[i]) && topics[i] in old(topics);
        assert topics[i].State() == old(topics[i].State());
      }
    }

    ghost method NoteNew(topic: Topic)
      requires Shaped() && MirrorsStart() && MirrorsEntries() && topic == topics[|topics| - 1]
      modifies this`topicStates
      ensures Valid() && topicStates == old(topicStates) + [topic.State()] && |topicStates| == |topics|
    {
      hide Topic.Ok, TopicsNamed, TopicsOk, PublishersListed, EntriesOk, TopicsIndexed, MirrorsEntries;
      topicStates := topicStates + [topic.State()];
    }

    /** Lists the live multi-subscribers that match a new topic. */
    method Attach(topic: Topic)
      requires TopicsIndexed() && topic !in topics && topic.multiSubscribers == []
               && topic.special == IsSpecial(topic.name)
      modifies topic`multiSubscribers
      ensures Indexed(topic.multiSubscribers, multiSubscribers, topic.name)
    {
      for i := 0 to |multiSubscribers|
        invariant Indexed(topic.multiSubscribers, multiSubscribers[..i], topic.name)
      {
        var sub := multiSubscribers[i];
        var listed := topic.multiSubscribers;
        var matches := MatchesAny(sub.prefixes, topic.name, topic.special);
        assert sub !in multiSubscribers[..i];
        assert multiSubscribers[..i + 1] == multiSubscribers[..i] + [sub];
        if matches {
          topic.multiSubscribers := listed + [sub];
        }
        IndexedPush(listed, multiSubscribers[..i], sub, topic.name);
      }
      assert multiSubscribers[..|multiSubscribers|] == multiSubscribers;
    }

    /** Every topic lists those of `live` that match it. */
    ghost predicate AllIndexed(live: seq<MultiSubscriber>)
      reads this`topics, topics`multiSubscribers
    {
      forall i :: 0 <= i < |topics| ==> Indexed(topics[i].multiSubscribers, live, topics[i].name)
    }

    /** A new multi-subscriber is listed with every topic it matches. */
    method AddMultiSubscriber(prefixes: seq<string>) returns (sub: MultiSubscriber)
      requires Shaped()
      modifies this`multiSubscribers, this`nextHandle, topics`multiSubscribers
      ensures Shaped() && fresh(sub) && sub.prefixes == prefixes && multiSubscribers == old(multiSubscribers) + [sub]
      ensures sub.handle == old(nextHandle) && nextHandle == old(nextHandle) + 1
    {
      hide Live, TopicsNamed, TopicsOk, PublishersListed, EntriesOk, AllIndexed;
      sub := new MultiSubscriber(nextHandle, prefixes);
      LivePush(multiSubscribers, nextHandle, sub);
      ListEverywhere(sub);
      multiSubscribers := multiSubscribers + [sub];
      nextHandle := nextHandle + 1;
      HandlesGrow();
      SettingsStay();
    }

    twostate lemma SettingsStay()
      requires old(TopicsOk()) && topics == old(topics)
      requires forall t :: t in topics ==> t.Same()
      ensures TopicsOk()
    {
      forall t | t in topics
        ensures t.Ok()
      {
        assert t.Same() && old(t.Ok());
      }
    }

    method ListEverywhere(sub: MultiSubscriber)
      requires TopicsNamed() && AllIndexed(multiSubscribers) && sub !in multiSubscribers
      modifies topics`multiSubscribers
      ensures AllIndexed(multiSubscribers + [sub])
    {
      hide Indexed;
      for i := 0 to |topics|
        invariant forall j :: 0 <= j < i
                    ==> Indexed(topics[j].multiSubscribers, multiSubscribers + [sub], topics[j].name)
        invariant forall j :: i <= j < |topics|
                    ==> Indexed(topics[j].multiSubscribers, multiSubscribers, topics[j].name)
      {
        var topic := topics[i];
        IndexedPush(topic.multiSubscribers, multiSubscribers, sub, topic.name);
        var matches := MatchesAny(sub.prefixes, topic.name, topic.special);
        if matches {
          topic.multiSubscribers := topic.multiSubscribers + [sub];
        }
      }
    }

    method UnlistEverywhere(sub: MultiSubscriber)
      requires TopicsNamed() && AllIndexed(multiSubscribers)
      modifies topics`multiSubscribers
      ensures AllIndexed(Erase(multiSubscribers, sub))
    {
      hide Indexed, Erase;
      for i := 0 to |topics|
        invariant forall j :: 0 <= j < i
                    ==> Indexed(topics[j].multiSubscribers, Erase(multiSubscribers, sub), topics[j].name)
        invariant forall j :: i <= j < |topics|
                    ==> Indexed(topics[j].multiSubscribers, multiSubscribers, topics[j].name)
      {
        IndexedErase(topics[i].multiSubscribers, multiSubscribers, sub, topics[i].name);
        topics[i].multiSubscribers := Erase(topics[i].multiSubscribers, sub);
      }
    }

    /** Handles given out later are new to the registered publishers and entries. */
    twostate lemma HandlesGrow()
      requires old(PublishersListed() && EntriesOk()) && nextHandle >= old(nextHandle) && topics == old(topics)
      requires publishers == old(publishers) && entries == old(entries)
      requires forall t :: t in topics ==> t.localPublishers == old(t.localPublishers)
      requires forall e :: e in entries.Values ==> e.publisher == old(e.publisher)
      ensures PublishersListed() && EntriesOk()
    {
      forall t, p | t in topics && p in t.localPublishers
        ensures Registered(p)
      {
        assert old(Registered(p));
      }
      forall h | h in entries
        ensures entries[h].publisher == old(entries[h].publisher)
      {
        assert entries[h] in entries.Values;
      }
    }

    /** A multi-subscriber that leaves is listed nowhere any more. */
    method RemoveMultiSubscriber(handle: nat) returns (found: bool)
      requires Shaped()
      modifies this`multiSubscribers, topics`multiSubscribers
      ensures Shaped() && found == exists m :: m in old(multiSubscribers) && m.handle == handle
      ensures forall m :: m in multiSubscribers <==> m in old(multiSubscribers) && m.handle != handle
      ensures SubInfos(multiSubscribers) == DroppedSub(SubInfos(old(multiSubscribers)), handle)
    {
      hide TopicsNamed, TopicsOk, PublishersListed, EntriesOk, AllIndexed, Erase;
      var k := 0;
      while k < |multiSubscribers| && multiSubscribers[k].handle != handle
        invariant k <= |multiSubscribers|
        invariant forall j :: 0 <= j < k ==> multiSubscribers[j].handle != handle
      {
        k := k + 1;
      }
      if k == |multiSubscribers| {
        NoSubDropped(SubInfos(multiSubscribers), handle);
        return false;
      }
      var sub := multiSubscribers[k];
      SubInfosDropped(multiSubscribers, sub);
      EraseMembers(multiSubscribers, sub);
      EraseDistinct(multiSubscribers, sub);
      UnlistEverywhere(sub);
      multiSubscribers := Erase(multiSubscribers, sub);
      SettingsStay();
      return true;
    }

    twostate lemma TopicAdded(new topic: Topic)
      requires old(Shaped()) && topics == old(topics) + [topic] && topic.handle == |old(topics)|
      requires topic.name !in old(nameTopics) && nameTopics == old(nameTopics)[topic.name := topic.handle]
      requires topic.special == IsSpecial(topic.name) && topic.Ok() && topic.localPublishers == []
      requires Indexed(topic.multiSubscribers, multiSubscribers, topic.name)
      requires multiSubscribers == old(multiSubscribers) && publishers == old(publishers) && entries == old(entries)
      requires nextHandle == old(nextHandle)
      requires forall t :: t in old(topics) ==> unchanged(t)
      requires forall t, i :: t in old(topics) && 0 <= i < |old(t.localPublishers)|
                 ==> old(t.localPublishers)[i].active == old(t.localPublishers[i].active)
      requires forall e :: e in entries.Values ==> e.publisher == old(e.publisher)
      ensures Shaped()
    {
      hide Topic.Ok, Indexed, TopicsNamed, TopicsOk, PublishersListed, EntriesOk, TopicsIndexed;
      AddedOk(topic);
      AddedNamed(topic);
      AddedListed(topic);
      AddedIndexed(topic);
      assert EntriesOk() by { AddedEntries(topic); }
    }

    twostate lemma AddedOk(new topic: Topic)
      requires old(TopicsOk()) && topics == old(topics) + [topic] && topic.Ok()
      requires forall t :: t in old(topics) ==> unchanged(t)
      requires forall t, i :: t in old(topics) && 0 <= i < |old(t.localPublishers)|
                 ==> old(t.localPublishers)[i].active == old(t.localPublishers[i].active)
      ensures TopicsOk()
    {
      forall t | t in topics
        ensures t.Ok()
      {
        if t != topic {
          assert old(t.Ok());
        }
      }
    }

    twostate lemma AddedNamed(new topic: Topic)
      requires old(TopicsNamed()) && topics == old(topics) + [topic] && topic.handle == |old(topics)|
      requires topic.name !in old(nameTopics) && nameTopics == old(nameTopics)[topic.name := topic.handle]
      requires topic.special == IsSpecial(topic.name)
      ensures TopicsNamed()
    {
    }

    twostate lemma AddedListed(new topic: Topic)
      requires old(PublishersListed()) && topics == old(topics) + [topic] && topic.localPublishers == []
      requires publishers == old(publishers) && nextHandle == old(nextHandle)
      requires forall t :: t in old(topics) ==> t.localPublishers == old(t.localPublishers)
      ensures PublishersListed()
    {
      forall h | h in publishers
        ensures publishers[h] in publishers[h].topic.localPublishers
      {
        assert old(Has(publishers[h].topic)) && publishers[h].topic in old(topics);
      }
      forall t, p | t in topics && p in t.localPublishers
        ensures Registered(p)
      {
        assert old(Registered(p));
      }
    }

    twostate lemma AddedIndexed(new topic: Topic)
      requires old(TopicsIndexed()) && topics == old(topics) + [topic]
      requires Indexed(topic.multiSubscribers, multiSubscribers, topic.name)
      requires multiSubscribers == old(multiSubscribers) && nextHandle == old(nextHandle)
      requires forall t :: t in old(topics) ==> t.multiSubscribers == old(t.multiSubscribers)
      ensures TopicsIndexed()
    {
      hide Indexed;
      forall i | 0 <= i < |topics|
        ensures Indexed(topics[i].multiSubscribers, multiSubscribers, topics[i].name)
      {
        if i < |old(topics)| {
          assert topics[i] == old(topics[i]) && topics[i] in old(topics);
        }
      }
    }

    twostate lemma AddedEntries(new topic: Topic)
      requires old(EntriesOk()) && topics == old(topics) + [topic]
      requires publishers == old(publishers) && entries == old(entries) && nextHandle == old(nextHandle)
      requires forall e :: e in entries.Values ==> e.publisher == old(e.publisher)
      ensures EntriesOk()
    {
      forall h | h in entries
        ensures entries[h].publisher == old(entries[h].publisher)
      {
        assert entries[h] in entries.Values;
      }
    }

    // Changes to one topic of the store

    method Announce(topic: Topic, typeStr: string, ack: bool)
      requires Valid() && Has(topic)
      modifies topic`onNetwork, topic`ty, topic`typeStr, topic.localPublishers`active, this`topicStates
      ensures Valid()
      ensures topic.State() == if ack then old(topic.State()) else old(topic.State()).Announced(typeStr)
      ensures State() == old(State()).Put(topic.handle, topic.State())
    {
      hide Topic.Ok, TopicsNamed, TopicsOk, PublishersListed, EntriesOk, TopicsIndexed, MirrorsTopics, MirrorsEntries;
      hide Topic.State, Infos, PlacesOf, SubInfos;
      TopicOk(topic);
      TopicAsState(topic);
      topic.NetworkAnnounce(typeStr, ack);
      TopicChanged(topic);
      OthersMirrored(topic);
      Note(topic);
    }

    method Unannounce(topic: Topic)
      requires Valid() && Has(topic)
      modifies topic`onNetwork, topic`ty, topic`typeStr, topic`lastValue, topic`lastValueNetwork, topic`accepted
      modifies topic`resets
      modifies topic.localPublishers`active, this`sent, this`topicStates
      ensures Valid() && topic.Later() && topic.FollowsFirst() && topic.State() == old(topic.State()).Unannounced()
      ensures State() == old(State()).Put(topic.handle, topic.State()).Send(old(topic.State()).Republishing())
    {
      hide Topic.Ok, TopicsNamed, TopicsOk, PublishersListed, EntriesOk, TopicsIndexed, MirrorsTopics, MirrorsEntries;
      hide Topic.State, Infos, PlacesOf, SubInfos;
      TopicOk(topic);
      TopicAsState(topic);
      var sends := topic.RemoveNetworkPublisher();
      TopicChanged(topic);
      OthersMirrored(topic);
      Note(topic);
      Tell(sends);
    }

    method StoreValue(topic: Topic, value: Value) returns (done: bool)
      requires Valid() && Has(topic)
      modifies topic`lastValue, topic`lastValueNetwork, topic`ty, topic`accepted, this`topicStates
      ensures Valid() && done == old(topic.State()).Accepts(value) && old(topic.accepted) <= topic.accepted
      ensures topic.State() == old(topic.State()).FromNetwork(value)
      ensures State() == old(State()).Put(topic.handle, topic.State())
    {
      hide Topic.Ok, TopicsNamed, TopicsOk, PublishersListed, EntriesOk, TopicsIndexed, MirrorsTopics, MirrorsEntries;
      hide Topic.State, Infos, PlacesOf, SubInfos;
      TopicOk(topic);
      TopicAsState(topic);
      TopicFields(topic);
      done := topic.NetworkValue(value);
      TopicChanged(topic);
      OthersMirrored(topic);
      Note(topic);
      TopicFields(topic);
    }

    method PublishValue(topic: Topic, publisher: Publisher, value: Value, force: bool) returns (done: bool)
      requires Valid() && Registered(publisher) && publisher.topic == topic
      modifies topic`lastValue, topic`lastValueNetwork, topic`ty, topic`accepted, this`sent, this`topicStates
      ensures Valid() && topic.ty == old(topic.ty) && old(topic.accepted) <= topic.accepted
      ensures done == old(topic.State()).Hears(publisher.Info(), value)
      ensures topic.State() == old(topic.State()).Published(publisher.Info(), value, force, network)
      ensures State() == old(State()).Given(publisher.Place(), value, force)
    {
      hide Topic.Ok, TopicsNamed, TopicsOk, PublishersListed, EntriesOk, TopicsIndexed, MirrorsTopics, MirrorsEntries;
      hide Topic.State, Infos, PlacesOf, SubInfos;
      PublisherPlace(publisher);
      TopicOk(topic);
      TopicAsState(topic);
      TopicFields(topic);
      var tell;
      done, tell := topic.PublishLocalValue(publisher, Some(value), force, network);
      TopicChanged(topic);
      OthersMirrored(topic);
      Note(topic);
      TopicFields(topic);
      Tell(if tell.Some? then [Message.SetValue(publisher.handle, tell.value)] else []);
    }

    method StoreDefault(topic: Topic, value: Value) returns (done: bool)
      requires Valid() && Has(topic) && topic.lastValue.None?
      modifies topic`lastValue, topic`ty, topic`accepted, this`topicStates
      ensures Valid() && done == old(topic.State()).TakesDefault(value) && old(topic.accepted) == []
      ensures topic.State() == if done then old(topic.State()).Defaulted(value) else old(topic.State())
      ensures State() == old(State()).Put(topic.handle, topic.State())
    {
      hide Topic.Ok, TopicsNamed, TopicsOk, PublishersListed, EntriesOk, TopicsIndexed, MirrorsTopics, MirrorsEntries;
      hide Topic.State, Infos, PlacesOf, SubInfos, TopicState.Defaulted, TopicState.TakesDefault;
      NothingAccepted(topic);
      TopicOk(topic);
      TopicAsState(topic);
      TopicFields(topic);
      done := topic.StoreDefault(value);
      TopicChanged(topic);
      OthersMirrored(topic);
      Note(topic);
      TopicFields(topic);
    }

    lemma NothingAccepted(topic: Topic)
      requires TopicsOk() && Has(topic)
      ensures topic.lastValue.None? <==> topic.accepted == []
    {
      assert topic.Ok();
    }

    // What validity means

    /** A listed publisher is active iff its type is the topic's, and someone is active unless the network publishes. */
    lemma PublishersFollowType(topic: Topic)
      requires Valid() && topic in topics
      ensures forall p :: p in topic.localPublishers
                ==> (p.active <==> Some(p.ty) == topic.ty && p.typeStr == topic.typeStr)
      ensures topic.Exists() ==> topic.ty.Some?
      ensures topic.localPublishers != [] && !topic.onNetwork ==> exists p :: p in topic.localPublishers && p.active
    {
      assert topic.Ok();
      if topic.localPublishers != [] && !topic.onNetwork {
        var i :| 0 <= i < |topic.localPublishers| && topic.localPublishers[i].Fits(topic.ty, topic.typeStr);
        assert topic.localPublishers[i].active;
      }
    }

    /** The last value is the latest to arrive among those with the largest time since the reset. */
    lemma LastValueNewest(topic: Topic)
      requires Valid() && topic in topics && Timed(topic.accepted)
      ensures Newest(topic.accepted, topic.lastValue)
    {
      assert topic.Ok();
    }

    /** Between resets the time of the last value never goes backwards. */
    twostate lemma TimesForward(topic: Topic)
      requires old(Valid()) && Valid() && Kept() && topic in old(topics)
      requires topic.resets == old(topic.resets) && Timed(topic.accepted)
      ensures old(topic.lastValue).Some?
              ==> topic.lastValue.Some? && old(topic.lastValue).value.time <= topic.lastValue.value.time
    {
      hide TopicsNamed, PublishersListed, EntriesOk, TopicsIndexed, MirrorsTopics, MirrorsEntries;
      assert topic.Later() && old(topic.Ok()) && topic.Ok();
      assert Timed(old(topic.accepted)) by {
        assert forall i :: 0 <= i < |old(topic.accepted)| ==> old(topic.accepted)[i] == topic.accepted[i];
      }
      TimeForward(old(topic.accepted), old(topic.lastValue), topic.accepted, topic.lastValue);
    }

    /** A live multi-subscriber is listed with a topic once if it matches, and otherwise not at all. */
    lemma ListedOnce(topic: Topic, sub: MultiSubscriber)
      requires Valid() && topic in topics
      ensures multiset(topic.multiSubscribers)[sub]
           == if sub in multiSubscribers && Matches(sub.prefixes, topic.name) then 1 else 0
    {
      assert Indexed(topic.multiSubscribers, multiSubscribers, topic.name);
      DistinctOnce(topic.multiSubscribers, sub);
    }

    // The interface

    /** Topics stay, and each was reset or has only accepted more; what is new is newly made. */
    twostate predicate Kept()
      reads this, topics
    {
      && old(topics) <= topics && (forall t :: t in old(topics) ==> t.Later() && t.Grown())
      && (forall t :: t in topics && t !in old(topics) ==> fresh(t) && forall p :: p in t.localPublishers ==> fresh(p))
      && (forall e :: e in entries.Values ==> e in old(entries.Values) || fresh(e))
    }

    method NetworkAnnounce(name: string, typeStr: string, ack: bool) returns (handle: nat)
      requires Valid()
      modifies this`topics, this`nameTopics, this`topicStates, topics, Listed()
      ensures Valid() && Kept() && handle < |topics| && topics[handle].name == name
      ensures State() == old(State()).Created(name).Announced(name, typeStr, ack)
    {
      hide Topic.Ok, TopicsNamed, TopicsOk, PublishersListed, EntriesOk, TopicsIndexed, MirrorsTopics, MirrorsEntries;
      hide Topic.State, PlacesOf, SubInfos;
      var topic := GetOrCreateTopic(name);
      TopicAsState(topic);
      Announce(topic, typeStr, ack);
      handle := topic.handle;
    }

    method NetworkUnannounce(name: string)
      requires Valid()
      modifies this`topics, this`nameTopics, this`sent, this`topicStates, topics, Listed()
      ensures Valid() && Kept() && name in nameTopics && nameTopics[name] < |topics|
      ensures topics[nameTopics[name]].FollowsFirst()
      ensures State() == old(State()).Created(name).Unannounced(name)
    {
      hide Topic.Ok, TopicsNamed, TopicsOk, PublishersListed, EntriesOk, TopicsIndexed, MirrorsTopics, MirrorsEntries;
      hide Topic.State, PlacesOf, SubInfos;
      var topic := GetOrCreateTopic(name);
      TopicAsState(topic);
      Unannounce(topic);
    }

    method NetworkSetValue(handle: nat, value: Value) returns (done: bool)
      requires Valid()
      modifies topics, this`topicStates
      ensures Valid() && Kept()
      ensures done == (handle < |old(State()).topics| && old(State()).topics[handle].Accepts(value))
      ensures State() == old(State()).NetworkValue(handle, value)
    {
      hide Topic.Ok, TopicsNamed, TopicsOk, PublishersListed, EntriesOk, TopicsIndexed, MirrorsTopics, MirrorsEntries;
      hide Topic.State, PlacesOf, SubInfos;
      TopicCount();
      if handle >= |topics| {
        return false;
      }
      TopicPlace(handle);
      TopicAsState(topics[handle]);
      done := StoreValue(topics[handle], value);
    }

    /** A network that starts is told the active publishers of every topic, and its last value once. */
    method StartNetwork()
      requires Valid()
      modifies this`network, this`sent
      ensures Valid() && Kept() && State() == old(State()).Started()
    {
      hide Topic.Ok, TopicsNamed, TopicsOk, PublishersListed, EntriesOk, TopicsIndexed, MirrorsTopics, MirrorsEntries;
      hide PlacesOf, SubInfos;
      TopicCount();
      network, sent := true, [];
      StartTopics();
    }

    method StartTopics()
      requires Valid() && network && sent == []
      modifies this`sent
      ensures Valid() && |topicStates| == |topics| && sent == StartSends(topicStates, |topics|)
    {
      hide Topic.Ok, TopicsNamed, TopicsOk, PublishersListed, EntriesOk, TopicsIndexed, MirrorsTopics, MirrorsEntries;
      hide Topic.State, TopicState.StartSends;
      TopicCount();
      for i := 0 to |topics|
        invariant Valid() && sent == StartSends(topicStates, i)
      {
        TopicPlace(i);
        TopicAsState(topics[i]);
        var sends := StartTopic(topics[i]);
        Tell(sends);
      }
    }

    lemma TopicActive(topic: Topic)
      requires TopicsOk() && Has(topic)
      ensures topic.ActiveIffFits()
    {
      assert topic.Ok();
    }

    method StartTopic(topic: Topic) returns (sends: seq<Message>)
      requires Valid() && Has(topic)
      ensures Valid() && sends == topic.State().StartSends()
    {
      hide Topic.Ok, TopicsNamed, TopicsOk, PublishersListed, EntriesOk, TopicsIndexed, MirrorsTopics, MirrorsEntries;
      TopicActive(topic);
      var any: Option<Publisher> := None;
      sends := [];
      for i := 0 to |topic.localPublishers|
        invariant sends == topic.State().StartPublishes(i)
        invariant topic.State().LastActive(i) == if any.Some? then Some(any.value.Info()) else None
      {
        var publisher := topic.localPublishers[i];
        assert topic.State().publishers[i] == publisher.Info();
        if publisher.active {
          sends := sends + [topic.PublishMessage(publisher)];
          any := Some(publisher);
        }
      }
      if any.Some? && topic.lastValue.Some? {
        sends := sends + [Message.SetValue(any.value.handle, topic.lastValue.value)];
      }
    }

    /** Losing the network unannounces every topic, and no one is told. */
    method ClearNetwork()
      requires Valid()
      modifies this`network, this`sent, this`topicStates, topics, Listed()
      ensures Valid() && Kept() && State() == old(State()).Cleared()
    {
      hide Topic.Ok, TopicsNamed, TopicsOk, PublishersListed, EntriesOk, TopicsIndexed, MirrorsTopics, MirrorsEntries;
      hide Topic.State, Kept, PlacesOf, SubInfos;
      NetworkOff();
      UnannounceAll();
      assert State().topics == old(State()).Cleared().topics;
      KeptIf();
    }

    method NetworkOff()
      requires Valid()
      modifies this`network
      ensures Valid() && !network && State() == old(State()).(network := false)
    {
      hide Topic.Ok, TopicsNamed, TopicsOk, PublishersListed, EntriesOk, TopicsIndexed, MirrorsTopics, MirrorsEntries;
      network := false;
    }

    method UnannounceAll()
      requires Valid() && !network
      modifies this`sent, this`topicStates, topics, Listed()
      ensures Valid() && (forall t :: t in old(topics) ==> t.Later() && t.Grown())
      ensures State() == old(State()).(topics := topicStates) && |topicStates| == |old(topicStates)|
      ensures forall i :: 0 <= i < |topicStates| ==> topicStates[i] == old(topicStates)[i].Unannounced()
    {
      hide Topic.Ok, TopicsNamed, TopicsOk, PublishersListed, EntriesOk, TopicsIndexed, MirrorsTopics, MirrorsEntries;
      hide Topic.State, PlacesOf, SubInfos;
      TopicCount();
      for i := 0 to |topics|
        invariant Valid() && |topicStates| == |topics|
        invariant sent == old(sent)
        invariant forall t :: t in old(topics) ==> t.Later() && t.localPublishers == old(t.localPublishers)
        invariant forall j :: 0 <= j < |topics|
                    ==> topicStates[j] == if j < i then old(topicStates)[j].Unannounced() else old(topicStates)[j]
      {
        TopicPlace(i);
        TopicAsState(topics[i]);
        Unannounce(topics[i]);
      }
    }

    twostate lemma KeptIf()
      requires topics == old(topics) && entries == old(entries)
      requires forall t :: t in old(topics) ==> t.Later() && t.Grown()
      ensures Kept()
    {
    }

    lemma TopicPlace(i: nat)
      requires TopicsNamed() && i < |topics|
      ensures Has(topics[i]) && topics[i].handle == i
    {
    }

    /** Publishes a topic, unless the type is missing or there are too many publishers. */
    method Publish(topicHandle: nat, ty: Option<NtType>, typeStr: string, options: Options)
      returns (handle: Option<nat>)
      requires Valid()
      modifies this`publishers, this`nextHandle, this`sent, this`topicStates, topics, Listed()
      ensures Valid() && Kept() && (handle.Some? <==> old(State()).CanPublish(topicHandle, ty, typeStr))
      ensures handle.Some? ==> handle.value !in old(publishers) && handle.value in publishers
      ensures handle.Some?
              ==> var p := publishers[handle.value];
                  && p.topic == topics[topicHandle] && Some(p.ty) == ty && p.typeStr == typeStr && p.owner == None
                  && publishers == old(publishers)[handle.value := p]
      ensures State() == old(State()).Published(topicHandle, ty, typeStr, options)
    {
      hide Topic.Ok, TopicsNamed, TopicsOk, PublishersListed, EntriesOk, TopicsIndexed, MirrorsTopics, MirrorsEntries;
      hide PlacesOf, SubInfos;
      TopicCount();
      if topicHandle >= |topics| || ty.None? || typeStr == "" {
        return None;
      }
      var topic := topics[topicHandle];
      TopicPlace(topicHandle);
      TopicAsState(topic);
      if |topic.localPublishers| >= MAX_PUBLISHERS {
        return None;
      }
      hide Topic.State;
      var publisher := AddLocalPublisher(topic, ty.value, typeStr, options, None);
      handle := Some(publisher.handle);
    }

    method GetEntry(topicHandle: nat, ty: Option<NtType>, typeStr: string, options: Options)
      returns (handle: Option<nat>)
      requires Valid()
      modifies this`entries, this`nextHandle, this`entryStates
      ensures Valid() && (handle.Some? <==> topicHandle < |topics|)
      ensures handle.Some? ==> handle.value in entries && handle.value !in old(entries)
      ensures handle.Some?
              ==> var e := entries[handle.value];
                  && entries == old(entries)[handle.value := e] && e.topic == topics[topicHandle]
                  && e.State() == EntryState(topicHandle, ty, typeStr, options, None)
      ensures handle.None? ==> entries == old(entries)
      ensures Kept() && State() == old(State()).WithEntry(topicHandle, ty, typeStr, options)
    {
      hide Topic.Ok, TopicsNamed, TopicsOk, PublishersListed, EntriesOk, TopicsIndexed, MirrorsTopics, MirrorsEntries;
      hide PlacesOf, SubInfos;
      TopicCount();
      if topicHandle >= |topics| {
        return None;
      }
      var entry := AddEntry(topicHandle, ty, typeStr, options);
      OtherEntriesMirrored(entry.handle);
      NoteEntry(entry.handle);
      handle := Some(entry.handle);
    }

    lemma TopicCount()
      requires MirrorsTopics()
      ensures |topicStates| == |topics|
    {
    }

    method AddEntry(topicHandle: nat, ty: Option<NtType>, typeStr: string, options: Options) returns (entry: Entry)
      requires Shaped() && topicHandle < |topics|
      modifies this`entries, this`nextHandle
      ensures Shaped() && fresh(entry) && entry.topic == topics[topicHandle] && entry.publisher == None
      ensures entry.handle == old(nextHandle) && entry.handle !in old(entries) && nextHandle == old(nextHandle) + 1
      ensures entries == old(entries)[entry.handle := entry]
      ensures entry.State() == EntryState(topicHandle, ty, typeStr, options, None)
    {
      hide Topic.Ok, TopicsNamed, TopicsOk, PublishersListed, EntriesOk, TopicsIndexed;
      TopicPlace(topicHandle);
      entry := new Entry(nextHandle, topics[topicHandle], ty, typeStr, options);
      entries := entries[nextHandle := entry];
      nextHandle := nextHandle + 1;
      EntryAdded(entry);
      ListsGrow();
      IndexStays();
      SettingsStay();
    }

    twostate lemma EntryAdded(new entry: Entry)
      requires old(EntriesOk()) && topics == old(topics) && publishers == old(publishers)
      requires entry.handle == old(nextHandle) && nextHandle == old(nextHandle) + 1
      requires entries == old(entries)[entry.handle := entry] && Has(entry.topic) && entry.publisher == None
      requires forall e :: e in old(entries.Values) ==> e.publisher == old(e.publisher)
      ensures EntriesOk() && entry.handle !in old(entries)
    {
      forall h | h in entries && h != entry.handle
        ensures entries[h].publisher == old(entries[h].publisher)
      {
        assert old(entries[h] in entries.Values);
      }
    }

    twostate lemma ListsGrow()
      requires old(PublishersListed()) && nextHandle >= old(nextHandle) && topics == old(topics)
               && publishers == old(publishers)
      requires forall t :: t in topics ==> t.localPublishers == old(t.localPublishers)
      ensures PublishersListed()
    {
      forall t, p | t in topics && p in t.localPublishers
        ensures Registered(p)
      {
        assert old(Registered(p));
      }
    }

    predicate HasEntry(entry: Entry)
      reads this`entries
    {
      entry.handle in entries && entries[entry.handle] == entry
    }

    lemma EntriesApart(entry: Entry)
      requires EntriesOk() && HasEntry(entry)
      ensures forall g :: g in entries && g != entry.handle ==> entries[g] != entry
    {
    }

    method PublishEntry(topic: Topic, entry: Entry, ty: NtType) returns (publisher: Option<Publisher>)
      requires Valid() && HasEntry(entry) && entry.topic == topic
      modifies this`publishers, this`nextHandle, this`sent, this`topicStates, this`entryStates, entry
      modifies topic`ty, topic`typeStr, topic`localPublishers, topic.localPublishers`active
      ensures Valid() && publisher == entry.publisher && (publisher.Some? <==> old(entry.State()).CanPublish(ty))
      ensures topic.Grown() && State() == old(State()).EntryPublished(entry.handle, ty)
    {
      hide Topic.Ok, TopicsNamed, TopicsOk, PublishersListed, EntriesOk, TopicsIndexed, MirrorsTopics, MirrorsEntries;
      hide Topic.State, PlacesOf, SubInfos, StoreState.WithPublisher;
      EntryAsState(entry.handle);
      if entry.publisher.Some? {
        return entry.publisher;
      }
      var ok := Configure(entry, ty);
      if !ok {
        return None;
      }
      EntryAsState(entry.handle);
      MakePublisher(topic, entry);
      publisher := entry.publisher;
    }

    /** The publisher of an entry whose type is settled. */
    method MakePublisher(topic: Topic, entry: Entry)
      requires Valid() && HasEntry(entry) && entry.topic == topic && entry.ty.Some? && entry.publisher == None
      modifies this`publishers, this`nextHandle, this`sent, this`topicStates, this`entryStates, entry`publisher
      modifies topic`ty, topic`typeStr, topic`localPublishers, topic.localPublishers`active
      ensures Valid() && entry.publisher.Some? && topic.Grown()
      ensures State() == old(State()).WithPublisher(entry.handle)
    {
      hide Topic.Ok, TopicsNamed, TopicsOk, PublishersListed, EntriesOk, TopicsIndexed, MirrorsTopics, MirrorsEntries;
      hide Topic.State, PlacesOf, SubInfos, StoreState.Added;
      EntryPlace(entry);
      EntryAsState(entry.handle);
      var p := AddLocalPublisher(topic, entry.ty.value, entry.typeStr, entry.options, Some(entry.handle));
      Hold(entry, p);
    }

    /** Settles the type an entry publishes as: its own cannot be changed, except to be set. */
    method Configure(entry: Entry, ty: NtType) returns (ok: bool)
      requires Valid() && HasEntry(entry) && entry.publisher == None
      modifies entry`ty, entry`typeStr, this`entryStates
      ensures Valid() && ok == old(entry.State()).CanPublish(ty) && (ok ==> entry.ty.Some?)
      ensures entry.State() == if ok then old(entry.State()).Configured(ty) else old(entry.State())
      ensures entryStates == old(entryStates)[entry.handle := entry.State()]
    {
      hide Topic.Ok, TopicsNamed, TopicsOk, PublishersListed, EntriesOk, TopicsIndexed, MirrorsTopics, MirrorsEntries;
      hide TypeToString;
      EntriesApart(entry);
      EntryAsState(entry.handle);
      var typeStr := TypeToString(ty);
      if entry.ty.None? {
        entry.ty := Some(ty);
        entry.typeStr := typeStr;
        OtherEntriesMirrored(entry.handle);
        NoteEntry(entry.handle);
      } else if entry.ty != Some(ty) || entry.typeStr != typeStr {
        ok := IsNumericCompatible(ty, entry.ty.value);
        return;
      }
      return true;
    }

    /** An entry takes hold of its publisher. */
    method Hold(entry: Entry, publisher: Publisher)
      requires Valid() && HasEntry(entry)
      requires Registered(publisher) && publisher.owner == Some(entry.handle) && publisher.topic == entry.topic
      modifies entry`publisher, this`entryStates
      ensures Valid() && entry.publisher == Some(publisher)
      ensures entryStates == old(entryStates)[entry.handle := entry.State()]
    {
      hide Topic.Ok, TopicsNamed, TopicsOk, PublishersListed, EntriesOk, TopicsIndexed, MirrorsTopics, MirrorsEntries;
      EntriesApart(entry);
      entry.publisher := Some(publisher);
      EntryPublished(entry, publisher);
      OtherEntriesMirrored(entry.handle);
      NoteEntry(entry.handle);
    }

    lemma EntryPlace(entry: Entry)
      requires EntriesOk() && HasEntry(entry)
      ensures Has(entry.topic)
      ensures entry.publisher.Some? ==> Registered(entry.publisher.value) && entry.publisher.value.topic == entry.topic
    {
    }

    twostate lemma EntryPublished(entry: Entry, new publisher: Publisher)
      requires old(Shaped()) && topics == old(topics) && nameTopics == old(nameTopics) && publishers == old(publishers)
      requires entries == old(entries) && multiSubscribers == old(multiSubscribers) && nextHandle == old(nextHandle)
      requires HasEntry(entry) && entry.publisher == Some(publisher)
      requires Registered(publisher) && publisher.owner == Some(entry.handle) && publisher.topic == entry.topic
      requires forall t :: t in topics ==> t.Same() && t.multiSubscribers == old(t.multiSubscribers)
      requires forall e :: e in entries.Values && e != entry ==> e.publisher == old(e.publisher)
      ensures Shaped()
    {
      hide Topic.Ok, TopicsNamed, TopicsOk, PublishersListed, TopicsIndexed;
      ListsGrow();
      IndexStays();
      SettingsStay();
      forall h | h in entries && entries[h] != entry
        ensures entries[h].publisher == old(entries[h].publisher)
      {
        assert entries[h] in entries.Values;
      }
    }

    /** The publisher behind a handle, made on demand for an entry. */
    method PublisherFor(handle: Handle, ty: NtType) returns (publisher: Option<Publisher>)
      requires Valid()
      modifies this`publishers, this`nextHandle, this`sent, this`topicStates, this`entryStates
      modifies topics`ty, topics`typeStr, topics`localPublishers, Listed(), entries.Values
      ensures Valid() && publisher == PublisherOf(handle)
      ensures forall t :: t in topics ==> t.Grown()
      ensures State() == old(State()).Ready(handle, ty)
    {
      hide Topic.Ok, TopicsNamed, TopicsOk, PublishersListed, EntriesOk, TopicsIndexed, MirrorsTopics, MirrorsEntries;
      hide Topic.State, PlacesOf, SubInfos;
      publisher := None;
      if handle.OfPublisher? && handle.n in publishers {
        publisher := Some(publishers[handle.n]);
      } else if handle.OfEntry? {
        EntryAsState(handle.n);
        if handle.n in entries {
          var entry := entries[handle.n];
          EntryAt(handle.n);
          EntryPlace(entry);
          publisher := PublishEntry(entry.topic, entry, ty);
        }
      }
    }

    lemma RegisteredAt(h: nat)
      requires PublishersListed() && h in publishers
      ensures Registered(publishers[h]) && publishers[h].handle == h
    {
    }

    lemma EntryAt(h: nat)
      requires EntriesOk() && h in entries
      ensures HasEntry(entries[h]) && entries[h].handle == h
    {
    }

    /** The topic a handle leads to. */
    function TopicOf(handle: Handle): Option<Topic>
      reads this`topics, this`publishers, this`entries
    {
      match handle
      case OfTopic(n) => if n < |topics| then Some(topics[n]) else None
      case OfPublisher(n) => if n in publishers then Some(publishers[n].topic) else None
      case OfEntry(n) => if n in entries then Some(entries[n].topic) else None
    }

    /** The publisher a handle speaks through. */
    function PublisherOf(handle: Handle): Option<Publisher>
      reads this`publishers, this`entries, entries.Values`publisher
    {
      match handle
      case OfTopic(n) => None
      case OfPublisher(n) => if n in publishers then Some(publishers[n]) else None
      case OfEntry(n) => if n in entries then entries[n].publisher else None
    }

    /** The publisher a handle speaks through, in the value of the store. */
    lemma PublisherAsState(handle: Handle)
      requires Shaped() && MirrorsEntries()
      ensures PublisherOf(handle).Some? ==> Registered(PublisherOf(handle).value)
      ensures State().PublisherOf(handle)
           == if PublisherOf(handle).Some? then Some(PublisherOf(handle).value.Place()) else None
    {
      hide Topic.Ok, TopicsNamed, TopicsOk, TopicsIndexed;
      match handle
      case OfTopic(_) =>
      case OfPublisher(n) =>
        if n in publishers {
          RegisteredAt(n);
        }
      case OfEntry(n) =>
        EntryAsState(n);
        if n in entries {
          EntryAt(n);
          EntryPlace(entries[n]);
        }
    }

    lemma TopicOfAsState(handle: Handle)
      requires Shaped() && MirrorsTopics() && MirrorsEntries()
      ensures TopicOf(handle).Some? ==> Has(TopicOf(handle).value)
      ensures State().TopicOf(handle) == if TopicOf(handle).Some? then Some(TopicOf(handle).value.handle) else None
    {
      match handle
      case OfTopic(n) =>
        if n < |topics| {
          TopicPlace(n);
        }
      case OfPublisher(n) =>
        if n in publishers {
          RegisteredAt(n);
          PublisherPlace(publishers[n]);
        }
      case OfEntry(n) =>
        EntryAsState(n);
        if n in entries {
          EntryAt(n);
          EntryPlace(entries[n]);
        }
    }

    /** A value goes through to the topic iff there is an active publisher for it and its type suits. */
    method SetEntryValue(handle: Handle, value: Option<Value>) returns (done: bool)
      requires Valid()
      modifies this`publishers, this`nextHandle, this`sent, this`topicStates, this`entryStates
      modifies topics, Listed(), entries.Values
      ensures Valid() && Kept() && done == old(State()).Sets(handle, value)
      ensures State() == old(State()).Set(handle, value)
    {
      hide Topic.Ok, TopicsNamed, TopicsOk, PublishersListed, EntriesOk, TopicsIndexed, MirrorsTopics, MirrorsEntries;
      hide Topic.State, State, PlacesOf, SubInfos, Kept, StoreState.Ready, StoreState.Given, TopicState.Hears;
      if value.None? {
        KeptIf();
        return false;
      }
      var publisher := PublisherFor(handle, value.value.ty);
      PublisherAsState(handle);
      if publisher.None? {
        KeptIf();
        return false;
      }
      done := Give(publisher.value, value.value, false);
      KeptIf();
    }

    /** A registered publisher hands a value to its topic. */
    method Give(publisher: Publisher, value: Value, force: bool) returns (done: bool)
      requires Valid() && Registered(publisher)
      modifies this`sent, this`topicStates, topics`lastValue, topics`lastValueNetwork, topics`ty, topics`accepted
      ensures Valid() && State() == old(State()).Given(publisher.Place(), value, force)
      ensures publisher.topic.handle < |old(State()).topics|
      ensures done == old(State()).topics[publisher.topic.handle].Hears(publisher.Info(), value)
      ensures forall t :: t in old(topics) ==> old(t.accepted) <= t.accepted
    {
      hide Topic.Ok, TopicsNamed, TopicsOk, PublishersListed, EntriesOk, TopicsIndexed, MirrorsTopics, MirrorsEntries;
      hide Topic.State, PlacesOf, SubInfos;
      PublisherPlace(publisher);
      TopicAsState(publisher.topic);
      done := PublishValue(publisher.topic, publisher, value, force);
    }

    /** The objects of the store. */
    ghost function Parts(): set<object>
      reads this`topics, this`entries, topics`localPublishers
    {
      var ts: set<object> := set t: Topic | t in topics;
      var ps: set<object> := Listed();
      var es: set<object> := entries.Values;
      ts + ps + es
    }

    twostate lemma PartsGrown()
      requires Kept()
      ensures fresh(Parts() - old(Parts()))
    {
      forall p | p in Listed()
        ensures p in old(Listed()) || fresh(p)
      {
        var t :| t in topics && p in t.localPublishers;
        if t in old(topics) {
          assert t.Grown();
        }
      }
    }

    /** Gives a topic without a value its first one, at time zero. */
    method SetDefaultEntryValue(handle: Handle, value: Option<Value>) returns (done: bool)
      requires Valid()
      modifies this`publishers, this`nextHandle, this`sent, this`topicStates, this`entryStates
      modifies topics, Listed(), entries.Values
      ensures Valid() && Kept() && done == old(State()).SetsDefault(handle, value)
      ensures State() == old(State()).SetDefault(handle, value)
    {
      hide Topic.Ok, TopicsNamed, TopicsOk, PublishersListed, EntriesOk, TopicsIndexed, MirrorsTopics, MirrorsEntries;
      hide Topic.State, State, PlacesOf, SubInfos, Kept, Topic.Suits, TopicState.TakesDefault;
      hide StoreState.Ready, StoreState.Default;
      TopicOfAsState(handle);
      if value.None? || TopicOf(handle).None? {
        KeptIf();
        return false;
      }
      var topic := TopicOf(handle).value;
      TopicAsState(topic);
      TakesDefaultHere(topic, value.value);
      if topic.lastValue.Some? || !(topic.ty.None? || topic.Suits(value.value.ty)) {
        KeptIf();
        return false;
      }
      DefaultThrough(topic, handle, value.value);
      KeptIf();
      return true;
    }

    /** Publishes if that has not been done yet, and then stores the value. */
    method DefaultThrough(topic: Topic, handle: Handle, value: Value)
      requires Valid() && Has(topic) && topic.lastValue.None?
      modifies this`publishers, this`nextHandle, this`sent, this`topicStates, this`entryStates
      modifies topics`ty, topics`typeStr, topics`localPublishers, topics`lastValue, topics`lastValueNetwork
      modifies topics`accepted
      modifies Listed(), entries.Values
      ensures Valid() && forall t :: t in old(topics) ==> t.Later() && t.Grown()
      ensures var s := old(State()).Ready(handle, value.ty);
              State() == s.Default(topic.handle, s.PublisherOf(handle), value)
    {
      hide Topic.Ok, TopicsNamed, TopicsOk, PublishersListed, EntriesOk, TopicsIndexed, MirrorsTopics, MirrorsEntries;
      hide Topic.State, State, PlacesOf, SubInfos, StoreState.Ready, StoreState.Default;
      var publisher := PublisherFor(handle, value.ty);
      PublisherAsState(handle);
      Default(topic, publisher, value);
    }

    lemma TakesDefaultHere(topic: Topic, value: Value)
      requires MirrorsTopics() && Has(topic)
      ensures topic.handle < |State().topics| && State().topics[topic.handle] == topic.State()
      ensures topic.State().TakesDefault(value) <==> topic.lastValue.None? && (topic.ty.None? || topic.Suits(value.ty))
    {
    }

    lemma TopicFields(topic: Topic)
      ensures topic.State().lastValue == topic.lastValue && topic.State().ty == topic.ty
      ensures topic.State().accepted == topic.accepted
    {
    }

    /** The first value of a topic is stored, and then handed over by the publisher at hand. */
    method Default(topic: Topic, publisher: Option<Publisher>, value: Value)
      requires Valid() && Has(topic) && topic.lastValue.None? && (publisher.Some? ==> Registered(publisher.value))
      modifies this`sent, this`topicStates, topics`lastValue, topics`lastValueNetwork, topics`ty, topics`accepted
      ensures Valid() && forall t :: t in old(topics) ==> old(t.accepted) <= t.accepted
      ensures var p := if publisher.Some? then Some(publisher.value.Place()) else None;
              State() == old(State()).Default(topic.handle, p, value)
    {
      hide Topic.Ok, TopicsNamed, TopicsOk, PublishersListed, EntriesOk, TopicsIndexed, MirrorsTopics, MirrorsEntries;
      hide Topic.State, PlacesOf, SubInfos;
      TopicAsState(topic);
      TopicFields(topic);
      var stored := StoreDefault(topic, value);
      TopicFields(topic);
      if stored && publisher.Some? {
        var _ := Give(publisher.value, topic.lastValue.value, true);
      }
    }

    /**
     * Unpublishes.  The handle of an entry's own publisher is not given out, so a caller
     * names that publisher through the entry.
     */
    method Unpublish(handle: Handle)
      requires Valid() && (handle.OfPublisher? && handle.n in publishers ==> publishers[handle.n].owner == None)
      modifies this`publishers, this`sent, this`topicStates, this`entryStates, topics, Listed(), entries.Values
      ensures Valid() && Kept() && State() == old(State()).Unpublished(handle)
    {
      hide Topic.Ok, TopicsNamed, TopicsOk, PublishersListed, EntriesOk, TopicsIndexed, MirrorsTopics, MirrorsEntries;
      hide Topic.State, PlacesOf, SubInfos, Unheld;
      if handle.OfPublisher? {
        PlaceAt(handle.n);
        if handle.n in publishers {
          var publisher := publishers[handle.n];
          RegisteredAt(handle.n);
          PublisherPlace(publisher);
          UnheldUnlessOwned(publisher);
          RemoveLocalPublisher(publisher.topic, publisher);
        }
      } else if handle.OfEntry? {
        EntryAsState(handle.n);
        if handle.n in entries {
          EntryAt(handle.n);
          DropPublisher(entries[handle.n]);
        }
      }
    }

    lemma PlaceAt(h: nat)
      ensures h in State().publishers <==> h in publishers
      ensures h in publishers ==> State().publishers[h] == publishers[h].Place()
    {
    }

    /** An entry lets go of its publisher, if it has one, which is taken out. */
    method DropPublisher(entry: Entry)
      requires Valid() && HasEntry(entry)
      modifies this`publishers, this`sent, this`topicStates, this`entryStates, topics, Listed(), entry`publisher
      ensures Valid() && entry.publisher == None && State() == old(State()).LetGo(entry.handle)
      ensures forall t :: t in old(topics) ==> t.Later() && t.Grown()
    {
      hide Topic.Ok, TopicsNamed, TopicsOk, PublishersListed, EntriesOk, TopicsIndexed, MirrorsTopics, MirrorsEntries;
      hide Topic.State, PlacesOf, SubInfos, Unheld;
      EntryAsState(entry.handle);
      if entry.publisher.Some? {
        EntryPlace(entry);
        var publisher := entry.publisher.value;
        PublisherPlace(publisher);
        LetGo(entry);
        RemoveLocalPublisher(publisher.topic, publisher);
      }
    }

    lemma UnheldUnlessOwned(publisher: Publisher)
      requires EntriesOk() && publisher.owner == None
      ensures Unheld(publisher)
    {
      forall e | e in entries.Values
        ensures e.publisher != Some(publisher)
      {
        var h :| h in entries && entries[h] == e;
      }
    }

    /** An entry lets go of its publisher, which no other entry holds. */
    method LetGo(entry: Entry)
      requires Valid() && HasEntry(entry) && entry.publisher.Some?
      modifies entry`publisher, this`entryStates
      ensures Valid() && entry.publisher == None && Unheld(old(entry.publisher.value))
      ensures entryStates == old(entryStates)[entry.handle := old(entry.State()).(publisher := None)]
    {
      hide Topic.Ok, TopicsNamed, TopicsOk, PublishersListed, EntriesOk, TopicsIndexed, MirrorsTopics, MirrorsEntries;
      hide PlacesOf, SubInfos, Unheld;
      EntriesApart(entry);
      ClearPublisher(entry);
      OtherEntriesMirrored(entry.handle);
      NoteEntry(entry.handle);
    }

    method ClearPublisher(entry: Entry)
      requires Shaped() && HasEntry(entry) && entry.publisher.Some?
      modifies entry`publisher
      ensures Shaped() && entry.publisher == None && Unheld(old(entry.publisher.value))
    {
      hide Topic.Ok, TopicsNamed, TopicsOk, PublishersListed, EntriesOk, TopicsIndexed, Unheld;
      entry.publisher := None;
      EntryCleared(entry);
      ListsGrow();
      IndexStays();
      SettingsStay();
    }

    twostate lemma EntryCleared(entry: Entry)
      requires old(EntriesOk() && HasEntry(entry) && entry.publisher.Some?)
      requires topics == old(topics) && publishers == old(publishers) && entries == old(entries)
      requires nextHandle == old(nextHandle) && entry.publisher == None
      requires forall e :: e in entries.Values && e != entry ==> e.publisher == old(e.publisher)
      ensures EntriesOk() && Unheld(old(entry.publisher.value))
    {
      forall e | e in entries.Values && e != entry
        ensures e.publisher != old(entry.publisher)
      {
        var h :| h in entries && entries[h] == e;
        assert old(entries[h].handle) == h;
      }
      forall h | h in entries && entries[h] != entry
        ensures entries[h].publisher == old(entries[h].publisher)
      {
        assert entries[h] in entries.Values;
      }
    }

    method ReleaseEntry(h: nat)
      requires Valid()
      modifies this`entries, this`publishers, this`sent, this`topicStates, this`entryStates, topics, Listed()
      modifies entries.Values
      ensures Valid() && Kept() && entries == old(entries) - {h} && State() == old(State()).Released(h)
    {
      hide Topic.Ok, TopicsNamed, TopicsOk, PublishersListed, EntriesOk, TopicsIndexed, MirrorsTopics, MirrorsEntries;
      hide Topic.State, PlacesOf, SubInfos, Unheld;
      EntryAsState(h);
      if h in entries {
        EntryAt(h);
        DropPublisher(entries[h]);
        RemoveEntry(h);
      }
    }

    method RemoveEntry(h: nat)
      requires Valid() && h in entries
      modifies this`entries, this`entryStates
      ensures Valid() && entries == old(entries) - {h} && entryStates == old(entryStates) - {h}
    {
      hide Topic.Ok, TopicsNamed, TopicsOk, PublishersListed, EntriesOk, TopicsIndexed, MirrorsTopics, MirrorsEntries;
      hide PlacesOf, SubInfos;
      Forget(h);
      OtherEntriesMirrored(h);
      NoteEntry(h);
    }

    method Forget(h: nat)
      requires Shaped() && h in entries
      modifies this`entries
      ensures Shaped() && entries == old(entries) - {h}
    {
      hide Topic.Ok, TopicsNamed, TopicsOk, PublishersListed, TopicsIndexed;
      entries := entries - {h};
      ListsGrow();
      IndexStays();
      SettingsStay();
    }

    method SubscribeMultiple(prefixes: seq<string>) returns (handle: Option<nat>)
      requires Valid()
      modifies this`multiSubscribers, this`nextHandle, topics
      ensures Valid() && Kept() && (handle.Some? <==> |old(multiSubscribers)| < MAX_MULTI_SUBSCRIBERS)
      ensures handle.Some?
              ==> exists m :: m in multiSubscribers && m.handle == handle.value && m.prefixes == prefixes
      ensures old(multiSubscribers) <= multiSubscribers && State() == old(State()).Subscribed(prefixes)
    {
      assert |SubInfos(multiSubscribers)| == |multiSubscribers|;
      if |multiSubscribers| >= MAX_MULTI_SUBSCRIBERS {
        KeptIf();
        return None;
      }
      hide Topic.Ok, TopicsNamed, TopicsOk, PublishersListed, EntriesOk, TopicsIndexed, MirrorsTopics, MirrorsEntries;
      hide PlacesOf, SubInfos, Kept;
      var sub := AddMultiSubscriber(prefixes);
      SubInfosPush(old(multiSubscribers), sub);
      assert sub in multiSubscribers;
      KeptIf();
      return Some(sub.handle);
    }

    method UnsubscribeMultiple(handle: nat) returns (found: bool)
      requires Valid()
      modifies this`multiSubscribers, topics
      ensures Valid() && Kept() && found == exists m :: m in old(multiSubscribers) && m.handle == handle
      ensures State() == old(State()).Unsubscribed(handle)
    {
      hide Topic.Ok, TopicsNamed, TopicsOk, PublishersListed, EntriesOk, TopicsIndexed, MirrorsTopics, MirrorsEntries;
      hide PlacesOf, SubInfos, Kept;
      found := RemoveMultiSubscriber(handle);
      KeptIf();
    }
  }

  lemma {:induction false} DistinctOnce(s: seq<MultiSubscriber>, x: MultiSubscriber)
    requires forall i, j :: 0 <= i < j < |s| ==> s[i] != s[j]
    ensures multiset(s)[x] == if x in s then 1 else 0
  {
    if s != [] {
      var n := |s| - 1;
      DistinctOnce(s[..n], x);
      assert s == s[..n] + [s[n]];
    }
  }

  method Perform(store: LSImpl, op: Op)
    requires store.Valid()
    modifies store, store.Parts()
    ensures store.Valid() && store.Kept() && store.State() == After(old(store.State()), op)
  {
    hide Topic.Ok, LSImpl.TopicsNamed, LSImpl.TopicsOk, LSImpl.PublishersListed, LSImpl.EntriesOk, LSImpl.TopicsIndexed;
    hide LSImpl.MirrorsTopics, LSImpl.MirrorsEntries, LSImpl.State, LSImpl.Kept;
    hide StoreState.Created, StoreState.Announced, StoreState.Unannounced, StoreState.NetworkValue, StoreState.Cleared;
    hide StoreState.Published, StoreState.WithEntry, StoreState.Released, StoreState.Set, StoreState.SetDefault;
    hide StoreState.Subscribed, StoreState.Unsubscribed, StoreState.Removed, StoreState.LetGo;
    match op
    case DoGetTopic(name) => var _ := store.GetOrCreateTopic(name);
    case DoAnnounce(name, typeStr, ack) => var _ := store.NetworkAnnounce(name, typeStr, ack);
    case DoUnannounce(name) => store.NetworkUnannounce(name);
    case DoNetworkValue(topic, value) => var _ := store.NetworkSetValue(topic, value);
    case DoStartNetwork => store.StartNetwork();
    case DoClearNetwork => store.ClearNetwork();
    case DoPublish(topic, ty, typeStr, options) => var _ := store.Publish(topic, ty, typeStr, options);
    case DoUnpublish(handle) =>
      store.PlaceAt(handle.n);
      if !(handle.OfPublisher? && handle.n in store.publishers) || store.publishers[handle.n].owner == None {
        store.Unpublish(handle);
      } else {
        store.KeptIf();
      }
    case DoGetEntry(topic, ty, typeStr, options) => var _ := store.GetEntry(topic, ty, typeStr, options);
    case DoReleaseEntry(entry) => store.ReleaseEntry(entry);
    case DoSet(handle, input) => var _ := store.SetEntryValue(handle, input);
    case DoSetDefault(handle, input) => var _ := store.SetDefaultEntryValue(handle, input);
    case DoSubscribe(prefixes) => var _ := store.SubscribeMultiple(prefixes);
    case DoUnsubscribe(sub) => var _ := store.UnsubscribeMultiple(sub);
  }

  /** Every sequence of calls keeps the store valid and each topic's values in order, and does what the calls say. */
  method RunSchedule(store: LSImpl, ops: seq<Op>)
    requires store.Valid()
    modifies store, store.Parts()
    ensures store.Valid() && store.Kept() && store.State() == AfterAll(old(store.State()), ops)
  {
    hide Topic.Ok, LSImpl.TopicsNamed, LSImpl.TopicsOk, LSImpl.PublishersListed, LSImpl.EntriesOk, LSImpl.TopicsIndexed;
    hide LSImpl.MirrorsTopics, LSImpl.MirrorsEntries, LSImpl.State, After, AfterAll;
    AfterNone(store.State());
    for i := 0 to |ops|
      invariant store.Valid() && store.Kept() && store.State() == AfterAll(old(store.State()), ops[..i])
    {
      AfterPush(old(store.State()), ops, i);
      store.PartsGrown();
      label before:
      Perform(store, ops[i]);
      forall t | t in old(store.topics)
        ensures t.Later() && t.Grown()
      {
        assert t in old@before(store.topics);
        assert t.Later@before() && t.Grown@before();
      }
      forall t, p | t in store.topics && t !in old(store.topics) && p in t.localPublishers
        ensures fresh(t) && fresh(p)
      {
        if t in old@before(store.topics) {
          assert t.Grown@before();
        }
      }
    }
    assert ops[..|ops|] == ops;
  }

  lemma IndexedErase(listed: seq<MultiSubscriber>, live: seq<MultiSubscriber>, sub: MultiSubscriber, name: string)
    requires Indexed(listed, live, name)
    ensures Indexed(Erase(listed, sub), Erase(live, sub), name)
  {
    EraseMembers(listed, sub);
    EraseMembers(live, sub);
    EraseDistinct(listed, sub);
    hide Erase;
    forall m | m in Erase(listed, sub)
      ensures m in Erase(live, sub) && Matches(m.prefixes, name)
    {
      assert m in listed;
    }
    forall m | m in Erase(live, sub) && Matches(m.prefixes, name)
      ensures m in Erase(listed, sub)
    {
      assert m in live;
    }
  }

  lemma IndexedPush(listed: seq<MultiSubscriber>, live: seq<MultiSubscriber>, sub: MultiSubscriber, name: string)
    requires Indexed(listed, live, name) && sub !in live
    ensures Indexed(if Matches(sub.prefixes, name) then listed + [sub] else listed, live + [sub], name)
  {
  }
}
