/** Topics of the local store, their publishers and their values. */
module LocalStorageTopic {
  import opened Wrappers
  import opened LocalStorageTypes
  import opened ClientProtocol
  import opened LocalStorageState

  /** A vector used as a set: removal takes out every copy. */
  function Erase<T(==)>(s: seq<T>, x: T): seq<T> {
    if s == [] then [] else
      var rest := Erase(s[..|s| - 1], x);
      if s[|s| - 1] == x then rest else rest + [s[|s| - 1]]
  }

  class MultiSubscriber {
    const handle: nat
    const prefixes: seq<string>

    constructor (handle: nat, prefixes: seq<string>)
      ensures this.handle == handle && this.prefixes == prefixes
    {
      this.handle, this.prefixes := handle, prefixes;
    }
  }

  class Publisher {
    const handle: nat
    const topic: Topic
    const ty: NtType
    const typeStr: string
    const options: Options

    // the entry it was made for, if any: such a publisher's handle is not given out
    const owner: Option<nat>

    var active: bool

    constructor (handle: nat, topic: Topic, ty: NtType, typeStr: string, options: Options, owner: Option<nat>)
      ensures this.topic == topic && Info() == PublisherInfo(handle, ty, typeStr, options, owner) && !active
    {
      this.handle, this.topic, this.ty, this.typeStr := handle, topic, ty, typeStr;
      this.options, this.owner := options, owner;
      active := false;
    }

    function Place(): Placed {
      Placed(topic.handle, Info())
    }

    function Info(): PublisherInfo {
      PublisherInfo(handle, ty, typeStr, options, owner)
    }

    predicate Fits(ty: Option<NtType>, typeStr: string) {
      Some(this.ty) == ty && this.typeStr == typeStr
    }

    method UpdateActive()
      modifies this`active
      ensures active == Fits(topic.ty, topic.typeStr)
    {
      active := Some(ty) == topic.ty && typeStr == topic.typeStr;
    }
  }

  function Infos(publishers: seq<Publisher>): seq<PublisherInfo> {
    seq(|publishers|, i requires 0 <= i < |publishers| => publishers[i].Info())
  }

  /** Where handles are distinct, taking out a publisher takes out its handle. */
  lemma {:induction false} InfosDropped(publishers: seq<Publisher>, p: Publisher)
    requires forall q :: q in publishers && q.handle == p.handle ==> q == p
    ensures Infos(Erase(publishers, p)) == Dropped(Infos(publishers), p.handle)
  {
    if publishers != [] {
      var n := |publishers| - 1;
      assert Infos(publishers)[..n] == Infos(publishers[..n]);
      InfosDropped(publishers[..n], p);
      var rest := Erase(publishers[..n], p);
      assert Infos(rest + [publishers[n]]) == Infos(rest) + [publishers[n].Info()];
    }
  }

  lemma {:induction false} EraseMembers<T>(s: seq<T>, x: T)
    ensures forall y :: y in Erase(s, x) ==> y in s && y != x
    ensures forall y :: y in s && y != x ==> y in Erase(s, x)
  {
    if s != [] {
      var n := |s| - 1;
      EraseMembers(s[..n], x);
      assert s == s[..n] + [s[n]];
    }
  }

  lemma {:induction false} EraseDistinct<T>(s: seq<T>, x: T)
    requires forall i, j :: 0 <= i < j < |s| ==> s[i] != s[j]
    ensures forall i, j :: 0 <= i < j < |Erase(s, x)| ==> Erase(s, x)[i] != Erase(s, x)[j]
  {
    if s != [] {
      var n := |s| - 1;
      var rest := Erase(s[..n], x);
      EraseDistinct(s[..n], x);
      EraseMembers(s[..n], x);
      assert s[n] !in s[..n];
      assert forall i :: 0 <= i < |rest| ==> rest[i] in rest;
    }
  }

  /** What a topic's type and publishers always satisfy. */
  ghost predicate Sound(onNetwork: bool, ty: Option<NtType>, typeStr: string, pubs: seq<Publisher>) {
    && (onNetwork || pubs != [] ==> ty.Some?)
    && (!onNetwork && pubs != [] ==> exists i :: 0 <= i < |pubs| && pubs[i].Fits(ty, typeStr))
    && (forall i, j :: 0 <= i < j < |pubs| ==> pubs[i] != pubs[j])
  }

  class Topic {
    const handle: nat
    const name: string
    const special: bool

    var lastValue: Option<Value>
    var lastValueNetwork: Option<Value>
    var ty: Option<NtType>
    var typeStr: string
    var onNetwork: bool
    var localPublishers: seq<Publisher>
    var multiSubscribers: seq<MultiSubscriber>

    // the values accepted since the last reset, a default at time zero
    ghost var accepted: seq<Value>
    ghost var resets: nat

    constructor (handle: nat, name: string)
      ensures this.handle == handle && this.name == name && special == IsSpecial(name) && multiSubscribers == []
      ensures Fresh() && Ok() && State() == NewTopic(handle, name)
    {
      this.handle, this.name, special := handle, name, IsSpecial(name);
      lastValueNetwork := None;
      lastValue, ty, typeStr, onNetwork, localPublishers, multiSubscribers := None, None, "", false, [], [];
      accepted, resets := [], 0;
    }

    ghost function State(): TopicState
      reads this`lastValue, this`lastValueNetwork, this`ty, this`typeStr, this`onNetwork, this`localPublishers
      reads this`accepted, this`resets
    {
      TopicState(handle, name, ty, typeStr, onNetwork, Infos(localPublishers), lastValue, lastValueNetwork, accepted,
                 resets)
    }

    function PublishMessage(p: Publisher): (m: Message)
      reads this
      ensures m == State().Publishing(p.Info())
    {
      Publish(p.handle, TopicRef(handle, name, typeStr), p.options)
    }

    /** Since an earlier moment the topic was reset, or has only accepted more. */
    twostate predicate Later()
      reads this`accepted, this`resets
    {
      old(resets) <= resets && (old(resets) == resets ==> old(accepted) <= accepted)
    }

    /** Listed publishers were listed before, or are new. */
    twostate predicate Grown()
      reads this`localPublishers
    {
      forall p :: p in localPublishers ==> p in old(localPublishers) || fresh(p)
    }

    /** The topic's type, or a number of another kind. */
    predicate Suits(ty: NtType)
      reads this`ty
    {
      this.ty.Some? && (this.ty == Some(ty) || IsNumericCompatible(this.ty.value, ty))
    }

    twostate predicate SameValue()
      reads this`accepted, this`lastValue, this`resets
    {
      accepted == old(accepted) && lastValue == old(lastValue) && resets == old(resets)
    }

    twostate predicate SameType()
      reads this`ty, this`typeStr
    {
      ty == old(ty) && typeStr == old(typeStr)
    }

    /** Nothing but the list of multi-subscribers has changed. */
    twostate predicate SameFields()
      reads this
    {
      SameType() && SameValue() && onNetwork == old(onNetwork) && localPublishers == old(localPublishers)
    }

    twostate predicate Same()
      reads this, localPublishers`active
    {
      && SameFields()
      && forall i :: 0 <= i < |localPublishers| ==> localPublishers[i].active == old(localPublishers[i].active)
    }

    predicate Exists()
      reads this`onNetwork, this`localPublishers
    {
      onNetwork || localPublishers != []
    }

    /** The type is that of the first local publisher, if there is one. */
    ghost predicate FollowsFirst()
      reads this`ty, this`typeStr, this`localPublishers
    {
      localPublishers != [] ==> ty == Some(localPublishers[0].ty) && typeStr == localPublishers[0].typeStr
    }

    /** Without type and value, as after a reset. */
    ghost predicate Fresh()
      reads this`lastValue, this`ty, this`typeStr, this`accepted
    {
      lastValue == None && ty == None && typeStr == "" && accepted == []
    }

    /** Each listed publisher belongs here, and is active iff it has the topic's type. */
    ghost predicate ActiveIffFits()
      reads this`ty, this`typeStr, this`localPublishers, localPublishers`active
    {
      forall i :: 0 <= i < |localPublishers|
        ==> localPublishers[i].topic == this && localPublishers[i].active == localPublishers[i].Fits(ty, typeStr)
    }

    ghost predicate ValueOk()
      reads this`lastValue, this`accepted, this`ty
    {
      && (Timed(accepted) ==> Newest(accepted, lastValue))
      && (lastValue.None? <==> accepted == [])
      && (lastValue.Some? ==> ty.Some?)
    }

    ghost predicate Ok()
      reads this`onNetwork, this`ty, this`typeStr, this`lastValue, this`accepted, this`localPublishers
      reads localPublishers`active
    {
      Sound(onNetwork, ty, typeStr, localPublishers) && ActiveIffFits() && ValueOk()
      && (!Exists() && lastValue.None? ==> Fresh())
    }

    method RefreshPubSubActive()
      requires forall i :: 0 <= i < |localPublishers| ==> localPublishers[i].topic == this
      modifies localPublishers`active
      ensures ActiveIffFits()
    {
      for i := 0 to |localPublishers|
        invariant forall j :: 0 <= j < i ==> localPublishers[j].active == localPublishers[j].Fits(ty, typeStr)
      {
        localPublishers[i].UpdateActive();
      }
    }

    method CheckReset()
      requires Ok() || !Exists()
      modifies this`lastValue, this`lastValueNetwork, this`ty, this`typeStr, this`accepted, this`resets
      ensures State() == if Exists() then old(State()) else old(State()).Reset()
      ensures !Exists() ==> Fresh() && Ok()
    {
      if Exists() {
        return;
      }
      lastValue := None;
      lastValueNetwork := None;
      ty := None;
      typeStr := "";
      accepted, resets := [], resets + 1;
    }

    /** A network publisher appears, and always sets the type; an ack of our own changes nothing. */
    method NetworkAnnounce(typeStr: string, ack: bool)
      requires Ok()
      modifies this`onNetwork, this`ty, this`typeStr, localPublishers`active
      ensures Ok() && State() == if ack then old(State()) else old(State()).Announced(typeStr)
    {
      if ack {
        return;
      }
      onNetwork := true;
      var newType := StringToType(typeStr);
      if ty != Some(newType) || this.typeStr != typeStr {
        ty := Some(newType);
        this.typeStr := typeStr;
        RefreshPubSubActive();
      }
    }

    /** Makes the topic's type that of its first publisher, which is to be published when that is another. */
    method Readopt() returns (next: Option<Publisher>)
      requires localPublishers != [] && ActiveIffFits() && ValueOk()
      requires forall i, j :: 0 <= i < j < |localPublishers| ==> localPublishers[i] != localPublishers[j]
      modifies this`ty, this`typeStr, localPublishers`active
      ensures Ok() && State() == old(State()).Retyped() && localPublishers[0].active
      ensures next == if old(State()).Republishing() == [] then None else Some(localPublishers[0])
    {
      var first := localPublishers[0];
      next := None;
      if Some(first.ty) != ty || first.typeStr != typeStr {
        ty := Some(first.ty);
        typeStr := first.typeStr;
        RefreshPubSubActive();
        next := Some(first);
      }
      assert localPublishers[0].Fits(ty, typeStr);
    }

    /**
     * The network publishers are gone: the first local publisher, if any, sets the type, and
     * is to be published again if that is another.
     */
    method RemoveNetworkPublisher() returns (sends: seq<Message>)
      requires Ok()
      modifies this`onNetwork, this`ty, this`typeStr, this`lastValue, this`lastValueNetwork, this`accepted, this`resets
      modifies localPublishers`active
      ensures Ok() && Later() && FollowsFirst() && State() == old(State()).Unannounced()
      ensures sends == old(State()).Republishing()
    {
      var didExist := Exists();
      onNetwork := false;
      if didExist && !Exists() {
        CheckReset();
      }
      sends := [];
      if localPublishers != [] {
        var next := Readopt();
        if next.Some? {
          sends := [PublishMessage(next.value)];
        }
      }
    }

    /** The first publisher sets the type of a topic that did not exist. */
    method AddLocalPublisher(handle: nat, ty: NtType, typeStr: string, options: Options, owner: Option<nat>)
      returns (publisher: Publisher)
      requires Ok()
      modifies this`ty, this`typeStr, this`localPublishers, localPublishers`active
      ensures Ok() && fresh(publisher) && localPublishers == old(localPublishers) + [publisher]
      ensures publisher.topic == this && publisher.Info() == PublisherInfo(handle, ty, typeStr, options, owner)
      ensures State() == old(State()).With(publisher.Info()) && publisher.active == State().Active(publisher.Info())
    {
      var didExist := Exists();
      publisher := new Publisher(handle, this, ty, typeStr, options, owner);
      localPublishers := localPublishers + [publisher];
      assert Infos(localPublishers) == Infos(old(localPublishers)) + [publisher.Info()];
      if !didExist {
        this.ty := Some(ty);
        this.typeStr := typeStr;
        RefreshPubSubActive();
        assert localPublishers[0].Fits(this.ty, this.typeStr);
      } else {
        publisher.UpdateActive();
        assert !onNetwork ==>
                 exists i :: 0 <= i < |localPublishers| && localPublishers[i].Fits(this.ty, this.typeStr) by {
          if !onNetwork {
            var i :| 0 <= i < |old(localPublishers)| && old(localPublishers)[i].Fits(this.ty, this.typeStr);
            assert localPublishers[i].Fits(this.ty, this.typeStr);
          }
        }
      }
    }

    /**
     * When an active publisher leaves, the first of the others sets the type; when the last
     * one leaves a topic that is not on the network, the topic is reset.
     */
    method RemoveLocalPublisher(publisher: Publisher) returns (next: Option<Publisher>)
      requires Ok() && publisher in localPublishers
      requires forall q :: q in localPublishers && q.handle == publisher.handle ==> q == publisher
      modifies this`ty, this`typeStr, this`lastValue, this`lastValueNetwork, this`accepted, this`resets
      modifies this`localPublishers, localPublishers`active
      ensures Ok() && Later() && Grown() && localPublishers == Erase(old(localPublishers), publisher)
      ensures State() == old(State()).Without(publisher.Info()) && (!Exists() ==> Fresh())
      ensures publisher.active == old(publisher.active) == old(State()).Active(publisher.Info())
      ensures next.Some? ==> next.value.active && localPublishers != [] && next.value == localPublishers[0]
      ensures next.Some? <==> publisher.active && old(State()).Leaving(publisher.handle).Republishing() != []
    {
      var wasActive := publisher.active;
      EraseMembers(localPublishers, publisher);
      EraseDistinct(localPublishers, publisher);
      InfosDropped(localPublishers, publisher);
      assert Infos([]) == [];
      hide Erase, Infos, Dropped;
      ghost var before := localPublishers;
      localPublishers := Erase(localPublishers, publisher);
      assert forall i :: 0 <= i < |localPublishers| ==> localPublishers[i] in before;
      if !Exists() {
        CheckReset();
      }
      next := None;
      if wasActive && localPublishers != [] {
        next := Readopt();
      } else if localPublishers != [] && !onNetwork {
        ghost var i :| 0 <= i < |before| && before[i].Fits(ty, typeStr);
        assert before[i] in localPublishers;
      }
    }

    /** A value of the topic's type is accepted, and stored unless an older one. */
    method SetValue(value: Value) returns (done: bool)
      requires Ok()
      modifies this`lastValue, this`ty, this`accepted
      ensures Ok()
      ensures done == old(State()).Accepts(value)
      ensures State() == if done then old(State()).Stored(value) else old(State())
    {
      if ty.Some? && ty != Some(value.ty) {
        return false;
      }
      if Timed(accepted + [value]) {
        assert Timed(accepted) by {
          assert forall i :: 0 <= i < |accepted| ==> accepted[i] == (accepted + [value])[i];
        }
        NewestPush(accepted, lastValue, value);
      }
      accepted := accepted + [value];
      if lastValue.None? || lastValue.value.time == 0 || value.time >= lastValue.value.time {
        ty := Some(value.ty);
        lastValue := Some(value);
      }
      return true;
    }

    /** A value from the network. */
    method NetworkValue(value: Value) returns (done: bool)
      requires Ok()
      modifies this`lastValue, this`lastValueNetwork, this`ty, this`accepted
      ensures Ok() && done == old(State()).Accepts(value) && State() == old(State()).FromNetwork(value)
    {
      done := SetValue(value);
      if done {
        lastValueNetwork := Some(value);
      }
    }

    /**
     * A value from a listed publisher: only an active one is heard.  The network is to be told
     * unless it was last told the same.
     */
    method PublishLocalValue(publisher: Publisher, value: Option<Value>, force: bool, network: bool)
      returns (done: bool, tell: Option<Value>)
      requires Ok() && publisher in localPublishers
      modifies this`lastValue, this`lastValueNetwork, this`ty, this`accepted
      ensures Ok() && ty == old(ty)
      ensures done == (value.Some? && old(State()).Hears(publisher.Info(), value.value))
      ensures value.None? ==> State() == old(State())
      ensures value.Some? ==> State() == old(State()).Published(publisher.Info(), value.value, force, network)
      ensures tell == if network && done && !old(State()).Repeats(publisher.Info(), value.value, force)
                      then Some(old(State()).AsHere(value.value)) else None
      decreases value.Some? && ty != Some(value.value.ty)
    {
      tell := None;
      if value.None? {
        return false, tell;
      }
      if ty.Some? && ty != Some(value.value.ty) {
        if IsNumericCompatible(ty.value, value.value.ty) {
          done, tell := PublishLocalValue(publisher, Some(ConvertNumericValue(value.value, ty.value)), false, network);
          return;
        }
        return false, tell;
      }
      if publisher.active {
        var repeated := !(force || publisher.options.keepDuplicates)
                        && lastValueNetwork.Some? && Equal(lastValueNetwork.value, value.value);
        if network && !repeated {
          lastValueNetwork := value;
          tell := value;
        }
        done := SetValue(value.value);
      } else {
        done := false;
      }
    }

    /** The first value of a topic without one: stored at time zero, whatever its own time. */
    method StoreDefault(value: Value) returns (done: bool)
      requires Ok() && lastValue.None?
      modifies this`lastValue, this`ty, this`accepted
      ensures Ok() && done == old(State()).TakesDefault(value)
      ensures State() == if done then old(State()).Defaulted(value) else old(State())
    {
      if ty.None? {
        ty := Some(value.ty);
      }
      var stored := value;
      if ty == Some(value.ty) {
        stored := value;
      } else if IsNumericCompatible(ty.value, value.ty) {
        stored := ConvertNumericValue(value, ty.value);
      } else {
        return false;
      }
      stored := stored.(time := 0, serverTime := 0);
      NewestPush([], None, stored);
      assert [] + [stored] == [stored];
      lastValue := Some(stored);
      accepted := [stored];
      return true;
    }
  }
}
