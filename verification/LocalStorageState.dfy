/** The local store as a value: what each call makes of it, and what it then tells the network. */
module LocalStorageState {
  import opened Wrappers
  import opened LocalStorageTypes
  import opened ClientProtocol

  const MAX_PUBLISHERS := 512
  const MAX_MULTI_SUBSCRIBERS := 512

  datatype PublisherInfo =
    PublisherInfo(handle: nat, ty: NtType, typeStr: string, options: Options, owner: Option<nat>)
  {
    predicate Fits(ty: Option<NtType>, typeStr: string) {
      Some(this.ty) == ty && this.typeStr == typeStr
    }
  }

  /** The publishers other than the one with a handle. */
  function Dropped(publishers: seq<PublisherInfo>, h: nat): seq<PublisherInfo> {
    if publishers == [] then []
    else
      var n := |publishers| - 1;
      Dropped(publishers[..n], h) + if publishers[n].handle == h then [] else [publishers[n]]
  }

  datatype TopicState = TopicState(
    handle: nat,
    name: string,
    ty: Option<NtType>,
    typeStr: string,
    onNetwork: bool,
    publishers: seq<PublisherInfo>,
    lastValue: Option<Value>,
    lastValueNetwork: Option<Value>,
    accepted: seq<Value>,
    resets: nat)
  {
    predicate Exists() {
      onNetwork || publishers != []
    }

    predicate Active(p: PublisherInfo) {
      p.Fits(ty, typeStr)
    }

    function Reset(): TopicState {
      this.(ty := None, typeStr := "", lastValue := None, lastValueNetwork := None, accepted := [],
            resets := resets + 1)
    }

    // The type and the publishers

    /** The topic as the first of its publishers has it. */
    function Retyped(): TopicState {
      if publishers == [] then this else this.(ty := Some(publishers[0].ty), typeStr := publishers[0].typeStr)
    }

    function Publishing(p: PublisherInfo): Message {
      Publish(p.handle, TopicRef(handle, name, typeStr), p.options)
    }

    /** The first publisher is published when it gives the topic another type. */
    function Republishing(): seq<Message> {
      if publishers == [] || Active(publishers[0]) then [] else [Retyped().Publishing(publishers[0])]
    }

    function Announced(typeStr: string): TopicState {
      this.(onNetwork := true, ty := Some(StringToType(typeStr)), typeStr := typeStr)
    }

    /** Without its network publishers. */
    function Unannounced(): TopicState {
      var t := this.(onNetwork := false);
      if publishers != [] then t.Retyped() else if onNetwork then t.Reset() else t
    }

    function With(p: PublisherInfo): TopicState {
      var t := this.(publishers := publishers + [p]);
      if Exists() then t else t.Retyped()
    }

    function WithSends(p: PublisherInfo): seq<Message> {
      if With(p).Active(p) then [With(p).Publishing(p)] else []
    }

    function Leaving(h: nat): TopicState {
      var t := this.(publishers := Dropped(publishers, h));
      if t.Exists() then t else t.Reset()
    }

    function Without(p: PublisherInfo): TopicState {
      if Active(p) then Leaving(p.handle).Retyped() else Leaving(p.handle)
    }

    function WithoutSends(p: PublisherInfo): seq<Message> {
      if Active(p) then [Unpublish(p.handle)] + Leaving(p.handle).Republishing() else []
    }

    // Values

    /** The topic's type, or a number of another kind. */
    predicate Suits(ty: NtType) {
      this.ty.Some? && (this.ty == Some(ty) || IsNumericCompatible(this.ty.value, ty))
    }

    predicate Accepts(value: Value) {
      ty.None? || ty == Some(value.ty)
    }

    function Stored(value: Value): TopicState {
      this.(ty := Some(value.ty), lastValue := Replaced(lastValue, value), accepted := accepted + [value])
    }

    function FromNetwork(value: Value): TopicState {
      if Accepts(value) then Stored(value).(lastValueNetwork := Some(value)) else this
    }

    /** A value as this topic's type has it, when it can. */
    function AsHere(value: Value): Value {
      if ty.Some? && ty != Some(value.ty) && IsNumericCompatible(ty.value, value.ty)
      then ConvertNumericValue(value, ty.value) else value
    }

    /** A publisher's value is heard iff the publisher is active and the value can be had as the topic's type. */
    predicate Hears(p: PublisherInfo, value: Value) {
      Active(p) && Suits(value.ty)
    }

    /** The network was last told the same; a converted value is never forced. */
    predicate Repeats(p: PublisherInfo, value: Value, force: bool) {
      && !(force && ty == Some(value.ty)) && !p.options.keepDuplicates
      && lastValueNetwork.Some? && Equal(lastValueNetwork.value, AsHere(value))
    }

    function Published(p: PublisherInfo, value: Value, force: bool, network: bool): TopicState {
      if !Hears(p, value) then this
      else if network && !Repeats(p, value, force) then Stored(AsHere(value)).(lastValueNetwork := Some(AsHere(value)))
      else Stored(AsHere(value))
    }

    function PublishedSends(p: PublisherInfo, value: Value, force: bool): seq<Message> {
      if Hears(p, value) && !Repeats(p, value, force) then [SetValue(p.handle, AsHere(value))] else []
    }

    /** A topic without a value takes a first one that suits it. */
    predicate TakesDefault(value: Value) {
      lastValue.None? && (ty.None? || Suits(value.ty))
    }

    function Defaulted(value: Value): TopicState {
      var v := AsHere(value).(time := 0, serverTime := 0);
      this.(ty := Some(v.ty), lastValue := Some(v), accepted := [v])
    }

    // A network that starts

    /** Publishes the active ones among the first `n` publishers. */
    function StartPublishes(n: nat): seq<Message>
      requires n <= |publishers|
    {
      if n == 0 then []
      else StartPublishes(n - 1) + if Active(publishers[n - 1]) then [Publishing(publishers[n - 1])] else []
    }

    /** The last active one among the first `n` publishers. */
    function LastActive(n: nat): Option<PublisherInfo>
      requires n <= |publishers|
    {
      if n == 0 then None
      else if Active(publishers[n - 1]) then Some(publishers[n - 1]) else LastActive(n - 1)
    }

    function StartSends(): seq<Message> {
      var any := LastActive(|publishers|);
      StartPublishes(|publishers|)
      + if any.Some? && lastValue.Some? then [SetValue(any.value.handle, lastValue.value)] else []
    }
  }

  function NewTopic(handle: nat, name: string): TopicState {
    TopicState(handle, name, None, "", false, [], None, None, [], 0)
  }

  /** An entry; its publisher is made on demand and named by its handle. */
  datatype EntryState =
    EntryState(topic: nat, ty: Option<NtType>, typeStr: string, options: Options, publisher: Option<nat>)
  {
    /** An entry publishes as its own type, or as a number of another kind. */
    predicate CanPublish(ty: NtType) {
      || publisher.Some? || this.ty.None?
      || (this.ty == Some(ty) && typeStr == TypeToString(ty)) || IsNumericCompatible(ty, this.ty.value)
    }

    function Configured(ty: NtType): EntryState {
      if this.ty.None? then this.(ty := Some(ty), typeStr := TypeToString(ty)) else this
    }
  }

  /** A multi-subscriber. */
  datatype SubInfo = SubInfo(handle: nat, prefixes: seq<string>)

  function DroppedSub(subs: seq<SubInfo>, h: nat): seq<SubInfo> {
    if subs == [] then []
    else
      var n := |subs| - 1;
      DroppedSub(subs[..n], h) + if subs[n].handle == h then [] else [subs[n]]
  }

  /** A publisher and the topic it is listed with. */
  datatype Placed = Placed(topic: nat, info: PublisherInfo)

  /** What a caller may name; a subscriber stands for its topic. */
  datatype Handle = OfTopic(n: nat) | OfPublisher(n: nat) | OfEntry(n: nat)

  datatype StoreState = StoreState(
    topics: seq<TopicState>,
    names: map<string, nat>,
    publishers: map<nat, Placed>,
    entries: map<nat, EntryState>,
    subs: seq<SubInfo>,
    next: nat,
    network: bool,
    sent: seq<Message>)
  {
    function Send(msgs: seq<Message>): StoreState {
      if network then this.(sent := sent + msgs) else this
    }

    function Put(i: nat, t: TopicState): StoreState {
      if i < |topics| then this.(topics := topics[i := t]) else this
    }

    function Created(name: string): StoreState {
      if name in names then this
      else this.(topics := topics + [NewTopic(|topics|, name)], names := names[name := |topics|])
    }

    predicate Named(name: string) {
      name in names && names[name] < |topics|
    }

    function Announced(name: string, typeStr: string, ack: bool): StoreState {
      if ack || !Named(name) then this else Put(names[name], topics[names[name]].Announced(typeStr))
    }

    function Unannounced(name: string): StoreState {
      if !Named(name) then this
      else
        var t := topics[names[name]];
        Put(names[name], t.Unannounced()).Send(t.Republishing())
    }

    function NetworkValue(i: nat, value: Value): StoreState {
      if i < |topics| then Put(i, topics[i].FromNetwork(value)) else this
    }

    function Started(): StoreState {
      this.(network := true, sent := StartSends(topics, |topics|))
    }

    function Cleared(): StoreState {
      this.(network := false, topics := seq(|topics|, i requires 0 <= i < |topics| => topics[i].Unannounced()))
    }

    // Publishers

    function Added(i: nat, p: PublisherInfo): StoreState {
      if i >= |topics| then this
      else
        Put(i, topics[i].With(p)).Send(topics[i].WithSends(p))
        .(publishers := publishers[p.handle := Placed(i, p)], next := next + 1)
    }

    function Removed(h: nat): StoreState {
      if h !in publishers || publishers[h].topic >= |topics| then this
      else
        var t, p := topics[publishers[h].topic], publishers[h].info;
        Put(publishers[h].topic, t.Without(p)).Send(t.WithoutSends(p)).(publishers := publishers - {h})
    }

    predicate CanPublish(i: nat, ty: Option<NtType>, typeStr: string) {
      i < |topics| && ty.Some? && typeStr != "" && |topics[i].publishers| < MAX_PUBLISHERS
    }

    function Published(i: nat, ty: Option<NtType>, typeStr: string, options: Options): StoreState {
      if CanPublish(i, ty, typeStr) then Added(i, PublisherInfo(next, ty.value, typeStr, options, None)) else this
    }

    // Entries

    function WithEntry(i: nat, ty: Option<NtType>, typeStr: string, options: Options): StoreState {
      if i >= |topics| then this
      else this.(entries := entries[next := EntryState(i, ty, typeStr, options, None)], next := next + 1)
    }

    /** An entry makes its publisher, if it has none and can. */
    function EntryPublished(n: nat, ty: NtType): StoreState {
      if n !in entries || entries[n].publisher.Some? || !entries[n].CanPublish(ty) then this
      else
        this.(entries := entries[n := entries[n].Configured(ty)]).WithPublisher(n)
    }

    function WithPublisher(n: nat): StoreState {
      if n !in entries || entries[n].ty.None? then this
      else
        var e := entries[n];
        Added(e.topic, PublisherInfo(next, e.ty.value, e.typeStr, e.options, Some(n)))
        .(entries := entries[n := e.(publisher := Some(next))])
    }

    function LetGo(n: nat): StoreState {
      if n !in entries || entries[n].publisher.None? then this
      else Removed(entries[n].publisher.value).(entries := entries[n := entries[n].(publisher := None)])
    }

    function Released(n: nat): StoreState {
      LetGo(n).(entries := entries - {n})
    }

    function Unpublished(handle: Handle): StoreState {
      match handle
      case OfTopic(_) => this
      case OfPublisher(n) => if n in publishers && publishers[n].info.owner.None? then Removed(n) else this
      case OfEntry(n) => LetGo(n)
    }

    // Values

    function TopicOf(handle: Handle): Option<nat> {
      match handle
      case OfTopic(n) => if n < |topics| then Some(n) else None
      case OfPublisher(n) => if n in publishers then Some(publishers[n].topic) else None
      case OfEntry(n) => if n in entries then Some(entries[n].topic) else None
    }

    /** The publisher a handle speaks through. */
    function PublisherOf(handle: Handle): Option<Placed> {
      match handle
      case OfTopic(_) => None
      case OfPublisher(n) => if n in publishers then Some(publishers[n]) else None
      case OfEntry(n) =>
        if n in entries && entries[n].publisher.Some? && entries[n].publisher.value in publishers
        then Some(publishers[entries[n].publisher.value]) else None
    }

    /** The publisher behind a handle is made on demand for an entry. */
    function Ready(handle: Handle, ty: NtType): StoreState {
      if handle.OfEntry? then EntryPublished(handle.n, ty) else this
    }

    /** A publisher hands a value to its topic. */
    function Given(p: Placed, value: Value, force: bool): StoreState {
      if p.topic >= |topics| then this
      else
        var t := topics[p.topic];
        Put(p.topic, t.Published(p.info, value, force, network)).Send(t.PublishedSends(p.info, value, force))
    }

    function Set(handle: Handle, value: Option<Value>): StoreState {
      if value.None? then this
      else
        var s := Ready(handle, value.value.ty);
        if s.PublisherOf(handle).None? then s else s.Given(s.PublisherOf(handle).value, value.value, false)
    }

    /** The value is heard by the topic of the publisher behind the handle. */
    predicate Sets(handle: Handle, value: Option<Value>) {
      && value.Some?
      && var s := Ready(handle, value.value.ty);
         var p := s.PublisherOf(handle);
      && p.Some? && p.value.topic < |s.topics| && s.topics[p.value.topic].Hears(p.value.info, value.value)
    }

    predicate SetsDefault(handle: Handle, value: Option<Value>) {
      && value.Some? && TopicOf(handle).Some? && TopicOf(handle).value < |topics|
      && topics[TopicOf(handle).value].TakesDefault(value.value)
    }

    function SetDefault(handle: Handle, value: Option<Value>): StoreState {
      if value.None? || TopicOf(handle).None? || TopicOf(handle).value >= |topics| then this
      else
        var i := TopicOf(handle).value;
        if !topics[i].TakesDefault(value.value) then this
        else
          var s := Ready(handle, value.value.ty);
          s.Default(i, s.PublisherOf(handle), value.value)
    }

    /** The first value of a topic is stored, and then handed over by the publisher at hand. */
    function Default(i: nat, p: Option<Placed>, value: Value): StoreState {
      if i >= |topics| || !topics[i].TakesDefault(value) then this
      else
        var t := topics[i].Defaulted(value);
        if p.None? then Put(i, t) else Put(i, t).Given(p.value, t.lastValue.value, true)
    }

    // Multi-subscribers

    function Subscribed(prefixes: seq<string>): StoreState {
      if |subs| < MAX_MULTI_SUBSCRIBERS
      then this.(subs := subs + [SubInfo(next, prefixes)], next := next + 1) else this
    }

    function Unsubscribed(h: nat): StoreState {
      this.(subs := DroppedSub(subs, h))
    }
  }

  /** What a starting network is told of the first `n` topics. */
  function StartSends(topics: seq<TopicState>, n: nat): seq<Message>
    requires n <= |topics|
  {
    if n == 0 then [] else StartSends(topics, n - 1) + topics[n - 1].StartSends()
  }

  const EMPTY_STORE := StoreState([], map[], map[], map[], [], 0, false, [])

  /** A call on the store. */
  datatype Op =
    | DoGetTopic(name: string)
    | DoAnnounce(name: string, typeStr: string, ack: bool)
    | DoUnannounce(name: string)
    | DoNetworkValue(topic: nat, value: Value)
    | DoStartNetwork
    | DoClearNetwork
    | DoPublish(topic: nat, ty: Option<NtType>, typeStr: string, options: Options)
    | DoUnpublish(handle: Handle)
    | DoGetEntry(topic: nat, ty: Option<NtType>, typeStr: string, options: Options)
    | DoReleaseEntry(entry: nat)
    | DoSet(handle: Handle, input: Option<Value>)
    | DoSetDefault(handle: Handle, input: Option<Value>)
    | DoSubscribe(prefixes: seq<string>)
    | DoUnsubscribe(sub: nat)

  /** The store after one call. */
  function After(s: StoreState, op: Op): StoreState {
    match op
    case DoGetTopic(name) => s.Created(name)
    case DoAnnounce(name, typeStr, ack) => s.Created(name).Announced(name, typeStr, ack)
    case DoUnannounce(name) => s.Created(name).Unannounced(name)
    case DoNetworkValue(topic, value) => s.NetworkValue(topic, value)
    case DoStartNetwork => s.Started()
    case DoClearNetwork => s.Cleared()
    case DoPublish(topic, ty, typeStr, options) => s.Published(topic, ty, typeStr, options)
    case DoUnpublish(handle) => s.Unpublished(handle)
    case DoGetEntry(topic, ty, typeStr, options) => s.WithEntry(topic, ty, typeStr, options)
    case DoReleaseEntry(entry) => s.Released(entry)
    case DoSet(handle, input) => s.Set(handle, input)
    case DoSetDefault(handle, input) => s.SetDefault(handle, input)
    case DoSubscribe(prefixes) => s.Subscribed(prefixes)
    case DoUnsubscribe(sub) => s.Unsubscribed(sub)
  }

  /** The store after a run of calls. */
  function AfterAll(s: StoreState, ops: seq<Op>): StoreState {
    if ops == [] then s else After(AfterAll(s, ops[..|ops| - 1]), ops[|ops| - 1])
  }

  lemma AfterNone(s: StoreState)
    ensures AfterAll(s, []) == s
  {
  }

  lemma AfterPush(s: StoreState, ops: seq<Op>, i: nat)
    requires i < |ops|
    ensures AfterAll(s, ops[..i + 1]) == After(AfterAll(s, ops[..i]), ops[i])
  {
    hide After;
    assert ops[..i + 1][..i] == ops[..i];
  }

  lemma {:induction false} AfterAppend(s: StoreState, a: seq<Op>, b: seq<Op>)
    ensures AfterAll(s, a + b) == AfterAll(AfterAll(s, a), b)
    decreases |b|
  {
    hide After;
    if b == [] {
      assert a + b == a;
    } else {
      var n := |b| - 1;
      assert (a + b)[..|a + b| - 1] == a + b[..n];
      AfterAppend(s, a, b[..n]);
    }
  }
}
