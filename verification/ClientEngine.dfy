/**
 * The client engine: messages of the local store come in, control messages
 * are queued and values coalesced, and both go out when the wire is ready.
 */
module ClientEngine {
  import opened Wrappers
  import opened LocalStorageTypes
  import opened ClientProtocol
  import opened ClientClock
  import opened ClientPeriod

  const WIRE_MAX_NOT_READY_US: nat := 1000000

  datatype PublisherData = PublisherData(options: Options, periodMs: nat, nextSendMs: nat, outValues: seq<Value>)

  /** What the wire answers when asked whether it is ready, and the time of asking. */
  datatype Net = Net(ready: bool, lastFlushTime: nat, now: nat)

  /** A publisher's period: rounded to 10 ms, and not below the minimum. */
  function Period(options: Options): nat {
    var rounded := (options.periodicMs + 5) / 10 * 10;
    if rounded < MIN_PERIOD_MS then MIN_PERIOD_MS else rounded
  }

  /** The period is the nearest multiple of ten, halves rounded up, and five where that is zero. */
  lemma NearestPeriod(options: Options)
    ensures var p, asked := Period(options), options.periodicMs;
            if asked < 5 then p == 5 else p % 10 == 0 && asked - 5 < p <= asked + 5
  {
  }

  /** The wire is not ready and has not taken anything for more than a second. */
  predicate Stalled(net: Net) {
    !net.ready && net.lastFlushTime != 0 && net.now > net.lastFlushTime + 1000000
  }

  /** Messages as they go out. */
  function AsTexts(ms: seq<Message>): seq<Wire> {
    seq(|ms|, i requires 0 <= i < |ms| => Text(ms[i]))
  }

  lemma NoTexts()
    ensures AsTexts([]) == []
  {
  }

  function At(ps: seq<Option<PublisherData>>, h: nat): Option<PublisherData> {
    if h < |ps| then ps[h] else None
  }

  // Turn taking

  /** A queued publish is the last thing queued for its publisher, and then the publisher is live. */
  predicate LateOnly(queued: seq<bool>, live: bool) {
    forall i :: 0 <= i < |queued| && queued[i] ==> live && i == |queued| - 1
  }

  /** Sent and queued messages take turns and end with a publish exactly when the publisher is live. */
  predicate InTurn(all: seq<bool>, queued: seq<bool>, live: bool) {
    && Alternating(all)
    && (live <==> EndsPublished(all))
    && LateOnly(queued, live)
  }

  /** What a publisher's queue holds, given the values set and sent since it was published. */
  predicate Coalesced(p: PublisherData, given: seq<Value>, sent: seq<Value>) {
    if p.options.sendAll then sent + p.outValues == given
    else if p.outValues == [] then
      given == [] || (sent != [] && sent[|sent| - 1] == given[|given| - 1])
    else
      |p.outValues| == 1 && given != [] && p.outValues[0] == given[|given| - 1]
  }

  /**
   * One publisher: `all` are its turns sent and queued, `queued` those still
   * queued, `asked` those the local store asked for. A live publisher's last
   * turn is a publish; and if the store takes turns, so do the messages, and
   * the values pending are right.
   */
  predicate Ok(p: Option<PublisherData>, all: seq<bool>, queued: seq<bool>, asked: seq<bool>,
               given: seq<Value>, sent: seq<Value>) {
    && (p.Some? ==> EndsPublished(all))
    && (Alternating(asked) ==>
          && InTurn(all, queued, p.Some?)
          && (p.Some? <==> EndsPublished(asked))
          && (p.Some? ==> Coalesced(p.value, given, sent)))
  }

  lemma PublishOk(p: Option<PublisherData>, all: seq<bool>, queued: seq<bool>, asked: seq<bool>,
                  given: seq<Value>, sent: seq<Value>, p': PublisherData)
    requires Ok(p, all, queued, asked, given, sent)
    requires p.None? ==> p'.outValues == []
    ensures Ok(Some(p'), all + [true], queued + [true], asked + [true], [], [])
  {
    AlternatingPush(asked, true);
    AlternatingPush(all, true);
  }

  lemma UnpublishOk(p: Option<PublisherData>, all: seq<bool>, queued: seq<bool>, asked: seq<bool>,
                    given: seq<Value>, sent: seq<Value>)
    requires Ok(p, all, queued, asked, given, sent)
    requires forall i :: 0 <= i < |queued| ==> !queued[i]
    ensures Ok(None, all + [false], queued + [false], asked + [false], [], [])
  {
    AlternatingPush(asked, false);
    AlternatingPush(all, false);
  }

  /** An unpublish the engine drops: the publisher was not live, so the store was out of turn. */
  lemma DroppedOk(all: seq<bool>, queued: seq<bool>, asked: seq<bool>, given: seq<Value>, sent: seq<Value>)
    requires Ok(None, all, queued, asked, given, sent)
    ensures Ok(None, all, queued, asked + [false], [], sent)
    ensures !Alternating(asked + [false])
  {
    AlternatingPush(asked, false);
  }

  /** An unpublish of a publisher that is not live is sent, but then the store was out of turn. */
  lemma OutOfTurnOk(all: seq<bool>, queued: seq<bool>, asked: seq<bool>, given: seq<Value>, sent: seq<Value>)
    requires Ok(None, all, queued, asked, given, sent)
    ensures Ok(None, all + [false], queued + [false], asked + [false], [], [])
  {
    AlternatingPush(asked, false);
  }

  lemma FirstPublishTurns(ms: seq<Message>, i: nat, h: nat)
    requires i == FirstPublish(ms, h) < |ms|
    ensures forall k :: 0 <= k < |Turns(ms[..i], h)| ==> !Turns(ms[..i], h)[k]
  {
    NoPublish(ms[..i], h);
  }

  /** Cancelling the queued publish takes back the last turn. */
  lemma CancelOk(p: Option<PublisherData>, sentTurns: seq<bool>, before: seq<bool>, after: seq<bool>, asked: seq<bool>,
                 given: seq<Value>, sent: seq<Value>, left: seq<Value>)
    requires Ok(p, sentTurns + (before + [true] + after), before + [true] + after, asked, given, sent)
    requires forall i :: 0 <= i < |before| ==> !before[i]
    ensures Ok(None, sentTurns + (before + after), before + after, asked + [false], [], left)
  {
    AlternatingPush(asked, false);
    if Alternating(asked + [false]) {
      var queued := before + [true] + after;
      assert queued[|before|];
      assert after == [];
      assert before + after == before;
      assert sentTurns + queued == (sentTurns + before) + [true];
      AlternatingPush(sentTurns + before, true);
    }
  }

  // The timer

  const START_PERIOD_MS: nat := PING_INTERVAL_MS + 10

  ghost predicate Periodic(p: nat) {
    p > 0 && Divides(MIN_PERIOD_MS, p)
  }

  ghost predicate AllPeriodic(ps: seq<Option<PublisherData>>) {
    forall h: nat :: At(ps, h).Some? ==> Periodic(At(ps, h).value.periodMs)
  }

  /** The timer comes round for the ping and for every live publisher, and not faster than the minimum. */
  ghost predicate Ticks(period: nat, ps: seq<Option<PublisherData>>) {
    && period >= MIN_PERIOD_MS && Divides(MIN_PERIOD_MS, period) && Divides(period, START_PERIOD_MS)
    && AllPeriodic(ps)
    && forall h: nat :: At(ps, h).Some? ==> Divides(period, At(ps, h).value.periodMs)
  }

  function LivePeriods(ps: seq<Option<PublisherData>>): seq<nat> {
    if ps == [] then [] else
      var before, last := LivePeriods(ps[..|ps| - 1]), ps[|ps| - 1];
      if last.Some? then before + [last.value.periodMs] else before
  }

  lemma StartTicks()
    ensures Ticks(START_PERIOD_MS, [])
  {
    assert START_PERIOD_MS == MIN_PERIOD_MS * 602;
    DividesSelf(START_PERIOD_MS);
  }

  lemma PeriodIsPeriodic(options: Options)
    ensures Periodic(Period(options))
  {
    var k := (options.periodicMs + 5) / 10;
    assert k * 10 == MIN_PERIOD_MS * (k * 2);
    DividesSelf(MIN_PERIOD_MS);
  }

  /** The minimum never comes into play: every period is a multiple of it. */
  lemma NarrowTicks(period: nat, before: seq<Option<PublisherData>>, ps: seq<Option<PublisherData>>, pub: nat)
    requires Ticks(period, before) && At(ps, pub).Some? && Periodic(At(ps, pub).value.periodMs)
    requires forall h: nat :: h != pub ==> At(ps, h) == At(before, h)
    ensures var g := Gcd(period, At(ps, pub).value.periodMs); g >= MIN_PERIOD_MS && Ticks(g, ps)
  {
    var q := At(ps, pub).value.periodMs;
    var g := Gcd(period, q);
    GcdGreatest(period, q, MIN_PERIOD_MS);
    AtLeast(g);
    DividesTrans(g, period, START_PERIOD_MS);
    forall h: nat | At(ps, h).Some?
      ensures Divides(g, At(ps, h).value.periodMs) && Periodic(At(ps, h).value.periodMs)
    {
      if h != pub {
        assert At(before, h).Some?;
        DividesTrans(g, period, At(ps, h).value.periodMs);
      }
    }
  }

  lemma LivePeriodsPush(ps: seq<Option<PublisherData>>, i: nat)
    requires i < |ps|
    ensures LivePeriods(ps[..i + 1])
         == if ps[i].Some? then LivePeriods(ps[..i]) + [ps[i].value.periodMs] else LivePeriods(ps[..i])
    ensures ps[i].Some?
            ==> GcdAll(START_PERIOD_MS, LivePeriods(ps[..i + 1]))
                == Gcd(GcdAll(START_PERIOD_MS, LivePeriods(ps[..i])), ps[i].value.periodMs)
  {
    assert ps[..i + 1][..i] == ps[..i];
    if ps[i].Some? {
      var before := LivePeriods(ps[..i]);
      assert (before + [ps[i].value.periodMs])[..|before|] == before;
    }
  }

  lemma {:induction false} LivePeriodIn(ps: seq<Option<PublisherData>>, h: nat)
    requires At(ps, h).Some?
    ensures At(ps, h).value.periodMs in LivePeriods(ps)
  {
    var n := |ps| - 1;
    if h < n {
      assert At(ps[..n], h) == At(ps, h);
      LivePeriodIn(ps[..n], h);
    }
  }

  lemma {:induction false} LivePeriodsPeriodic(ps: seq<Option<PublisherData>>)
    requires AllPeriodic(ps)
    ensures Periods(LivePeriods(ps))
  {
    if ps != [] {
      var n := |ps| - 1;
      assert forall h: nat :: At(ps[..n], h).Some? ==> At(ps[..n], h) == At(ps, h);
      LivePeriodsPeriodic(ps[..n]);
      assert At(ps, n) == ps[n];
    }
  }

  lemma WideTicks(ps: seq<Option<PublisherData>>)
    requires AllPeriodic(ps)
    ensures var g := GcdAll(START_PERIOD_MS, LivePeriods(ps)); g >= MIN_PERIOD_MS && Ticks(g, ps)
  {
    var periods := LivePeriods(ps);
    StartTicks();
    LivePeriodsPeriodic(ps);
    GcdAllDivides(START_PERIOD_MS, periods);
    var g := GcdAll(START_PERIOD_MS, periods);
    AtLeast(g);
    forall h: nat | At(ps, h).Some?
      ensures Divides(g, At(ps, h).value.periodMs)
    {
      LivePeriodIn(ps, h);
    }
  }

  // One more message

  /** What is queued after one local message. */
  function Queued(ps: seq<Option<PublisherData>>, out: seq<Message>, msg: Message): seq<Message> {
    match msg
    case SetValue(_, _) => out
    case Unpublish(pub) =>
      var i := FirstPublish(out, pub);
      if pub >= |ps| then out
      else if ps[pub].Some? && i < |out| then out[..i] + out[i + 1..]
      else out + [msg]
    case _ => out + [msg]
  }

  predicate LiveAfter(ps: seq<Option<PublisherData>>, msg: Message, h: nat) {
    if IsTurn(msg, h) then msg.Publish? else At(ps, h).Some?
  }

  /**
   * A message the local store may give about publisher `h`: no turn, a publish of one that
   * is not live, an unpublish of one that is, or of one past the end of the list.
   */
  predicate Fair(ps: seq<Option<PublisherData>>, msg: Message, h: nat) {
    IsTurn(msg, h) ==> if msg.Publish? then At(ps, h).None? else At(ps, h).Some? || h >= |ps|
  }

  /** From messages in turn, one more keeps them so iff it is fair. */
  lemma OneMoreTurn(ps: seq<Option<PublisherData>>, sent: seq<bool>, out: seq<Message>, msg: Message, h: nat)
    requires InTurn(sent + Turns(out, h), Turns(out, h), At(ps, h).Some?)
    ensures var next := Turns(Queued(ps, out, msg), h);
            && (Fair(ps, msg, h) <==> InTurn(sent + next, next, LiveAfter(ps, msg, h)))
            && (Fair(ps, msg, h) <==> Alternating(sent + next))
  {
    var turns := Turns(out, h);
    TurnsPush(out, msg, h);
    hide Turns, Alternating, EndsPublished;
    if msg.Unpublish? {
      var i := FirstPublish(out, msg.pub);
      if msg.pub < |ps| && ps[msg.pub].Some? && i < |out| {
        TurnsWithout(out, i, h);
        if h == msg.pub {
          CancelTurn(sent, out, i, h);
        }
      } else if msg.pub < |ps| && h == msg.pub {
        if ps[h].Some? {
          NoPublish(out, h);
        }
        PushTurn(sent, turns, false);
      }
    } else if IsTurn(msg, h) {
      PushTurn(sent, turns, true);
    }
  }

  lemma PushTurn(sent: seq<bool>, queued: seq<bool>, b: bool)
    ensures sent + (queued + [b]) == sent + queued + [b]
    ensures Alternating(sent + (queued + [b])) <==> Alternating(sent + queued) && (b <==> !EndsPublished(sent + queued))
    ensures EndsPublished(sent + (queued + [b])) == b
  {
    assert sent + (queued + [b]) == sent + queued + [b];
    AlternatingPush(sent + queued, b);
  }

  lemma CancelTurn(sent: seq<bool>, out: seq<Message>, i: nat, h: nat)
    requires i == FirstPublish(out, h) < |out| && InTurn(sent + Turns(out, h), Turns(out, h), true)
    ensures var next := Turns(out[..i] + out[i + 1..], h); InTurn(sent + next, next, false)
  {
    var before, after := Turns(out[..i], h), Turns(out[i + 1..], h);
    TurnsWithout(out, i, h);
    FirstPublishTurns(out, i, h);
    var queued := before + [true] + after;
    assert queued[|before|];
    assert after == [] && before + after == before && queued == before + [true];
    PushTurn(sent, before, true);
  }

  class Client {
    var publishers: seq<Option<PublisherData>>
    var outgoing: seq<Message>
    var wire: seq<Wire>
    var disconnected: bool
    var nextPingTimeMs: nat
    var pongTimeMs: nat
    var lastSendMs: nat
    var haveTimeOffset: bool
    var serverTimeOffsetUs: int
    var rtt2Us: int
    var periodMs: nat
    /** The round-trip samples so far. */
    ghost var samples: seq<Sample>
    /** The local messages so far. */
    ghost var local: seq<Message>
    /** When each ping on the wire was sent. */
    ghost var pings: seq<nat>

    ghost predicate PublisherOk(h: nat)
      reads this`publishers, this`outgoing, this`wire, this`local
    {
      Ok(At(publishers, h), Turns(Texts(wire), h) + Turns(outgoing, h), Turns(outgoing, h), Turns(local, h),
         SetSince(local, h), Since(wire, outgoing, h))
    }

    ghost predicate Valid()
      reads this`publishers, this`outgoing, this`wire, this`local
    {
      Ordered(wire) && forall h: nat :: PublisherOk(h)
    }

    constructor (curTimeMs: nat, now: int)
      ensures Valid() && local == [] && outgoing == [] && publishers == [] && wire == [Ping(now)]
      ensures lastSendMs == 0 && Synced() && samples == [] && Ticking() && periodMs == 3010
      ensures Pinging() && pings == [curTimeMs] && pongTimeMs == 0 && !disconnected && !haveTimeOffset
    {
      publishers, outgoing, wire, disconnected := [], [], [Ping(now)], false;
      nextPingTimeMs, pongTimeMs, lastSendMs := curTimeMs + PING_INTERVAL_MS, 0, 0;
      haveTimeOffset, serverTimeOffsetUs, rtt2Us, samples := false, 0, UINT32S - 1, [];
      periodMs := START_PERIOD_MS;
      local, pings := [], [curTimeMs];
      new;
      forall h: nat
        ensures PublisherOk(h)
      {
        assert Turns([], h) == [] && Texts(wire) == [];
      }
      PingsPush([], Ping(now));
      assert [] + [Ping(now)] == wire && PingsOn([]) == [];
      StartTicks();
    }

    /** Pings are three seconds apart or more, and the next one is due three seconds after the last. */
    ghost predicate Pinging()
      reads this`pings, this`wire, this`nextPingTimeMs
    {
      && pings != [] && nextPingTimeMs == pings[|pings| - 1] + 3000 && |PingsOn(wire)| == |pings|
      && forall i :: 0 <= i < |pings| - 1 ==> pings[i + 1] >= pings[i] + 3000
    }

    // The timer

    ghost predicate Ticking()
      reads this`periodMs, this`publishers
    {
      Ticks(periodMs, publishers)
    }

    /** The timer takes in the period of a publisher just published. */
    method NarrowPeriod(pub: nat, ghost before: seq<Option<PublisherData>>)
      requires Ticks(periodMs, before) && At(publishers, pub).Some? && Periodic(publishers[pub].value.periodMs)
      requires forall h: nat :: h != pub ==> At(publishers, h) == At(before, h)
      modifies this`periodMs
      ensures Ticking() && periodMs == Gcd(old(periodMs), publishers[pub].value.periodMs)
    {
      NarrowTicks(periodMs, before, publishers, pub);
      hide Ticks;
      var p := Gcd(periodMs, publishers[pub].value.periodMs);
      if p < MIN_PERIOD_MS {
        p := MIN_PERIOD_MS;
      }
      periodMs := p;
    }

    /** The timer's period from all the live publishers. */
    method WidenPeriod()
      requires AllPeriodic(publishers)
      modifies this`periodMs
      ensures Ticking() && periodMs == GcdAll(3010, LivePeriods(publishers))
    {
      var p := START_PERIOD_MS;
      for i := 0 to |publishers|
        invariant p == GcdAll(START_PERIOD_MS, LivePeriods(publishers[..i]))
      {
        LivePeriodsPush(publishers, i);
        if publishers[i].Some? {
          p := Gcd(p, publishers[i].value.periodMs);
        }
      }
      assert publishers[..|publishers|] == publishers;
      WideTicks(publishers);
      if p < MIN_PERIOD_MS {
        p := MIN_PERIOD_MS;
      }
      periodMs := p;
    }

    // Local messages

    /** What is sent and queued for `h` takes turns, and ends with a publish iff `h` is live. */
    ghost predicate Turning(h: nat)
      reads this`publishers, this`outgoing, this`wire
    {
      InTurn(Turns(Texts(wire), h) + Turns(outgoing, h), Turns(outgoing, h), At(publishers, h).Some?)
    }

    method HandleLocal(msgs: seq<Message>)
      requires Valid() && Ticking()
      modifies this`publishers, this`outgoing, this`local, this`periodMs
      ensures Valid() && Ticking() && local == old(local) + msgs
    {
      hide Valid, Ticking, Queued, LiveAfter, Fair;
      for i := 0 to |msgs|
        invariant Valid() && Ticking() && local == old(local) + msgs[..i]
      {
        HandleOne(msgs[i]);
      }
    }

    method HandleOne(msg: Message)
      requires Valid() && Ticking()
      modifies this`publishers, this`outgoing, this`local, this`periodMs
      ensures Valid() && Ticking() && local == old(local) + [msg]
              && outgoing == Queued(old(publishers), old(outgoing), msg)
      ensures forall h: nat :: At(publishers, h).Some? <==> LiveAfter(old(publishers), msg, h)
      ensures forall h: nat :: old(Turning(h)) ==> (Turning(h) <==> Fair(old(publishers), msg, h))
    {
      hide Valid;
      forall h: nat | Turning(h)
        ensures var next := Turns(Queued(publishers, outgoing, msg), h);
                Fair(publishers, msg, h) <==> InTurn(Turns(Texts(wire), h) + next, next, LiveAfter(publishers, msg, h))
      {
        OneMoreTurn(publishers, Turns(Texts(wire), h), outgoing, msg, h);
      }
      hide InTurn, Turns, Fair, Ticking, Queued, LiveAfter;
      Dispatch(msg);
    }

    method Dispatch(msg: Message)
      requires Valid() && Ticking()
      modifies this`publishers, this`outgoing, this`local, this`periodMs
      ensures Valid() && Ticking() && local == old(local) + [msg]
              && outgoing == Queued(old(publishers), old(outgoing), msg)
      ensures forall h: nat :: At(publishers, h).Some? <==> LiveAfter(old(publishers), msg, h)
    {
      hide Valid, Turns, Periodic;
      match msg
      case SetValue(pub, value) => SetPending(pub, value);
      case Publish(pub, at, options) =>
        ghost var before := publishers;
        AddPublisher(pub, at, options);
        PeriodIsPeriodic(options);
        NarrowPeriod(pub, before);
      case Unpublish(pub) =>
        var known := pub < |publishers|;
        RemovePublisher(pub);
        if known {
          WidenPeriod();
        }
      case Other(tag) => Enqueue(msg);
    }

    method Enqueue(msg: Message)
      requires Valid() && msg.Other?
      modifies this`outgoing, this`local
      ensures Valid() && local == old(local) + [msg] && outgoing == old(outgoing) + [msg]
    {
      hide Turns, SetSince, SentSince, Texts, ValuesOn, Ok, Ordered;
      outgoing := outgoing + [msg];
      local := local + [msg];
      forall h: nat
        ensures PublisherOk(h)
      {
        assert old(PublisherOk(h));
        TurnsPush(old(local), msg, h);
        SetSincePush(old(local), msg, h);
        TurnsPush(old(outgoing), msg, h);
      }
    }

    method SetPending(pub: nat, value: Value)
      requires Valid()
      modifies this`publishers, this`local
      ensures Valid() && local == old(local) + [SetValue(pub, value)]
      ensures forall h: nat :: h != pub ==> At(publishers, h) == old(At(publishers, h))
      ensures At(publishers, pub).Some? <==> old(At(publishers, pub)).Some?
      ensures At(publishers, pub).Some? ==>
                var p, q := old(At(publishers, pub)).value, At(publishers, pub).value;
                && q == p.(outValues := q.outValues)
                && q.outValues == if p.options.sendAll || p.outValues == [] then p.outValues + [value]
                                  else p.outValues[..|p.outValues| - 1] + [value]
    {
      hide Turns, SetSince, Texts, ValuesOn, Ordered, InTurn, Alternating, EndsPublished;
      ghost var msg := SetValue(pub, value);
      local := local + [msg];
      if pub < |publishers| && publishers[pub].Some? {
        var p := publishers[pub].value;
        if p.outValues == [] || p.options.sendAll {
          p := p.(outValues := p.outValues + [value]);
        } else {
          p := p.(outValues := p.outValues[|p.outValues| - 1 := value]);
        }
        publishers := publishers[pub := Some(p)];
      }
      forall h: nat
        ensures PublisherOk(h)
      {
        assert old(PublisherOk(h));
        TurnsPush(old(local), msg, h);
        SetSincePush(old(local), msg, h);
      }
    }

    method AddPublisher(pub: nat, at: TopicRef, options: Options)
      requires Valid()
      modifies this`publishers, this`outgoing, this`local
      ensures Valid() && local == old(local) + [Publish(pub, at, options)]
      ensures outgoing == old(outgoing) + [Publish(pub, at, options)] && At(publishers, pub).Some?
      ensures var was := old(At(publishers, pub));
              At(publishers, pub).value == if was.None? then PublisherData(options, Period(options), 0, [])
                                           else was.value.(options := options, periodMs := Period(options))
      ensures forall h: nat :: h != pub ==> At(publishers, h) == old(At(publishers, h))
    {
      hide Turns, SetSince, SentSince, Texts, ValuesOn, Ok, Ordered;
      var msg := Publish(pub, at, options);
      if pub >= |publishers| {
        publishers := publishers + seq(pub + 1 - |publishers|, _ => None);
      }
      var p := if publishers[pub].None? then PublisherData(options, 0, 0, []) else publishers[pub].value;
      var periodMs := (options.periodicMs + 5) / 10 * 10;
      if periodMs < MIN_PERIOD_MS {
        periodMs := MIN_PERIOD_MS;
      }
      assert periodMs == Period(options);
      hide Period;
      p := p.(options := options, periodMs := periodMs);
      publishers := publishers[pub := Some(p)];
      outgoing := outgoing + [msg];
      local := local + [msg];
      forall h: nat
        ensures PublisherOk(h)
      {
        assert old(PublisherOk(h));
        TurnsPush(old(local), msg, h);
        SetSincePush(old(local), msg, h);
        TurnsPush(old(outgoing), msg, h);
        var text := Turns(Texts(wire), h);
        assert text + (old(Turns(outgoing, h)) + [true]) == text + old(Turns(outgoing, h)) + [true];
        if h == pub {
          assert Since(wire, outgoing, h) == [] && SetSince(local, h) == [];
          PublishOk(old(At(publishers, h)), text + old(Turns(outgoing, h)), old(Turns(outgoing, h)),
                    old(Turns(local, h)),
                    SetSince(old(local), h), old(Since(wire, outgoing, h)), p);
        }
      }
    }

    method RemovePublisher(pub: nat)
      requires Valid()
      modifies this`publishers, this`outgoing, this`local
      ensures Valid() && local == old(local) + [Unpublish(pub)] && At(publishers, pub).None?
      ensures forall h: nat :: h != pub ==> At(publishers, h) == old(At(publishers, h))
      ensures var i := FirstPublish(old(outgoing), pub);
              outgoing ==
              if pub >= |old(publishers)| then old(outgoing)
              else if old(publishers)[pub].Some? && i < |old(outgoing)| then old(outgoing)[..i] + old(outgoing)[i + 1..]
              else old(outgoing) + [Unpublish(pub)]
    {
      if pub >= |publishers| {
        DropUnpublish(pub);
        return;
      }
      if publishers[pub].Some? {
        var i := FirstPublish(outgoing, pub);
        if i < |outgoing| {
          CancelPublish(pub, i);
          return;
        }
      }
      QueueUnpublish(pub);
    }

    /** An unpublish of a publisher that never existed is not sent. */
    ghost method DropUnpublish(pub: nat)
      requires Valid() && At(publishers, pub).None?
      modifies this`local
      ensures Valid() && local == old(local) + [Unpublish(pub)]
    {
      hide Turns, SetSince, SentSince, Texts, ValuesOn, Ok, Ordered;
      local := local + [Unpublish(pub)];
      forall h: nat
        ensures PublisherOk(h)
      {
        assert old(PublisherOk(h));
        TurnsPush(old(local), Unpublish(pub), h);
        SetSincePush(old(local), Unpublish(pub), h);
        if h == pub {
          DroppedOk(Turns(Texts(wire), h) + Turns(outgoing, h), Turns(outgoing, h), old(Turns(local, h)),
                    SetSince(old(local), h),
                    Since(wire, outgoing, h));
        }
      }
    }

    /** The publish has not been sent: neither message goes out. */
    method CancelPublish(pub: nat, i: nat)
      requires Valid() && pub < |publishers| && i == FirstPublish(outgoing, pub) < |outgoing|
      modifies this`publishers, this`outgoing, this`local
      ensures Valid() && local == old(local) + [Unpublish(pub)] && At(publishers, pub).None?
      ensures forall h: nat :: h != pub ==> At(publishers, h) == old(At(publishers, h))
      ensures outgoing == old(outgoing)[..i] + old(outgoing)[i + 1..]
    {
      hide Turns, SetSince, SentSince, Texts, ValuesOn, Ok, Ordered;
      publishers := publishers[pub := None];
      outgoing := outgoing[..i] + outgoing[i + 1..];
      local := local + [Unpublish(pub)];
      forall h: nat
        ensures PublisherOk(h)
      {
        assert old(PublisherOk(h));
        TurnsPush(old(local), Unpublish(pub), h);
        SetSincePush(old(local), Unpublish(pub), h);
        TurnsWithout(old(outgoing), i, h);
        if h == pub {
          assert SetSince(local, h) == [];
          FirstPublishTurns(old(outgoing), i, h);
          var before, after := Turns(old(outgoing)[..i], h), Turns(old(outgoing)[i + 1..], h);
          CancelOk(old(At(publishers, h)), Turns(Texts(wire), h), before, after, old(Turns(local, h)),
                   SetSince(old(local), h), old(Since(wire, outgoing, h)), Since(wire, outgoing, h));
        }
      }
    }

    method QueueUnpublish(pub: nat)
      requires Valid() && pub < |publishers|
      requires publishers[pub].None? || FirstPublish(outgoing, pub) == |outgoing|
      modifies this`publishers, this`outgoing, this`local
      ensures Valid() && local == old(local) + [Unpublish(pub)] && At(publishers, pub).None?
      ensures forall h: nat :: h != pub ==> At(publishers, h) == old(At(publishers, h))
      ensures outgoing == old(outgoing) + [Unpublish(pub)]
    {
      hide Turns, SetSince, SentSince, Texts, ValuesOn, Ok, Ordered;
      var msg := Unpublish(pub);
      publishers := publishers[pub := None];
      outgoing := outgoing + [msg];
      local := local + [msg];
      forall h: nat
        ensures PublisherOk(h)
      {
        assert old(PublisherOk(h));
        TurnsPush(old(local), msg, h);
        SetSincePush(old(local), msg, h);
        TurnsPush(old(outgoing), msg, h);
        if h == pub {
          assert Since(wire, outgoing, h) == [] && SetSince(local, h) == [];
          var text, queued := Turns(Texts(wire), h), old(Turns(outgoing, h));
          assert text + (queued + [false]) == text + queued + [false];
          if old(publishers[pub]).Some? {
            NoPublish(old(outgoing), pub);
            UnpublishOk(old(At(publishers, h)), text + queued, queued, old(Turns(local, h)), SetSince(old(local), h),
                        old(Since(wire, outgoing, h)));
          } else {
            OutOfTurnOk(text + queued, queued, old(Turns(local, h)), SetSince(old(local), h),
                        old(Since(wire, outgoing, h)));
          }
        }
      }
    }

    // The wire

    method CheckNetworkReady(net: Net) returns (ok: bool)
      modifies this`disconnected
      ensures ok == net.ready
      ensures disconnected == (old(disconnected) || Stalled(net))
    {
      if !net.ready {
        if net.lastFlushTime != 0 && net.now > net.lastFlushTime + WIRE_MAX_NOT_READY_US {
          disconnected := true;
        }
        return false;
      }
      return true;
    }

    /** Less than the minimum period has passed since the last send. */
    ghost predicate TooSoon(curTimeMs: nat)
      reads this`lastSendMs
    {
      curTimeMs < lastSendMs + 5
    }

    /** A ping is due, the last one was answered, and the wire takes one. */
    ghost predicate PingGoes(curTimeMs: nat, net1: Net)
      reads this`lastSendMs, this`nextPingTimeMs, this`pongTimeMs
    {
      !TooSoon(curTimeMs) && curTimeMs >= nextPingTimeMs && (nextPingTimeMs == 0 || pongTimeMs != 0) && net1.ready
    }

    /** The period has passed, a ping that is due goes out, and so can the queue. */
    ghost predicate CanSend(curTimeMs: nat, net1: Net, net2: Net)
      reads this`lastSendMs, this`nextPingTimeMs, this`pongTimeMs, this`outgoing
    {
      && !TooSoon(curTimeMs) && (curTimeMs >= nextPingTimeMs ==> PingGoes(curTimeMs, net1))
      && (outgoing != [] ==> net2.ready)
    }

    /** The last ping was not answered when the next is due, or the wire has not taken anything for too long. */
    ghost predicate GivesUp(curTimeMs: nat, net1: Net, net2: Net)
      reads this`lastSendMs, this`nextPingTimeMs, this`pongTimeMs, this`outgoing
    {
      && !TooSoon(curTimeMs)
      && if curTimeMs >= nextPingTimeMs && !PingGoes(curTimeMs, net1)
         then (nextPingTimeMs != 0 && pongTimeMs == 0) || Stalled(net1)
         else outgoing != [] && Stalled(net2)
    }

    /** What goes out: a ping when one is due, then everything queued. */
    ghost function ControlOut(curTimeMs: nat, now: int, net1: Net, net2: Net): seq<Wire>
      reads this`lastSendMs, this`nextPingTimeMs, this`pongTimeMs, this`outgoing
    {
      (if PingGoes(curTimeMs, net1) then [Ping(now)] else [])
      + if CanSend(curTimeMs, net1, net2) then AsTexts(outgoing) else []
    }

    /** A ping when one is due, then everything queued; on success nothing is queued any more. */
    method SendControl(curTimeMs: nat, now: int, net1: Net, net2: Net) returns (ok: bool)
      requires Valid() && Pinging()
      modifies this`wire, this`outgoing, this`disconnected, this`nextPingTimeMs, this`pongTimeMs, this`lastSendMs
      modifies this`pings
      ensures Valid() && Pinging() && ok == old(CanSend(curTimeMs, net1, net2))
      ensures wire == old(wire) + old(ControlOut(curTimeMs, now, net1, net2))
      ensures outgoing == (if ok then [] else old(outgoing)) && lastSendMs == if ok then curTimeMs else old(lastSendMs)
      ensures if old(PingGoes(curTimeMs, net1))
              then nextPingTimeMs == curTimeMs + 3000 && pongTimeMs == 0 && pings == old(pings) + [curTimeMs]
              else nextPingTimeMs == old(nextPingTimeMs) && pongTimeMs == old(pongTimeMs) && pings == old(pings)
      ensures disconnected == (old(disconnected) || old(GivesUp(curTimeMs, net1, net2)))
      ensures Texts(wire) == if ok then Texts(old(wire)) + old(outgoing) else Texts(old(wire))
      ensures forall h: nat :: old(Turning(h)) ==> Turning(h)
      ensures forall h: nat :: ValuesOn(wire, h) == ValuesOn(old(wire), h)
    {
      hide Valid, Turning, Pinging, Texts, ValuesOn, AsTexts;
      NoTexts();
      if curTimeMs < lastSendMs + MIN_PERIOD_MS {
        return false;
      }
      if curTimeMs >= nextPingTimeMs {
        ok := SendDuePing(curTimeMs, now, net1);
        if !ok {
          return;
        }
      }
      if outgoing != [] {
        ok := CheckNetworkReady(net2);
        if !ok {
          return;
        }
        SendQueued();
      }
      lastSendMs := curTimeMs;
      return true;
    }

    /** The next ping, unless the last one was not answered. */
    method SendDuePing(curTimeMs: nat, now: int, net1: Net) returns (ok: bool)
      requires Valid() && Pinging() && curTimeMs >= nextPingTimeMs
      modifies this`wire, this`disconnected, this`nextPingTimeMs, this`pongTimeMs, this`pings
      ensures Valid() && Pinging() && ok == old((nextPingTimeMs == 0 || pongTimeMs != 0) && net1.ready)
      ensures wire == old(wire) + if ok then [Ping(now)] else []
      ensures if ok then nextPingTimeMs == curTimeMs + 3000 && pongTimeMs == 0 && pings == old(pings) + [curTimeMs]
              else nextPingTimeMs == old(nextPingTimeMs) && pongTimeMs == old(pongTimeMs) && pings == old(pings)
      ensures disconnected == (old(disconnected) || old(nextPingTimeMs != 0 && pongTimeMs == 0) || Stalled(net1))
      ensures Texts(wire) == Texts(old(wire)) && forall h: nat :: ValuesOn(wire, h) == ValuesOn(old(wire), h)
      ensures forall h: nat :: old(Turning(h)) ==> Turning(h)
    {
      hide Valid, Texts, ValuesOn, PingsOn;
      if nextPingTimeMs != 0 && pongTimeMs == 0 {
        disconnected := true;
        return false;
      }
      ok := CheckNetworkReady(net1);
      if !ok {
        return;
      }
      SendPing(now);
      pings := pings + [curTimeMs];
      nextPingTimeMs, pongTimeMs := curTimeMs + PING_INTERVAL_MS, 0;
    }

    method SendPing(now: int)
      requires Valid()
      modifies this`wire
      ensures Valid() && wire == old(wire) + [Ping(now)] && Texts(wire) == Texts(old(wire))
      ensures PingsOn(wire) == PingsOn(old(wire)) + [now]
      ensures forall h: nat :: ValuesOn(wire, h) == ValuesOn(old(wire), h)
    {
      hide Turns, SetSince, SentSince, Texts, ValuesOn, Ok, Ordered, PingsOn;
      TextsPush(wire, Ping(now));
      PingsPush(wire, Ping(now));
      OrderedPush(wire, Ping(now));
      wire := wire + [Ping(now)];
      forall h: nat
        ensures PublisherOk(h) && ValuesOn(wire, h) == ValuesOn(old(wire), h)
      {
        assert old(PublisherOk(h));
        ValuesPush(old(wire), Ping(now), h);
        SentSincePush(old(wire), Ping(now), h);
      }
    }

    method SendQueued()
      requires Valid()
      modifies this`wire, this`outgoing
      ensures Valid() && outgoing == [] && wire == old(wire) + AsTexts(old(outgoing))
      ensures Texts(wire) == Texts(old(wire)) + old(outgoing) && PingsOn(wire) == PingsOn(old(wire))
      ensures forall h: nat :: ValuesOn(wire, h) == ValuesOn(old(wire), h)
      ensures forall h: nat :: old(Turning(h)) ==> Turning(h)
      ensures old(Pinging()) ==> Pinging()
    {
      hide Turns, SetSince, SentSince, Texts, ValuesOn, Ok, Ordered, PingsOn;
      forall h: nat
        ensures Since(wire, outgoing[..0], h) == SentSince(wire, h)
      {
        NoTurns(h);
      }
      for i := 0 to |outgoing|
        invariant outgoing == old(outgoing) && wire == old(wire) + AsTexts(outgoing[..i]) && Ordered(wire)
        invariant Texts(wire) == Texts(old(wire)) + outgoing[..i] && PingsOn(wire) == PingsOn(old(wire))
        invariant forall h: nat :: ValuesOn(wire, h) == ValuesOn(old(wire), h)
        invariant forall h: nat :: SentSince(wire, h) == Since(old(wire), outgoing[..i], h)
      {
        var w := Text(outgoing[i]);
        TextsPush(wire, w);
        PingsPush(wire, w);
        OrderedPush(wire, w);
        assert outgoing[..i + 1] == outgoing[..i] + [outgoing[i]];
        assert AsTexts(outgoing[..i + 1]) == AsTexts(outgoing[..i]) + [w];
        forall h: nat
          ensures ValuesOn(wire + [w], h) == ValuesOn(wire, h)
          ensures SentSince(wire + [w], h) == Since(old(wire), outgoing[..i + 1], h)
        {
          ValuesPush(wire, w, h);
          SentSincePush(wire, w, h);
          TurnsPush(outgoing[..i], outgoing[i], h);
        }
        wire := wire + [w];
      }
      assert outgoing[..|outgoing|] == outgoing;
      outgoing := [];
      forall h: nat
        ensures PublisherOk(h) && (old(Turning(h)) ==> Turning(h))
      {
        assert old(PublisherOk(h));
        TurnsAppend(Texts(old(wire)), old(outgoing), h);
        NoTurns(h);
        var all := Turns(Texts(wire), h);
        assert all + [] == all;
        FlushOk(At(publishers, h), all, old(Turns(outgoing, h)), Turns(local, h), SetSince(local, h),
                Since(wire, outgoing, h));
      }
    }

    /** The control messages are out, and so is the wire ready for values. */
    ghost predicate ValuesGo(curTimeMs: nat, net1: Net, net2: Net, net3: Net)
      reads this`lastSendMs, this`nextPingTimeMs, this`pongTimeMs, this`outgoing, this`haveTimeOffset
    {
      haveTimeOffset && CanSend(curTimeMs, net1, net2) && net3.ready
    }

    /** Once the clock is synchronised: the control messages, then the pending values of every due publisher. */
    method SendValues(curTimeMs: nat, flush: bool, now: int, net1: Net, net2: Net, net3: Net)
      requires Valid() && Pinging()
      modifies this`publishers, this`wire, this`outgoing, this`disconnected, this`nextPingTimeMs, this`pongTimeMs
      modifies this`lastSendMs, this`pings
      ensures Valid() && Pinging() && |publishers| == |old(publishers)| && (old(Ticking()) ==> Ticking())
      ensures wire == old(wire) + (if haveTimeOffset then old(ControlOut(curTimeMs, now, net1, net2)) else [])
                      + if old(ValuesGo(curTimeMs, net1, net2, net3))
                        then DueOut(old(publishers), curTimeMs, flush, serverTimeOffsetUs) else []
      ensures outgoing == if haveTimeOffset && old(CanSend(curTimeMs, net1, net2)) then [] else old(outgoing)
      ensures disconnected ==
              (old(disconnected)
               || (haveTimeOffset && old(GivesUp(curTimeMs, net1, net2)))
               || (haveTimeOffset && old(CanSend(curTimeMs, net1, net2)) && Stalled(net3)
                   && DueOut(old(publishers), curTimeMs, flush, serverTimeOffsetUs) != []))
      ensures forall h: nat :: old(Turning(h)) ==> Turning(h)
      ensures forall h: nat ::
                At(publishers, h) ==
                if old(ValuesGo(curTimeMs, net1, net2, net3)) && Due(old(At(publishers, h)), curTimeMs, flush)
                then Some(Emptied(old(At(publishers, h)).value, curTimeMs)) else old(At(publishers, h))
    {
      hide Valid, Turning, Texts, ValuesOn, PingsOn, AsTexts, Stamped, DueOut;
      if !haveTimeOffset {
        return;
      }
      var ok := SendControl(curTimeMs, now, net1, net2);
      if !ok {
        return;
      }
      SendDue(curTimeMs, flush, net3);
    }

    /** The pending values of every due publisher, if the wire is ready for them. */
    method SendDue(curTimeMs: nat, flush: bool, net3: Net)
      requires Valid() && outgoing == []
      modifies this`publishers, this`wire, this`disconnected
      ensures Valid() && |publishers| == |old(publishers)| && (old(Ticking()) ==> Ticking())
      ensures wire == old(wire) + if net3.ready
                                  then DueOut(old(publishers), curTimeMs, flush, serverTimeOffsetUs) else []
      ensures Texts(wire) == Texts(old(wire)) && PingsOn(wire) == PingsOn(old(wire))
      ensures disconnected ==
              (old(disconnected)
               || (Stalled(net3) && DueOut(old(publishers), curTimeMs, flush, serverTimeOffsetUs) != []))
      ensures forall h: nat :: old(Turning(h)) ==> Turning(h)
      ensures forall h: nat :: At(publishers, h) ==
                               if net3.ready then Sent(old(At(publishers, h)), curTimeMs, flush)
                               else old(At(publishers, h))
    {
      hide Valid, Turns, Texts, PingsOn, ValuesOn, Stamped, DueOut;
      NoneDue(curTimeMs, flush, serverTimeOffsetUs);
      assert publishers[..0] == [];
      var checkedNetwork := false;
      for h := 0 to |publishers|
        invariant Valid() && |publishers| == |old(publishers)|
        invariant wire == old(wire) + DueOut(old(publishers)[..h], curTimeMs, flush, serverTimeOffsetUs)
        invariant Texts(wire) == Texts(old(wire)) && PingsOn(wire) == PingsOn(old(wire))
        invariant checkedNetwork ==> net3.ready
        invariant !checkedNetwork ==> DueOut(old(publishers)[..h], curTimeMs, flush, serverTimeOffsetUs) == []
        invariant disconnected == old(disconnected)
        invariant forall g: nat :: g >= h ==> At(publishers, g) == old(At(publishers, g))
        invariant forall g: nat :: g < h ==> At(publishers, g) == Sent(old(At(publishers, g)), curTimeMs, flush)
        invariant !checkedNetwork ==> publishers == old(publishers)
      {
        DuePush(old(publishers), h, curTimeMs, flush, serverTimeOffsetUs);
        assert publishers[h] == At(publishers, h) == old(At(publishers, h));
        if publishers[h].Some? && publishers[h].value.outValues != []
           && (flush || curTimeMs >= publishers[h].value.nextSendMs) {
          if !checkedNetwork {
            var ok := CheckNetworkReady(net3);
            if !ok {
              DueLater(old(publishers), h, curTimeMs, flush, serverTimeOffsetUs);
              return;
            }
            checkedNetwork := true;
          }
          SendPending(h, curTimeMs);
        }
      }
      assert old(publishers)[..|publishers|] == old(publishers);
    }

    /** All pending values of one publisher, oldest first. */
    method SendPending(h: nat, curTimeMs: nat)
      requires Valid() && outgoing == [] && At(publishers, h).Some?
      modifies this`publishers, this`wire
      ensures Valid() && Texts(wire) == Texts(old(wire)) && PingsOn(wire) == PingsOn(old(wire))
      ensures publishers == old(publishers)[h := Some(Emptied(old(publishers)[h].value, curTimeMs))]
      ensures forall g: nat :: ValuesOn(wire, g) == ValuesOn(old(wire), g)
                                                    + if g == h then old(publishers)[h].value.outValues else []
      ensures wire == old(wire) + Stamped(h, old(publishers)[h].value.outValues, serverTimeOffsetUs)
    {
      hide Turns, SetSince, SentSince, Texts, ValuesOn, Ok, Ordered, Stamped, PingsOn;
      NoneStamped(h, serverTimeOffsetUs);
      var p := publishers[h].value;
      assert PublisherOk(h);
      PublishedNow(publishers, h, Turns(Texts(wire), h), Turns(local, h), SetSince(local, h), Since(wire, outgoing, h));
      for i := 0 to |p.outValues|
        invariant publishers == old(publishers) && old(wire) <= wire && Ordered(wire) && Texts(wire) == Texts(old(wire))
        invariant forall g: nat :: ValuesOn(wire, g) == ValuesOn(old(wire), g) + if g == h then p.outValues[..i] else []
        invariant forall g: nat :: SentSince(wire, g)
                                   == SentSince(old(wire), g) + if g == h then p.outValues[..i] else []
        invariant wire == old(wire) + Stamped(h, p.outValues[..i], serverTimeOffsetUs)
        invariant PingsOn(wire) == PingsOn(old(wire))
      {
        SendOne(h, p.outValues[i]);
        assert p.outValues[..i + 1] == p.outValues[..i] + [p.outValues[i]];
        StampedPush(h, p.outValues, i, serverTimeOffsetUs);
      }
      assert p.outValues[..|p.outValues|] == p.outValues;
      publishers := publishers[h := Some(Emptied(p, curTimeMs))];
      forall g: nat
        ensures PublisherOk(g)
      {
        assert old(PublisherOk(g));
        NoTurns(g);
        if g == h {
          assert Since(wire, outgoing, g) == old(Since(wire, outgoing, g)) + p.outValues;
          DrainOk(p, curTimeMs, Turns(Texts(wire), g) + Turns(outgoing, g), Turns(outgoing, g), Turns(local, g),
                  SetSince(local, g), old(Since(wire, outgoing, g)));
        } else {
          assert SentSince(wire, g) == SentSince(old(wire), g);
        }
      }
    }

    /** One value, its time as the server's clock has it. */
    method SendOne(h: nat, val: Value)
      requires Ordered(wire) && EndsPublished(Turns(Texts(wire), h))
      modifies this`wire
      ensures Ordered(wire) && wire == old(wire) + [ValueOut(h, ServerTime(val.time, serverTimeOffsetUs), val)]
      ensures Texts(wire) == Texts(old(wire)) && PingsOn(wire) == PingsOn(old(wire))
      ensures forall g: nat :: ValuesOn(wire, g) == ValuesOn(old(wire), g) + if g == h then [val] else []
      ensures forall g: nat :: SentSince(wire, g) == SentSince(old(wire), g) + if g == h then [val] else []
    {
      hide Turns, SentSince, Texts, ValuesOn, Ordered, PingsOn;
      var time := val.time;
      if time != 0 {
        time := time + serverTimeOffsetUs;
        if time == 0 {
          time := 1;
        }
      }
      var w := ValueOut(h, time, val);
      TextsPush(wire, w);
      PingsPush(wire, w);
      OrderedPush(wire, w);
      forall g: nat
        ensures ValuesOn(wire + [w], g) == ValuesOn(wire, g) + if g == h then [val] else []
        ensures SentSince(wire + [w], g) == SentSince(wire, g) + if g == h then [val] else []
      {
        ValuesPush(wire, w, g);
        SentSincePush(wire, w, g);
      }
      wire := wire + [w];
    }

    /** Asks to send at time zero, which the rate limit always refuses. */
    method SendInitialValues(now: int, net1: Net, net2: Net)
      requires Valid() && Pinging()
      modifies this`wire, this`outgoing, this`disconnected, this`nextPingTimeMs, this`pongTimeMs, this`lastSendMs
      modifies this`pings
      ensures Valid() && Pinging()
      ensures wire == old(wire) && outgoing == old(outgoing) && disconnected == old(disconnected)
    {
      hide Valid, Texts, ValuesOn, Pinging;
      var ok := SendControl(0, now, net1, net2);
      if !ok {
        return;
      }
      assert false;
    }

    // Clock synchronisation

    ghost predicate Synced()
      reads this`haveTimeOffset, this`serverTimeOffsetUs, this`rtt2Us, this`samples
    {
      Sync(rtt2Us, haveTimeOffset, serverTimeOffsetUs) == SyncAll(samples)
    }

    /** The answer to a ping: when it was sent, the server's stamp, and the time now. */
    method HandlePong(curTimeMs: nat, sent: int, server: int, now: int)
      requires Synced()
      modifies this`pongTimeMs, this`rtt2Us, this`serverTimeOffsetUs, this`haveTimeOffset, this`samples
      ensures Synced() && samples == old(samples) + [Sample(sent, server, now)] && pongTimeMs == curTimeMs
    {
      pongTimeMs := curTimeMs;
      var rtt2 := HalfOf(now - sent);
      assert (samples + [Sample(sent, server, now)])[..|samples|] == samples;
      samples := samples + [Sample(sent, server, now)];
      if rtt2 < rtt2Us {
        rtt2Us := rtt2 % UINT32S;
        serverTimeOffsetUs := server + rtt2 - now;
        haveTimeOffset := true;
      }
    }

    // What holds at every point of every run

    /** The last turn on the wire before any value is a publish. */
    lemma ValuesFollowPublish(i: nat)
      requires Valid() && i < |wire| && wire[i].ValueOut?
      ensures EndsPublished(Turns(Texts(wire[..i]), wire[i].pub))
    {
      hide PublisherOk, Turns, Texts;
    }

    /**
     * If the local store takes turns, so does what is sent and queued; and of the values set since
     * the last turn those on the wire since then and those pending are all with `sendAll`, in
     * order, and otherwise end with the newest.
     */
    lemma FairStore(h: nat)
      requires Valid() && Alternating(Turns(local, h))
      ensures Alternating(Turns(Texts(wire) + outgoing, h))
      ensures At(publishers, h).Some? <==> EndsPublished(Turns(Texts(wire) + outgoing, h))
      ensures At(publishers, h).Some? <==> EndsPublished(Turns(local, h))
      ensures At(publishers, h).Some? ==>
                Coalesced(publishers[h].value, SetSince(local, h), Since(wire, outgoing, h))
      ensures At(publishers, h).Some? && publishers[h].value.options.sendAll ==>
                Since(wire, outgoing, h) + publishers[h].value.outValues == SetSince(local, h)
      ensures At(publishers, h).Some? && !publishers[h].value.options.sendAll ==>
                && |publishers[h].value.outValues| <= 1
                && (SetSince(local, h) != [] ==>
                      var newest := SetSince(local, h)[|SetSince(local, h)| - 1];
                      publishers[h].value.outValues == [newest]
                      || (publishers[h].value.outValues == [] && Since(wire, outgoing, h) != []
                          && Since(wire, outgoing, h)[|Since(wire, outgoing, h)| - 1] == newest))
    {
      hide Turns, Texts, Ordered, ValuesOn, SentSince;
      assert PublisherOk(h);
      TurnsAppend(Texts(wire), outgoing, h);
    }
  }

  // Runs

  datatype Op =
    | Local(msgs: seq<Message>)
    | Control(curTimeMs: nat, now: int, net1: Net, net2: Net)
    | Values(curTimeMs: nat, flush: bool, now: int, net1: Net, net2: Net, net3: Net)
    | Initial(now: int, net1: Net, net2: Net)
    | Pong(curTimeMs: nat, sent: int, server: int, now: int)

  function LocalOf(op: Op): seq<Message> {
    if op.Local? then op.msgs else []
  }

  function SamplesOf(op: Op): seq<Sample> {
    if op.Pong? then [Sample(op.sent, op.server, op.now)] else []
  }

  /** All the local messages of a run. */
  function AllLocal(ops: seq<Op>): seq<Message> {
    if ops == [] then [] else AllLocal(ops[..|ops| - 1]) + LocalOf(ops[|ops| - 1])
  }

  function AllSamples(ops: seq<Op>): seq<Sample> {
    if ops == [] then [] else AllSamples(ops[..|ops| - 1]) + SamplesOf(ops[|ops| - 1])
  }

  method Perform(c: Client, op: Op)
    requires c.Valid() && c.Synced() && c.Ticking() && c.Pinging()
    modifies c
    ensures c.Valid() && c.Synced() && c.Ticking() && c.Pinging() && old(c.wire) <= c.wire
    ensures c.local == old(c.local) + LocalOf(op) && c.samples == old(c.samples) + SamplesOf(op)
  {
    hide Client.Valid, Client.Synced, Client.Ticking, Texts, ValuesOn, PingsOn, AsTexts, DueOut;
    match op
    case Local(msgs) => c.HandleLocal(msgs);
    case Control(curTimeMs, now, net1, net2) => var ok := c.SendControl(curTimeMs, now, net1, net2);
    case Values(curTimeMs, flush, now, net1, net2, net3) => c.SendValues(curTimeMs, flush, now, net1, net2, net3);
    case Initial(now, net1, net2) => c.SendInitialValues(now, net1, net2);
    case Pong(curTimeMs, sent, server, now) => c.HandlePong(curTimeMs, sent, server, now);
  }

  /** Any sequence of calls, from construction on: the engine has taken in exactly what the calls gave it. */
  method RunSchedule(curTimeMs: nat, now: int, ops: seq<Op>) returns (c: Client)
    ensures c.Valid() && c.Synced() && c.Ticking() && c.local == AllLocal(ops) && c.samples == AllSamples(ops)
    ensures c.Pinging()
  {
    hide Client.Valid, Client.Synced, Client.Ticking, Client.Pinging;
    c := new Client(curTimeMs, now);
    for i := 0 to |ops|
      invariant c.Valid() && c.Synced() && c.Ticking() && c.Pinging() && fresh(c)
      invariant c.local == AllLocal(ops[..i]) && c.samples == AllSamples(ops[..i])
    {
      assert ops[..i + 1][..i] == ops[..i];
      Perform(c, ops[i]);
    }
    assert ops[..|ops|] == ops;
  }

  /**
   * A store that publishes twice is out of turn: the unpublish then cancels
   * only one publish, and the other goes out for a publisher that is gone.
   */
  method PublishTwice(h: nat, at: TopicRef, options: Options) returns (c: Client)
    ensures c.Valid() && At(c.publishers, h).None? && c.outgoing == [Publish(h, at, options)]
    ensures !Alternating(Turns(c.local, h))
  {
    hide Client.Valid, Turns, Alternating;
    c := new Client(0, 0);
    var p := Publish(h, at, options);
    c.AddPublisher(h, at, options);
    c.AddPublisher(h, at, options);
    assert c.outgoing == [p, p] && c.local == [p, p];
    c.RemovePublisher(h);
    assert [p, p][..0] + [p, p][1..] == [p];
    TwiceIsUnfair(h, at, options);
    assert c.local == [p, p, Unpublish(h)];
  }

  lemma TwiceIsUnfair(h: nat, at: TopicRef, options: Options)
    ensures var p := Publish(h, at, options); !Alternating(Turns([p, p, Unpublish(h)], h))
  {
    var p := Publish(h, at, options);
    TurnsPush([], p, h);
    TurnsPush([p], p, h);
    TurnsPush([p, p], Unpublish(h), h);
    NoTurns(h);
    hide Turns;
    assert [] + [p] == [p] && [p] + [p] == [p, p] && [p, p] + [Unpublish(h)] == [p, p, Unpublish(h)];
    assert Turns([p, p, Unpublish(h)], h) == [true, true, false];
    assert [true, true, false][1];
  }

  function Emptied(p: PublisherData, curTimeMs: nat): PublisherData {
    p.(outValues := [], nextSendMs := curTimeMs + p.periodMs)
  }

  /** A local time on the server's clock; zero stays zero and nothing else becomes zero. */
  function ServerTime(time: int, offset: int): int {
    if time == 0 then 0 else if time + offset == 0 then 1 else time + offset
  }

  /** Values as they go out. */
  function Stamped(h: nat, values: seq<Value>, offset: int): seq<Wire> {
    seq(|values|, i requires 0 <= i < |values| => ValueOut(h, ServerTime(values[i].time, offset), values[i]))
  }

  lemma StampedPush(h: nat, values: seq<Value>, i: nat, offset: int)
    requires i < |values|
    ensures Stamped(h, values[..i + 1], offset)
         == Stamped(h, values[..i], offset) + [ValueOut(h, ServerTime(values[i].time, offset), values[i])]
  {
  }

  lemma NoneStamped(h: nat, offset: int)
    ensures Stamped(h, [], offset) == []
  {
  }

  predicate Due(p: Option<PublisherData>, curTimeMs: nat, flush: bool) {
    p.Some? && p.value.outValues != [] && (flush || curTimeMs >= p.value.nextSendMs)
  }

  /** Values go out oldest first; a time is shifted by the offset, zero stays zero and nothing else becomes zero. */
  lemma StampedTimes(h: nat, values: seq<Value>, offset: int, i: nat)
    requires i < |values|
    ensures |Stamped(h, values, offset)| == |values|
    ensures var w := Stamped(h, values, offset)[i];
            && w.ValueOut? && w.pub == h && w.value == values[i]
            && (w.time == 0 <==> values[i].time == 0)
            && (values[i].time != 0 && values[i].time + offset != 0 ==> w.time == values[i].time + offset)
            && (values[i].time != 0 && values[i].time + offset == 0 ==> w.time == 1)
  {
  }

  /**
   * With honest stamps and no drift, the time a value carries on the wire is the server's, off by no
   * more than the smallest half round trip and two microseconds.
   */
  lemma SentInServerTime(samples: seq<Sample>, ahead: int, h: nat, values: seq<Value>, i: nat)
    requires forall j :: 0 <= j < |samples| ==> Honest(samples[j], ahead)
    requires SyncAll(samples).have && i < |values| && values[i].time != 0
    ensures |Stamped(h, values, SyncAll(samples).offsetUs)| == |values|
    ensures var c, w := SyncAll(samples), Stamped(h, values, SyncAll(samples).offsetUs)[i];
            w.ValueOut? && -c.rtt2Us - 2 <= w.time - (values[i].time + ahead) <= c.rtt2Us + 2
  {
    ClockError(samples, ahead);
    StampedTimes(h, values, SyncAll(samples).offsetUs, i);
    hide SyncAll, Stamped, Honest;
  }

  /** After a publisher's values have gone out, the next ones wait for its period, unless there is a flush. */
  lemma SendRate(p: PublisherData, first: nat, flush: bool, values: seq<Value>, second: nat)
    requires Due(Some(p), first, flush) && values != []
    ensures var q := Sent(Some(p), first, flush).value.(outValues := values);
            && (Due(Some(q), second, false) <==> second >= first + p.periodMs)
            && Due(Some(q), second, true)
  {
  }

  /** A publisher after its values have gone out, if they were due. */
  function Sent(p: Option<PublisherData>, curTimeMs: nat, flush: bool): Option<PublisherData> {
    if Due(p, curTimeMs, flush) then Some(Emptied(p.value, curTimeMs)) else p
  }

  /** The values of all publishers that are due, publisher by publisher. */
  function DueOut(ps: seq<Option<PublisherData>>, curTimeMs: nat, flush: bool, offset: int): seq<Wire> {
    if ps == [] then []
    else
      var h := |ps| - 1;
      DueOut(ps[..h], curTimeMs, flush, offset)
      + if Due(ps[h], curTimeMs, flush) then Stamped(h, ps[h].value.outValues, offset) else []
  }

  lemma NoneDue(curTimeMs: nat, flush: bool, offset: int)
    ensures DueOut([], curTimeMs, flush, offset) == []
  {
  }

  lemma DuePush(ps: seq<Option<PublisherData>>, h: nat, curTimeMs: nat, flush: bool, offset: int)
    requires h < |ps|
    ensures DueOut(ps[..h + 1], curTimeMs, flush, offset) == DueOut(ps[..h], curTimeMs, flush, offset)
            + if Due(ps[h], curTimeMs, flush) then Stamped(h, ps[h].value.outValues, offset) else []
  {
    assert ps[..h + 1][..h] == ps[..h];
  }

  /** One due publisher is enough. */
  lemma {:induction false} DueLater(ps: seq<Option<PublisherData>>, h: nat, curTimeMs: nat, flush: bool, offset: int)
    requires h < |ps| && Due(ps[h], curTimeMs, flush)
    ensures DueOut(ps, curTimeMs, flush, offset) != []
  {
    if h < |ps| - 1 {
      DueLater(ps[..|ps| - 1], h, curTimeMs, flush, offset);
    }
  }

  lemma PublishedNow(ps: seq<Option<PublisherData>>, h: nat, text: seq<bool>, asked: seq<bool>,
                     given: seq<Value>, sent: seq<Value>)
    requires At(ps, h).Some? && Ok(At(ps, h), text + Turns([], h), Turns([], h), asked, given, sent)
    ensures EndsPublished(text)
  {
    NoTurns(h);
    assert text + [] == text;
  }

  lemma DrainOk(p: PublisherData, curTimeMs: nat, all: seq<bool>, queued: seq<bool>, asked: seq<bool>,
                given: seq<Value>, sent: seq<Value>)
    requires Ok(Some(p), all, queued, asked, given, sent)
    ensures Ok(Some(Emptied(p, curTimeMs)), all, queued, asked, given, sent + p.outValues)
  {
    assert sent + p.outValues + [] == sent + p.outValues;
  }

  lemma NoTurns(h: nat)
    ensures Turns([], h) == []
  {
  }

  lemma FlushOk(p: Option<PublisherData>, all: seq<bool>, queued: seq<bool>, asked: seq<bool>,
                given: seq<Value>, sent: seq<Value>)
    requires Ok(p, all, queued, asked, given, sent)
    ensures Ok(p, all, [], asked, given, sent)
  {
  }
}
