/** From the local store to the wire: the client engine is given what the store tells its network. */
module LocalStorageToClient {
  import opened ClientProtocol
  import State = LocalStorageState
  import Store = LocalStorage
  import Turns = LocalStorageTurns
  import Engine = ClientEngine

  /** The values given for `h` since it was published, as they are on the wire and pending. */
  ghost predicate Carried(c: Engine.Client, sent: seq<Message>, h: nat)
    reads c
  {
    var p := Engine.At(c.publishers, h);
    p.Some? ==> Engine.Coalesced(p.value, SetSince(sent, h), Since(c.wire, c.outgoing, h))
  }

  /**
   * A store runs, its network starts and stays, and a client engine takes in what the store says
   * in any pieces, at any time.  If the calls made since the start are fair, then what the engine
   * sends and queues takes turns for every publisher, the engine holds exactly the publishers the
   * store has published, and of the values the store has given since it published one, those on
   * the wire and those pending are all, in order, or else end with the newest.
   */
  method Connected(before: seq<State.Op>, after: seq<State.Op>, curTimeMs: nat, now: int, ops: seq<Engine.Op>)
    returns (store: Store.LSImpl, c: Engine.Client)
    requires State.DoStartNetwork !in after
    requires Engine.AllLocal(ops) == State.AfterAll(State.EMPTY_STORE, before + [State.DoStartNetwork] + after).sent
    ensures store.Valid() && c.Valid() && c.local == store.sent
    ensures Turns.FairRun(State.AfterAll(State.EMPTY_STORE, before + [State.DoStartNetwork]), after)
        ==> forall h: nat ::
              && Alternating(ClientProtocol.Turns(Texts(c.wire) + c.outgoing, h))
              && (Engine.At(c.publishers, h).Some? <==> EndsPublished(ClientProtocol.Turns(store.sent, h)))
              && Carried(c, store.sent, h)
  {
    hide Store.LSImpl.TopicsNamed, Store.LSImpl.TopicsOk, Store.LSImpl.PublishersListed, Store.LSImpl.EntriesOk;
    hide Store.LSImpl.TopicsIndexed, Store.LSImpl.MirrorsTopics, Store.LSImpl.MirrorsEntries, Engine.Client.Valid;
    hide State.AfterAll, State.After, Turns.FairRun, Turns.InTurn, Turns.Known, Engine.AllLocal;
    c := Engine.RunSchedule(curTimeMs, now, ops);
    store := new Store.LSImpl();
    assert store.Parts() == {};
    Store.RunSchedule(store, before + [State.DoStartNetwork] + after);
    assert c.local == store.sent;
    StartedInTurn(before, after);
    if Turns.FairRun(State.AfterAll(State.EMPTY_STORE, before + [State.DoStartNetwork]), after) {
      forall h: nat
        ensures Alternating(ClientProtocol.Turns(Texts(c.wire) + c.outgoing, h))
        ensures Engine.At(c.publishers, h).Some? <==> EndsPublished(ClientProtocol.Turns(store.sent, h))
        ensures Carried(c, store.sent, h)
      {
        Turns.EachInTurn(store.sent, h);
        c.FairStore(h);
      }
    }
  }

  /** Since its start a network is told in turn iff every call is fair. */
  lemma StartedInTurn(before: seq<State.Op>, after: seq<State.Op>)
    requires State.DoStartNetwork !in after
    ensures Turns.InTurn(State.AfterAll(State.EMPTY_STORE, before + [State.DoStartNetwork] + after).sent)
       <==> Turns.FairRun(State.AfterAll(State.EMPTY_STORE, before + [State.DoStartNetwork]), after)
  {
    var first := before + [State.DoStartNetwork];
    var s := State.AfterAll(State.EMPTY_STORE, first);
    var b := State.AfterAll(State.EMPTY_STORE, before);
    State.AfterPush(State.EMPTY_STORE, first, |before|);
    assert first[..|before|] == before && first[..|first|] == first;
    Turns.AllKnown(before);
    Turns.AllKnown(first);
    Turns.FairIffInTurn(b, State.DoStartNetwork);
    Turns.RunInTurnIff(s, after);
    State.AfterAppend(State.EMPTY_STORE, first, after);
  }
}
