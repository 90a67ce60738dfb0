/** The stream supervisor's subscription fields; every method is one step of `SubscriptionSpec`. */
module SpotStreams {
  import opened Prelude
  import opened SubscriptionSpec

  class SpotStream {
    var desired: set<Symbol>
    var subscribed: set<Stream>
    var pending: map<nat, Command>
    var requestId: nat
    var link: Link

    ghost function State(): Conn
      reads this
    {
      Conn(desired, subscribed, pending, requestId, link)
    }

    constructor ()
      ensures State() == START
    {
      desired, subscribed, pending, requestId := {}, {}, map[], 0;
      link := Link(false, false, false);
    }

    /** The streams of `wanted` in some order, each once. */
    method Listing(wanted: set<Stream>) returns (streams: seq<Stream>)
      ensures Lists(streams, wanted)
    {
      streams := [];
      var todo := wanted;
      while todo != {}
        invariant todo <= wanted && Distinct(streams)
        invariant forall x :: x in streams <==> x in wanted && x !in todo
        decreases |todo|
      {
        ghost var some := Pick(todo);
        var x :| x in todo;
        streams := streams + [x];
        todo := todo - {x};
      }
    }

    method UpdateSymbols(symbols: set<Symbol>, fates: nat -> Fate)
      returns (accepted: bool, ghost removed: seq<Stream>, ghost added: seq<Stream>)
      requires Inv(State())
      modifies this
      ensures accepted <==> |symbols| <= 200
      ensures if accepted then desired == symbols else State() == old(State())
      ensures accepted && !old(link.connected) ==> State() == old(State()).(desired := symbols)
      ensures EventOk(old(State()), SymbolsChange(symbols, removed, added, fates))
      ensures State() == Update(old(State()), symbols, removed, added, fates)
      ensures Inv(State())
    {
      var previous := StreamsOf(desired);
      var wanted := StreamsOf(symbols);
      var gone := Listing(previous - wanted);
      var new_ := Listing(wanted - previous);
      removed, added := gone, new_;
      UpdateKeeps(State(), symbols, removed, added, fates);
      ThreeStreamsEach(symbols);
      StepDesires(State(), SymbolsChange(symbols, removed, added, fates));
      if |wanted| > MAX_STREAMS {
        return false, removed, added;
      }
      desired := symbols;
      if !link.connected {
        return true, removed, added;
      }
      SendControl(Unsubscribe, gone, fates, 0);
      SendControl(Subscribe, new_, fates, |Chunks(gone)|);
      return true, removed, added;
    }

    /** Sends the streams in messages of at most 200, each booked as pending before it goes out. */
    method SendControl(verb: Verb, streams: seq<Stream>, fates: nat -> Fate, at: nat)
      modifies this
      ensures State() == SubscriptionSpec.SendControl(old(State()), verb, streams, fates, at)
    {
      hide SubscriptionSpec.SendControl, SubscriptionSpec.Chunks;
      var offset, k := 0, at;
      assert streams[0..] == streams;
      while offset < |streams|
        invariant offset <= |streams|
        invariant SubscriptionSpec.SendControl(old(State()), verb, streams, fates, at)
                  == SubscriptionSpec.SendControl(State(), verb, streams[offset..], fates, k)
      {
        var n := Min(|streams| - offset, MAX_PARAMS_PER_COMMAND);
        var chunk := streams[offset..offset + n];
        assert streams[offset..][..n] == chunk;
        assert streams[offset..][n..] == streams[offset + n..];
        if !link.connected {
          NothingConnected(State(), verb, streams[offset..], fates, k);
          return;
        }
        OneChunkFirst(State(), verb, streams[offset..], fates, k);
        match fates(k) {
          case StopSignalled =>
            link := link.(stopping := true);
            return;
          case LinkLost =>
            OnClose();
            return;
          case SendFails =>
            requestId := requestId + 1;
            link := link.(closing := true);
            return;
          case Sent =>
            requestId := requestId + 1;
            pending := pending[requestId := Command(verb, chunk)];
        }
        offset, k := offset + n, k + 1;
      }
      NothingToSend(State(), verb, fates, k);
      assert streams[offset..] == [];
    }

    method OnOpen(fates: nat -> Fate) returns (ghost listed: seq<Stream>)
      modifies this
      ensures Lists(listed, StreamsOf(old(desired)))
      ensures State() == Open(old(State()), listed, fates) && Inv(State())
    {
      var streams := Listing(StreamsOf(desired));
      listed := streams;
      OpenKeeps(State(), listed, fates);
      subscribed, pending := {}, map[];
      link := link.(connected := true, closing := false);
      SendControl(Subscribe, streams, fates, 0);
    }

    method OnAcknowledgement(id: nat, ok: bool)
      modifies this
      ensures State() == Ack(old(State()), id, ok)
      ensures id !in old(pending) ==> State() == old(State())
      ensures id in old(pending) ==>
                && pending == old(pending) - {id} && desired == old(desired) && requestId == old(requestId)
                && (!ok ==> subscribed == old(subscribed) && link == old(link).(closing := true))
                && (ok ==> link == old(link))
                && (ok && old(pending)[id].verb.Subscribe? ==>
                      subscribed == old(subscribed) + Elements(old(pending)[id].streams))
                && (ok && old(pending)[id].verb.Unsubscribe? ==>
                      subscribed == old(subscribed) - Elements(old(pending)[id].streams))
    {
      if id !in pending {
        return;
      }
      var command := pending[id];
      pending := pending - {id};
      if !ok {
        link := link.(closing := true);
        return;
      }
      match command.verb {
        case Subscribe => subscribed := subscribed + Elements(command.streams);
        case Unsubscribe => subscribed := subscribed - Elements(command.streams);
      }
    }

    method OnClose()
      modifies this
      ensures State() == Dropped(old(State()))
      ensures subscribed == {} && pending == map[] && !link.connected
      ensures desired == old(desired) && requestId == old(requestId)
    {
      subscribed, pending := {}, map[];
      link := link.(connected := false, closing := false);
    }
  }
}
