/** The two ends of the filter protocol as running programs: the service node's request handler and
    maintenance task, and the client's maintenance loop. */
module FilterService {
  import opened FilterSubscriptions
  import opened FilterProtocol
  import opened FilterNode
  import opened FilterClient

  class WakuFilter {
    const subscriptions: Subscriptions

    constructor (limits: Limits)
      ensures subscriptions.limits == limits && subscriptions.Contents() == EMPTY && fresh(subscriptions)
    {
      subscriptions := new Subscriptions(limits);
    }

    method PingSubscriber(peerId: PeerId, at: Moment, mid: Moment) returns (status: Status)
      modifies subscriptions
      ensures (subscriptions.Contents(), status)
              == HandlePing(subscriptions.limits, old(subscriptions.Contents()), peerId, at, mid)
    {
      if !subscriptions.IsSubscribed(peerId, at) {
        return NotFound;
      }
      subscriptions.RefreshSubscription(peerId, mid);
      return Ok;
    }

    method SubscribePeer(peerId: PeerId, request: Request, at: Moment) returns (status: Status)
      requires request.Subscribe?
      modifies subscriptions
      ensures (subscriptions.Contents(), status)
              == HandleSubscribe(subscriptions.limits, old(subscriptions.Contents()), peerId, request, at)
    {
      if request.pubsubTopic.None? || |request.contentTopics| == 0 {
        return BadRequest;
      }
      if |request.contentTopics| > MAX_CONTENT_TOPICS {
        return BadRequest;
      }
      var filterCriteria := RequestCriteria(request.pubsubTopic.value, request.contentTopics);
      var r := subscriptions.AddSubscription(peerId, filterCriteria, at);
      return if r == Accepted then Ok else ServiceUnavailable;
    }

    method UnsubscribePeer(peerId: PeerId, request: Request, at: Moment, order: seq<Criterion>) returns (status: Status)
      requires request.Unsubscribe? && Sound(subscriptions.Contents())
      requires request.pubsubTopic.Some? ==> forall i, j :: 0 <= i < j < |order| ==> order[i] != order[j]
      modifies subscriptions
      ensures (subscriptions.Contents(), status)
              == HandleUnsubscribe(old(subscriptions.Contents()), peerId, request, at, order)
    {
      if request.pubsubTopic.None? || |request.contentTopics| == 0 {
        return BadRequest;
      }
      if |request.contentTopics| > MAX_CONTENT_TOPICS {
        return BadRequest;
      }
      var r := subscriptions.RemoveSubscription(peerId, order, at);
      return if r == Accepted then Ok else NotFound;
    }

    method UnsubscribePeerFromAll(peerId: PeerId, at: Moment, mid: Moment, readAt: Readings) returns (status: Status)
      modifies subscriptions
      ensures (subscriptions.Contents(), status)
              == HandleUnsubscribeAll(subscriptions.limits, old(subscriptions.Contents()), peerId, at, mid, readAt)
    {
      if !subscriptions.IsSubscribed(peerId, at) {
        return NotFound;
      }
      subscriptions.RemovePeers({peerId});
      subscriptions.CleanUp(mid, readAt);
      return Ok;
    }

    // The periodic task: drop the peers that left the peer store, then clean up.
    method MaintainSubscriptions(inStore: set<PeerId>, now: Moment, readAt: Readings)
      modifies subscriptions
      ensures subscriptions.Contents()
              == Maintained(subscriptions.limits, old(subscriptions.Contents()), inStore, now, readAt)
    {
      var peersToRemove: set<PeerId> := {};
      var rest := subscriptions.peersSubscribed.Keys;
      while rest != {}
        invariant rest <= subscriptions.peersSubscribed.Keys
        invariant peersToRemove == subscriptions.peersSubscribed.Keys - rest - inStore
        decreases rest
      {
        var p :| p in rest;
        if p !in inStore {
          peersToRemove := peersToRemove + {p};
        }
        rest := rest - {p};
      }
      ghost var t := subscriptions.Contents();
      assert peersToRemove == t.peers.Keys - inStore;
      if |peersToRemove| > 0 {
        subscriptions.RemovePeers(peersToRemove);
      }
      assert subscriptions.Contents() == t.(peers := t.peers - peersToRemove);
      subscriptions.CleanUp(now, readAt);
    }

    // One request or one run of the task.
    method Serve(e: Event, ghost now: Moment) returns (status: Status)
      requires Good(subscriptions.limits, subscriptions.Contents(), now) && WellTimed(e, now)
      modifies subscriptions
      ensures (subscriptions.Contents(), status) == Step(subscriptions.limits, old(subscriptions.Contents()), e)
      ensures Good(subscriptions.limits, subscriptions.Contents(), e.end)
    {
      StepKeepsGood(subscriptions.limits, subscriptions.Contents(), e, now);
      hide HandlePing, HandleSubscribe, HandleUnsubscribe, HandleUnsubscribeAll, Maintained, Bounded, SeenBy;
      match e
      case Maintain(inStore, _, mid, readAt, _) =>
        MaintainSubscriptions(inStore, mid, readAt);
        status := Ok;
      case Handle(p, request, at, mid, readAt, _, order) =>
        match request {
          case Ping => status := PingSubscriber(p, at, mid);
          case Subscribe(_, _) => status := SubscribePeer(p, request, at);
          case Unsubscribe(_, _) => status := UnsubscribePeer(p, request, at, order);
          case UnsubscribeAll => status := UnsubscribePeerFromAll(p, at, mid, readAt);
        }
    }

    method ServeAll(events: seq<Event>, ghost now: Moment)
      requires Good(subscriptions.limits, subscriptions.Contents(), now) && WellTimedRun(events, now)
      modifies subscriptions
      ensures subscriptions.Contents() == Run(subscriptions.limits, old(subscriptions.Contents()), events)
      ensures Good(subscriptions.limits, subscriptions.Contents(), EndOf(events, now))
    {
      hide Good, Step, WellTimed;
      ghost var t := subscriptions.Contents();
      ghost var time := now;
      var i := 0;
      while i < |events|
        invariant 0 <= i <= |events|
        invariant Good(subscriptions.limits, subscriptions.Contents(), time) && WellTimedRun(events[i..], time)
        invariant Run(subscriptions.limits, subscriptions.Contents(), events[i..])
                  == Run(subscriptions.limits, t, events)
        invariant EndOf(events[i..], time) == EndOf(events, now)
      {
        assert events[i..][1..] == events[i + 1..];
        var _ := Serve(events[i], time);
        time := events[i].end;
        i := i + 1;
      }
    }
  }

  // One request of the client over the network; ok is what the client gets to see.
  method SendRequest(server: WakuFilter, me: Client, request: Request, x: Exchange, ghost sent: Moment,
                     ghost now: Moment) returns (ok: bool)
    requires request.Ping? || request.Subscribe?
    requires Good(server.subscriptions.limits, server.subscriptions.Contents(), now)
    requires WellTimedExchange(x, sent, now)
    modifies server.subscriptions
    ensures (server.subscriptions.Contents(), ok)
            == Send(server.subscriptions.limits, old(server.subscriptions.Contents()), me, request, x)
    ensures Good(server.subscriptions.limits, server.subscriptions.Contents(), ExchangeEnd(x, now))
  {
    hide Good, Step;
    match x.handled
    case None => ok := false;
    case Some(handled) =>
      var status := server.Serve(OwnEvent(me, request, handled), now);
      ok := x.intact && status == Ok;
  }

  // The maintenance loop, over the rounds that the network and the clock allow it.
  method MaintainSubscription(server: WakuFilter, me: Client, s: Session, rounds: seq<Round>) returns (r: Session)
    requires !s.quit && s.table == server.subscriptions.Contents()
    requires Good(server.subscriptions.limits, s.table, s.now)
    requires WellTimedSession(server.subscriptions.limits, me, s, rounds)
    modifies server.subscriptions
    ensures r == Play(server.subscriptions.limits, me, s, rounds)
    ensures server.subscriptions.Contents() == r.table
  {
    hide Good, Run, Send, WellTimedRun;
    ghost var limits := server.subscriptions.limits;
    ghost var state := s;
    var now: Moment, replied: Moment, nextPing: Moment := s.now, s.replied, s.nextPing;
    var subscribes: nat, quit := s.subscribes, false;
    var n := 0;
    while n < |rounds|
      invariant 0 <= n <= |rounds|
      invariant !quit && state == Session(server.subscriptions.Contents(), now, replied, nextPing, subscribes, quit)
      invariant Good(limits, state.table, now)
      invariant WellTimedSession(limits, me, state, rounds[n..])
      invariant Play(limits, me, state, rounds[n..]) == Play(limits, me, s, rounds)
    {
      var round := rounds[n];
      assert rounds[n..][0] == round && rounds[n..][1..] == rounds[n + 1..];
      server.ServeAll(round.before, now);
      now := EndOf(round.before, now);

      var pinged := SendRequest(server, me, Ping, round.ping, nextPing, now);
      now := ExchangeEnd(round.ping, now);
      if !pinged {
        server.ServeAll(round.between, now);
        now := EndOf(round.between, now);
        var subscribed := SendRequest(server, me, SubscribeRequest(me), round.subscribe, round.ping.replied, now);
        now := ExchangeEnd(round.subscribe, now);
        subscribes := subscribes + 1;
        replied := round.subscribe.replied;
        if !subscribed {
          quit := true;
        }
      } else {
        replied := round.ping.replied;
      }
      // the sleep
      nextPing := replied + INTERVAL;
      state := PlayRound(limits, me, state, round);
      n := n + 1;
      if quit {
        break;
      }
    }
    r := Session(server.subscriptions.Contents(), now, replied, nextPing, subscribes, quit);
  }
}
