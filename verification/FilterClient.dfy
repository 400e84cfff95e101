/** The subscription maintenance loop of examples/filter_subscriber.nim, composed with the filter service
    node it talks to: one client, any number of other peers, one time axis. */
module FilterClient {
  import opened Wrappers
  import opened FilterSubscriptions
  import opened FilterProtocol

  // The subscription maintenance interval.
  const INTERVAL: nat := 60 * SECOND

  datatype Client = Client(id: PeerId, pubsubTopic: string, contentTopic: string)

  function Wanted(me: Client): Criterion { Criterion(me.pubsubTopic, me.contentTopic) }

  // One request. handled: the server's two readings of the clock while handling it, if it got there;
  // intact: the answer arrived and could be read; replied: when the client's await returned.
  datatype Exchange = Exchange(handled: Option<(Moment, Moment)>, intact: bool, replied: Moment)

  // One turn of the loop. before, between: what else happens at the server before the ping is
  // handled, and between the ping and the subscribe request.
  datatype Round = Round(before: seq<Event>, ping: Exchange, between: seq<Event>, subscribe: Exchange)

  // now: end of the last step at the server; replied: when the client's last await returned; nextPing:
  // when its sleep ends and the next ping is sent.
  datatype Session = Session(table: Table, now: Moment, replied: Moment, nextPing: Moment, subscribes: nat, quit: bool)

  function OwnEvent(me: Client, request: Request, handled: (Moment, Moment)): Event {
    Handle(me.id, request, handled.0, handled.1, (_, _) => handled.1, handled.1, [])
  }

  function SubscribeRequest(me: Client): Request { Subscribe(Some(me.pubsubTopic), [me.contentTopic]) }

  // The server's table after the exchange, and whether the client sees a success.
  function Send(limits: Limits, t: Table, me: Client, request: Request, x: Exchange): (Table, bool) {
    match x.handled
    case None => (t, false)
    case Some(handled) =>
      var (t', status) := Step(limits, t, OwnEvent(me, request, handled));
      (t', x.intact && status == Ok)
  }

  function AfterPing(limits: Limits, me: Client, s: Session, r: Round): (Table, bool) {
    Send(limits, Run(limits, s.table, r.before), me, Ping, r.ping)
  }

  function ExchangeEnd(x: Exchange, now: Moment): Moment {
    if x.handled.Some? then x.handled.value.1 else now
  }

  function PingEnd(s: Session, r: Round): Moment { ExchangeEnd(r.ping, EndOf(r.before, s.now)) }

  function PlayRound(limits: Limits, me: Client, s: Session, r: Round): Session {
    var (t, pinged) := AfterPing(limits, me, s, r);
    if pinged then
      s.(table := t, now := PingEnd(s, r), replied := r.ping.replied, nextPing := r.ping.replied + INTERVAL)
    else
      var (t', subscribed) := Send(limits, Run(limits, t, r.between), me, SubscribeRequest(me), r.subscribe);
      Session(t', ExchangeEnd(r.subscribe, EndOf(r.between, PingEnd(s, r))), r.subscribe.replied,
              r.subscribe.replied + INTERVAL, s.subscribes + 1, !subscribed)
  }

  function Play(limits: Limits, me: Client, s: Session, rounds: seq<Round>): Session
    decreases |rounds|
  {
    if s.quit || |rounds| == 0 then s else Play(limits, me, PlayRound(limits, me, s, rounds[0]), rounds[1..])
  }

  //// Timing

  ghost predicate WellTimedExchange(x: Exchange, sent: Moment, now: Moment) {
    && sent <= x.replied
    && (x.handled.Some? ==> sent <= x.handled.value.0 && now <= x.handled.value.0 <= x.handled.value.1 <= x.replied)
  }

  ghost predicate OthersOnly(events: seq<Event>, me: Client) {
    forall i :: 0 <= i < |events| ==> !ByPeer(events[i], me.id)
  }

  ghost predicate WellTimedRound(limits: Limits, me: Client, s: Session, r: Round) {
    && OthersOnly(r.before, me) && WellTimedRun(r.before, s.now)
    && WellTimedExchange(r.ping, s.nextPing, EndOf(r.before, s.now))
    && (!AfterPing(limits, me, s, r).1 ==>
          && OthersOnly(r.between, me) && WellTimedRun(r.between, PingEnd(s, r))
          && WellTimedExchange(r.subscribe, r.ping.replied, EndOf(r.between, PingEnd(s, r))))
  }

  ghost predicate WellTimedSession(limits: Limits, me: Client, s: Session, rounds: seq<Round>)
    decreases |rounds|
  {
    !s.quit && |rounds| > 0 ==>
      && WellTimedRound(limits, me, s, rounds[0])
      && WellTimedSession(limits, me, PlayRound(limits, me, s, rounds[0]), rounds[1..])
  }

  //// The client's place in the table

  // The server knows the client, saw it last at the given moment, and lists it for what it wants.
  predicate Established(t: Table, me: Client, seen: Moment) {
    me.id in t.peers && t.peers[me.id].lastSeen == seen && me.id in SubscribersOf(t, Wanted(me))
  }

  // A message on the wanted topics that the server handles at this moment is pushed to the client.
  predicate Served(limits: Limits, t: Table, me: Client, at: Moment) {
    me.id in Recipients(limits, t, Wanted(me), _ => at)
  }

  predicate Evicted(events: seq<Event>, me: Client) {
    exists i :: 0 <= i < |events| && Evicts(events[i], me.id)
  }

  lemma EstablishedIsServed(limits: Limits, t: Table, me: Client, seen: Moment, at: Moment)
    requires Established(t, me, seen)
    ensures Served(limits, t, me, at) <==> at - seen <= limits.subscriptionTimeout
  {}

  lemma {:induction false} EndIsLater(events: seq<Event>, now: Moment)
    requires WellTimedRun(events, now)
    ensures now <= EndOf(events, now)
    ensures forall i :: 0 <= i < |events| ==> now <= events[i].at <= events[i].end <= EndOf(events, now)
    decreases |events|
  {
    if |events| > 0 {
      EndIsLater(events[1..], events[0].end);
      forall i | 0 <= i < |events| ensures now <= events[i].at <= events[i].end <= EndOf(events, now) {
        if i > 0 { assert events[i] == events[1..][i - 1]; }
      }
    }
  }

  // Other traffic leaves an established client alone for as long as its time has not run out.
  lemma {:induction false} StaysEstablished(limits: Limits, t: Table, me: Client, seen: Moment, events: seq<Event>,
                                            now: Moment)
    requires Established(t, me, seen) && OthersOnly(events, me) && WellTimedRun(events, now) && !Evicted(events, me)
    requires EndOf(events, now) - seen <= limits.subscriptionTimeout
    ensures Established(Run(limits, t, events), me, seen)
    decreases |events|
  {
    hide Step, Recipients;
    if |events| > 0 {
      var e, rest := events[0], events[1..];
      EndIsLater(events, now);
      OthersDoNotInterfere(limits, t, e, now, me.id);
      var t' := Step(limits, t, e).0;
      assert Wanted(me) in CriteriaOf(t, me.id) && Wanted(me) in CriteriaOf(t', me.id);
      assert forall i :: 0 <= i < |rest| ==> rest[i] == events[i + 1];
      assert EndOf(rest, e.end) == EndOf(events, now);
      StaysEstablished(limits, t', me, seen, rest, e.end);
    }
  }

  // Other traffic never refreshes or admits the client.
  lemma OthersNeverRefresh(limits: Limits, t: Table, me: Client, e: Event)
    requires !ByPeer(e, me.id)
    ensures var t' := Step(limits, t, e).0;
            && (me.id in t'.peers ==> me.id in t.peers && t'.peers[me.id] == t.peers[me.id])
            && (Evicts(e, me.id) ==> me.id !in t'.peers)
  {
    hide WithCriteria, WithoutCriteria, CriteriaOf, Dropped;
  }

  lemma {:induction false} RunNeverRefreshes(limits: Limits, t: Table, me: Client, events: seq<Event>)
    requires OthersOnly(events, me)
    ensures var t' := Run(limits, t, events);
            && (me.id in t'.peers ==> me.id in t.peers && t'.peers[me.id] == t.peers[me.id])
            && (Evicted(events, me) ==> me.id !in t'.peers)
    decreases |events|
  {
    hide Step;
    if |events| > 0 {
      var rest := events[1..];
      OthersNeverRefresh(limits, t, me, events[0]);
      assert forall i :: 0 <= i < |rest| ==> rest[i] == events[i + 1];
      RunNeverRefreshes(limits, Step(limits, t, events[0]).0, me, rest);
      if Evicted(events, me) && !Evicts(events[0], me.id) {
        var i :| 0 <= i < |events| && Evicts(events[i], me.id);
        assert Evicts(rest[i - 1], me.id);
      }
    }
  }

  // The exact answer to a ping that reaches the server after any traffic of others: it finds the
  // subscription exactly when nobody evicted the client and its time has not run out.
  lemma PingAnswer(limits: Limits, t: Table, me: Client, seen: Moment, events: seq<Event>, now: Moment, at: Moment,
                   mid: Moment)
    requires Established(t, me, seen) && OthersOnly(events, me) && WellTimedRun(events, now)
    requires EndOf(events, now) <= at <= mid
    ensures var (t', status) := Step(limits, Run(limits, t, events), OwnEvent(me, Ping, (at, mid)));
            && (status == Ok <==> !Evicted(events, me) && at - seen <= limits.subscriptionTimeout)
            && (status == Ok ==> Established(t', me, mid))
            && (status != Ok ==> t' == Run(limits, t, events))
  {
    hide Run;
    RunNeverRefreshes(limits, t, me, events);
    if !Evicted(events, me) && at - seen <= limits.subscriptionTimeout {
      StaysEstablished(limits, t, me, seen, events, now);
    }
  }

  // A granted subscribe request establishes the client, whatever the table said before.
  lemma SubscribeEstablishes(limits: Limits, t: Table, me: Client, at: Moment, mid: Moment)
    ensures var (t', status) := Step(limits, t, OwnEvent(me, SubscribeRequest(me), (at, mid)));
            && (status == Ok <==> if me.id in t.peers then t.peers[me.id].criteriaCount + 1 <= limits.maxCriteriaPerPeer
                                  else |t.peers| < limits.maxPeers)
            && (status == Ok ==> Established(t', me, at))
            && (status != Ok ==> t' == t)
  {
    var topics := [me.contentTopic];
    assert RequestCriteria(me.pubsubTopic, topics) == {Wanted(me)} by {
      assert forall x :: x in topics <==> x == me.contentTopic;
    }
    hide CriteriaOf, AddedCount, RequestCriteria;
  }

  //// No lapse

  // The messages of every moment up to the next ping reach the client, round after round.
  ghost predicate ServedUntilPing(limits: Limits, me: Client, s: Session, r: Round) {
    r.ping.handled.Some? && forall k, m: Moment :: 0 <= k <= |r.before| && m <= r.ping.handled.value.0 ==>
      Served(limits, Run(limits, s.table, r.before[..k]), me, m)
  }

  ghost predicate ServedThroughout(limits: Limits, me: Client, s: Session, rounds: seq<Round>)
    decreases |rounds|
  {
    |rounds| > 0 ==>
      && ServedUntilPing(limits, me, s, rounds[0])
      && ServedThroughout(limits, me, PlayRound(limits, me, s, rounds[0]), rounds[1..])
  }

  // The delay from the last refresh at the server to the client's receipt of that answer, and from
  // the sending of the next ping to its handling.
  function ReplyDelay(me: Client, s: Session): int
    requires me.id in s.table.peers
  {
    s.replied - s.table.peers[me.id].lastSeen
  }

  function RequestDelay(s: Session, r: Round): int
    requires r.ping.handled.Some?
  {
    r.ping.handled.value.0 - s.nextPing
  }

  // The client pings one interval after the last answer.
  predicate Rested(s: Session) { s.nextPing == s.replied + INTERVAL }

  lemma RoundsRest(limits: Limits, me: Client, s: Session, r: Round)
    ensures Rested(PlayRound(limits, me, s, r))
  {
    hide Send, Run, AfterPing;
  }

  // The ping arrives and its answer comes back, the peer store keeps the client, and the reply delay
  // plus the following request delay fit into what the interval leaves of the timeout.
  predicate CalmRound(limits: Limits, me: Client, s: Session, r: Round) {
    && r.ping.handled.Some? && r.ping.intact && !Evicted(r.before, me)
    && me.id in s.table.peers && ReplyDelay(me, s) + RequestDelay(s, r) <= limits.subscriptionTimeout - INTERVAL
  }

  predicate CalmSession(limits: Limits, me: Client, s: Session, rounds: seq<Round>)
    decreases |rounds|
  {
    |rounds| > 0 ==>
      CalmRound(limits, me, s, rounds[0]) && CalmSession(limits, me, PlayRound(limits, me, s, rounds[0]), rounds[1..])
  }

  lemma CalmRoundServes(limits: Limits, me: Client, s: Session, r: Round, seen: Moment)
    requires Rested(s) && Established(s.table, me, seen) && WellTimedRound(limits, me, s, r)
             && CalmRound(limits, me, s, r)
    ensures r.ping.handled.Some? && ServedUntilPing(limits, me, s, r)
    ensures var s' := PlayRound(limits, me, s, r);
            && s'.quit == s.quit && s'.subscribes == s.subscribes
            && Established(s'.table, me, r.ping.handled.value.1)
  {
    hide Step, Run, Recipients, SubscribersOf;
    var (at, mid) := r.ping.handled.value;
    PingAnswer(limits, s.table, me, seen, r.before, s.now, at, mid);
    forall k, m: Moment | 0 <= k <= |r.before| && m <= at
      ensures Served(limits, Run(limits, s.table, r.before[..k]), me, m)
    {
      PrefixIsWellTimed(r.before, s.now, k);
      StaysEstablished(limits, s.table, me, seen, r.before[..k], s.now);
      EstablishedIsServed(limits, Run(limits, s.table, r.before[..k]), me, seen, m);
    }
  }

  lemma {:induction false} PrefixIsWellTimed(events: seq<Event>, now: Moment, k: nat)
    requires WellTimedRun(events, now) && k <= |events|
    ensures WellTimedRun(events[..k], now) && EndOf(events[..k], now) <= EndOf(events, now)
    decreases |events|
  {
    hide WellTimed;
    if k > 0 {
      PrefixIsWellTimed(events[1..], events[0].end, k - 1);
      assert events[..k][1..] == events[1..][..k - 1];
    } else {
      EndIsLater(events, now);
    }
  }

  // In every run of the loop with such delays, however much the server does in between, the
  // subscription never lapses: no ping fails, no subscribe request is sent, no message is missed.
  lemma {:induction false} NoLapse(limits: Limits, me: Client, s: Session, rounds: seq<Round>, seen: Moment)
    requires !s.quit && Rested(s) && Established(s.table, me, seen)
    requires WellTimedSession(limits, me, s, rounds) && CalmSession(limits, me, s, rounds)
    ensures ServedThroughout(limits, me, s, rounds)
    ensures var s' := Play(limits, me, s, rounds);
            && !s'.quit && s'.subscribes == s.subscribes
            && exists seen' :: Established(s'.table, me, seen')
    decreases |rounds|
  {
    hide PlayRound, CalmRound, WellTimedRound, ServedUntilPing, Established, Rested;
    if |rounds| > 0 {
      RoundsRest(limits, me, s, rounds[0]);
      CalmRoundServes(limits, me, s, rounds[0], seen);
      NoLapse(limits, me, PlayRound(limits, me, s, rounds[0]), rounds[1..], rounds[0].ping.handled.value.1);
    }
  }

  // The bound is tight: with every ping answered and no eviction, a round asks for a new subscription
  // exactly when the two delays exceed it, which is 240 seconds under the default limits.
  lemma LapseBoundIsTight(limits: Limits, me: Client, s: Session, r: Round, seen: Moment)
    requires Rested(s) && Established(s.table, me, seen) && WellTimedRound(limits, me, s, r)
    requires r.ping.handled.Some? && r.ping.intact && !Evicted(r.before, me)
    ensures PlayRound(limits, me, s, r).subscribes == s.subscribes
            <==> ReplyDelay(me, s) + RequestDelay(s, r) <= limits.subscriptionTimeout - INTERVAL
    ensures limits == DEFAULT_LIMITS ==> limits.subscriptionTimeout - INTERVAL == 240 * SECOND
  {
    hide Step, Run;
    PingAnswer(limits, s.table, me, seen, r.before, s.now, r.ping.handled.value.0, r.ping.handled.value.1);
  }

  //// Recovery and economy

  predicate Delivered(x: Exchange) { x.handled.Some? && x.intact }

  // A round in which the loop finds no subscription: the ping did not get through, the client was
  // evicted, or its time ran out. If every ping gets through these are the losses of the subscription.
  predicate LossRound(limits: Limits, me: Client, seen: Moment, r: Round) {
    !Delivered(r.ping) || Evicted(r.before, me) || r.ping.handled.value.0 - seen > limits.subscriptionTimeout
  }

  // When the server saw the client last, after a round that did not end the loop.
  function NextSeen(limits: Limits, me: Client, seen: Moment, r: Round): Moment {
    if !LossRound(limits, me, seen, r) then r.ping.handled.value.1
    else if r.subscribe.handled.Some? then r.subscribe.handled.value.0 else seen
  }

  // The losses of a run, counted from what happened to the server and the network alone.
  function Losses(limits: Limits, me: Client, seen: Moment, rounds: seq<Round>): nat
    decreases |rounds|
  {
    if |rounds| == 0 then 0
    else (if LossRound(limits, me, seen, rounds[0]) then 1 else 0)
         + Losses(limits, me, NextSeen(limits, me, seen, rounds[0]), rounds[1..])
  }

  // The turns of the loop before it quits, the last one included.
  function Turns(limits: Limits, me: Client, s: Session, rounds: seq<Round>): (n: nat)
    ensures n <= |rounds|
    decreases |rounds|
  {
    if s.quit || |rounds| == 0 then 0 else 1 + Turns(limits, me, PlayRound(limits, me, s, rounds[0]), rounds[1..])
  }

  // One round from an established client: it sends a subscribe request exactly when there was a loss,
  // and unless that request fails (see WhenLoopQuits) it is established again at the end.
  lemma RoundRecovers(limits: Limits, me: Client, s: Session, r: Round, seen: Moment)
    requires !s.quit && Established(s.table, me, seen) && WellTimedRound(limits, me, s, r)
    ensures var s' := PlayRound(limits, me, s, r);
            && s'.subscribes == s.subscribes + (if LossRound(limits, me, seen, r) then 1 else 0)
            && (!s'.quit ==> Established(s'.table, me, NextSeen(limits, me, seen, r)))
            && (!LossRound(limits, me, seen, r) ==> !s'.quit)
  {
    hide Step, Run, Established;
    if Delivered(r.ping) {
      PingAnswer(limits, s.table, me, seen, r.before, s.now, r.ping.handled.value.0, r.ping.handled.value.1);
    }
    if LossRound(limits, me, seen, r) && r.subscribe.handled.Some? {
      var t := Run(limits, AfterPing(limits, me, s, r).0, r.between);
      SubscribeEstablishes(limits, t, me, r.subscribe.handled.value.0, r.subscribe.handled.value.1);
    }
  }

  // The table that the subscribe request of a round meets, if it gets there.
  function TableMet(limits: Limits, me: Client, s: Session, r: Round): Table {
    Run(limits, AfterPing(limits, me, s, r).0, r.between)
  }

  // The server has room for one more criterion of a peer it knows, or for one more peer.
  predicate HasRoom(limits: Limits, t: Table, me: Client) {
    if me.id in t.peers then t.peers[me.id].criteriaCount + 1 <= limits.maxCriteriaPerPeer
    else |t.peers| < limits.maxPeers
  }

  predicate Granted(limits: Limits, me: Client, s: Session, r: Round) {
    Delivered(r.subscribe) && HasRoom(limits, TableMet(limits, me, s, r), me)
  }

  // The loop quits exactly when its ping fails and then the subscribe request is lost or meets a server
  // without room.
  lemma WhenLoopQuits(limits: Limits, me: Client, s: Session, r: Round)
    requires !s.quit
    ensures PlayRound(limits, me, s, r).quit <==> !AfterPing(limits, me, s, r).1 && !Granted(limits, me, s, r)
  {
    hide Step, Run, AfterPing;
    if r.subscribe.handled.Some? {
      var (at, mid) := r.subscribe.handled.value;
      SubscribeEstablishes(limits, TableMet(limits, me, s, r), me, at, mid);
    }
  }

  // For an established client the ping fails exactly in the rounds with a loss.
  lemma PingFailsIffLost(limits: Limits, me: Client, s: Session, r: Round, seen: Moment)
    requires !s.quit && Established(s.table, me, seen) && WellTimedRound(limits, me, s, r)
    ensures AfterPing(limits, me, s, r).1 <==> !LossRound(limits, me, seen, r)
    ensures PlayRound(limits, me, s, r).quit <==> LossRound(limits, me, seen, r) && !Granted(limits, me, s, r)
  {
    WhenLoopQuits(limits, me, s, r);
    hide Step, Run, Established, Granted, PlayRound;
    if Delivered(r.ping) {
      PingAnswer(limits, s.table, me, seen, r.before, s.now, r.ping.handled.value.0, r.ping.handled.value.1);
    }
  }

  lemma QuitIsFinal(limits: Limits, me: Client, s: Session, rounds: seq<Round>)
    ensures s.quit ==> Play(limits, me, s, rounds) == s
  {}

  // The subscribe request of every loss is granted.
  predicate AllGranted(limits: Limits, me: Client, s: Session, rounds: seq<Round>, seen: Moment)
    decreases |rounds|
  {
    |rounds| > 0 ==>
      && (LossRound(limits, me, seen, rounds[0]) ==> Granted(limits, me, s, rounds[0]))
      && AllGranted(limits, me, PlayRound(limits, me, s, rounds[0]), rounds[1..], NextSeen(limits, me, seen, rounds[0]))
  }

  // Over a whole run: the loop is still running exactly when they all were.
  lemma {:induction false} LoopRunsOn(limits: Limits, me: Client, s: Session, rounds: seq<Round>, seen: Moment)
    requires !s.quit && Established(s.table, me, seen) && WellTimedSession(limits, me, s, rounds)
    ensures !Play(limits, me, s, rounds).quit <==> AllGranted(limits, me, s, rounds, seen)
    decreases |rounds|
  {
    hide PlayRound, WellTimedRound, LossRound, NextSeen, Established, Granted;
    if |rounds| > 0 {
      var s', seen' := PlayRound(limits, me, s, rounds[0]), NextSeen(limits, me, seen, rounds[0]);
      RoundRecovers(limits, me, s, rounds[0], seen);
      PingFailsIffLost(limits, me, s, rounds[0], seen);
      QuitIsFinal(limits, me, s', rounds[1..]);
      if !s'.quit { LoopRunsOn(limits, me, s', rounds[1..], seen'); }
    }
  }

  lemma {:induction false} LossesOfPrefix(limits: Limits, me: Client, seen: Moment, rounds: seq<Round>, n: nat)
    requires n <= |rounds|
    ensures Losses(limits, me, seen, rounds[..n]) <= Losses(limits, me, seen, rounds)
    decreases n
  {
    hide LossRound, NextSeen;
    if n > 0 {
      assert rounds[..n][1..] == rounds[1..][..n - 1];
      LossesOfPrefix(limits, me, NextSeen(limits, me, seen, rounds[0]), rounds[1..], n - 1);
    }
  }

  lemma {:induction false} AllTurns(limits: Limits, me: Client, s: Session, rounds: seq<Round>)
    ensures !Play(limits, me, s, rounds).quit ==> Turns(limits, me, s, rounds) == |rounds|
    decreases |rounds|
  {
    hide PlayRound;
    if !s.quit && |rounds| > 0 { AllTurns(limits, me, PlayRound(limits, me, s, rounds[0]), rounds[1..]); }
  }

  // Over every run, also one that a failing subscribe request ends, the subscribe requests are exactly as
  // many as the losses in the turns that the loop took.
  lemma {:induction false} TurnsAreEconomic(limits: Limits, me: Client, s: Session, rounds: seq<Round>, seen: Moment)
    requires !s.quit ==> Established(s.table, me, seen)
    requires WellTimedSession(limits, me, s, rounds)
    ensures Play(limits, me, s, rounds).subscribes
            == s.subscribes + Losses(limits, me, seen, rounds[..Turns(limits, me, s, rounds)])
    decreases |rounds|
  {
    hide PlayRound, WellTimedRound, LossRound, NextSeen, Established;
    if !s.quit && |rounds| > 0 {
      var s', seen' := PlayRound(limits, me, s, rounds[0]), NextSeen(limits, me, seen, rounds[0]);
      RoundRecovers(limits, me, s, rounds[0], seen);
      TurnsAreEconomic(limits, me, s', rounds[1..], seen');
      var n := Turns(limits, me, s', rounds[1..]);
      assert rounds[..n + 1][1..] == rounds[1..][..n];
    }
  }

  // Hence at most as many as all the losses, and as many if the loop is still running.
  lemma Economy(limits: Limits, me: Client, s: Session, rounds: seq<Round>, seen: Moment)
    requires !s.quit && Established(s.table, me, seen) && WellTimedSession(limits, me, s, rounds)
    ensures var s', losses := Play(limits, me, s, rounds), Losses(limits, me, seen, rounds);
            && s.subscribes <= s'.subscribes <= s.subscribes + losses
            && (!s'.quit ==> s'.subscribes == s.subscribes + losses)
  {
    hide Established, WellTimedSession, Losses, Play, Turns;
    var n := Turns(limits, me, s, rounds);
    TurnsAreEconomic(limits, me, s, rounds, seen);
    LossesOfPrefix(limits, me, seen, rounds, n);
    AllTurns(limits, me, s, rounds);
    assert n == |rounds| ==> rounds[..n] == rounds;
  }

  lemma PingToUnknown(limits: Limits, t: Table, me: Client, handled: (Moment, Moment))
    requires me.id !in t.peers
    ensures Step(limits, t, OwnEvent(me, Ping, handled)) == (t, NotFound)
  {}

  // A client that the server does not know yet needs one request more.
  lemma EconomyFromScratch(limits: Limits, me: Client, s: Session, rounds: seq<Round>)
    requires !s.quit && me.id !in s.table.peers && |rounds| > 0 && WellTimedSession(limits, me, s, rounds)
    ensures var s', first := Play(limits, me, s, rounds), rounds[0].subscribe.handled;
            var losses := if first.None? then 0 else Losses(limits, me, first.value.0, rounds[1..]);
            && s.subscribes + 1 <= s'.subscribes <= s.subscribes + 1 + losses
            && (!s'.quit ==> s'.subscribes == s.subscribes + 1 + losses)
  {
    hide Run, Step, Established;
    var r, first := rounds[0], rounds[0].subscribe.handled;
    var s' := PlayRound(limits, me, s, r);
    RunNeverRefreshes(limits, s.table, me, r.before);
    if r.ping.handled.Some? {
      PingToUnknown(limits, Run(limits, s.table, r.before), me, r.ping.handled.value);
    }
    assert s'.subscribes == s.subscribes + 1;
    if first.Some? {
      SubscribeEstablishes(limits, Run(limits, AfterPing(limits, me, s, r).0, r.between), me,
                           first.value.0, first.value.1);
      assert !s'.quit ==> Established(s'.table, me, first.value.0);
    }
    assert first.None? ==> s'.quit;
    QuitIsFinal(limits, me, s', rounds[1..]);
    hide PlayRound;
    if !s'.quit { Economy(limits, me, s', rounds[1..], first.value.0); }
  }

  // However early in the round the subscription is lost, it is back within one interval plus four
  // network delays, if the server has room.
  lemma RecoveryTime(limits: Limits, me: Client, s: Session, r: Round, seen: Moment, d: nat, lost: nat)
    requires !s.quit && Rested(s) && Established(s.table, me, seen) && seen <= s.now && WellTimedRound(limits, me, s, r)
    requires Delivered(r.ping) && Granted(limits, me, s, r)
    requires lost < |r.before| && Evicts(r.before[lost], me.id)
    requires ReplyDelay(me, s) <= d && RequestDelay(s, r) <= d
    requires r.ping.replied - r.ping.handled.value.0 <= d && r.subscribe.handled.value.0 - r.ping.replied <= d
    ensures var s', back := PlayRound(limits, me, s, r), r.subscribe.handled.value.0;
            !s'.quit && Established(s'.table, me, back) && back <= r.before[lost].at + INTERVAL + 4 * d
  {
    hide PlayRound, Run, SubscribersOf, HasRoom, TableMet;
    RoundRecovers(limits, me, s, r, seen);
    PingFailsIffLost(limits, me, s, r, seen);
    EndIsLater(r.before, s.now);
  }

  // An exchange that succeeds on the network, with delays of at most d either way.
  predicate Prompt(x: Exchange, sent: Moment, d: nat) {
    Delivered(x) && x.handled.value.0 - sent <= d && x.replied - x.handled.value.0 <= d
  }

  predicate PromptRound(limits: Limits, me: Client, s: Session, r: Round, seen: Moment, d: nat) {
    && Prompt(r.ping, s.nextPing, d)
    && (LossRound(limits, me, seen, r) ==>
          Prompt(r.subscribe, r.ping.replied, d) && HasRoom(limits, TableMet(limits, me, s, r), me))
  }

  predicate PromptSession(limits: Limits, me: Client, s: Session, rounds: seq<Round>, seen: Moment, d: nat)
    decreases |rounds|
  {
    |rounds| > 0 ==>
      && PromptRound(limits, me, s, rounds[0], seen, d)
      && PromptSession(limits, me, PlayRound(limits, me, s, rounds[0]), rounds[1..],
                       NextSeen(limits, me, seen, rounds[0]), d)
  }

  // The loop goes on, and the client is established again no later than one interval and four delays
  // after every loss of the round: an eviction before the ping or before the subscribe request, or the
  // moment when its time ran out.
  predicate Recovered(limits: Limits, me: Client, s: Session, r: Round, seen: Moment, d: nat) {
    var s', back := PlayRound(limits, me, s, r), NextSeen(limits, me, seen, r);
    && !s'.quit && Established(s'.table, me, back)
    && (forall i :: 0 <= i < |r.before| && Evicts(r.before[i], me.id) ==> back <= r.before[i].at + INTERVAL + 4 * d)
    && (LossRound(limits, me, seen, r) ==>
          forall i :: 0 <= i < |r.between| && Evicts(r.between[i], me.id) ==>
            back <= r.between[i].at + INTERVAL + 4 * d)
    && (r.ping.handled.Some? && r.ping.handled.value.0 - seen > limits.subscriptionTimeout ==>
          back <= seen + limits.subscriptionTimeout + INTERVAL + 4 * d)
  }

  predicate AlwaysRecovered(limits: Limits, me: Client, s: Session, rounds: seq<Round>, seen: Moment, d: nat)
    decreases |rounds|
  {
    |rounds| > 0 ==>
      && Recovered(limits, me, s, rounds[0], seen, d)
      && AlwaysRecovered(limits, me, PlayRound(limits, me, s, rounds[0]), rounds[1..],
                         NextSeen(limits, me, seen, rounds[0]), d)
  }

  // The loop between two rounds: the server saw the client at a moment not in its future, and the client
  // has had the answer within the delay.
  predicate Caught(s: Session, me: Client, seen: Moment, d: nat) {
    Rested(s) && Established(s.table, me, seen) && seen <= s.now && s.replied <= seen + d
  }

  lemma ClockOfRound(limits: Limits, me: Client, s: Session, r: Round)
    ensures var s' := PlayRound(limits, me, s, r);
            && Rested(s')
            && (AfterPing(limits, me, s, r).1 ==>
                  s'.subscribes == s.subscribes && s'.now == PingEnd(s, r) && s'.replied == r.ping.replied)
            && (!AfterPing(limits, me, s, r).1 ==>
                  && s'.subscribes == s.subscribes + 1 && s'.replied == r.subscribe.replied
                  && s'.now == ExchangeEnd(r.subscribe, EndOf(r.between, PingEnd(s, r))))
  {
    hide Send, Run, AfterPing, PingEnd, EndOf, ExchangeEnd;
  }

  lemma NothingToRepair(limits: Limits, me: Client, s: Session, r: Round, seen: Moment, d: nat)
    requires !LossRound(limits, me, seen, r)
    requires var s' := PlayRound(limits, me, s, r); !s'.quit && Established(s'.table, me, NextSeen(limits, me, seen, r))
    ensures Recovered(limits, me, s, r, seen, d)
  {
    hide PlayRound, Established;
  }

  lemma RoundIsRecovered(limits: Limits, me: Client, s: Session, r: Round, seen: Moment, d: nat)
    requires !s.quit && Caught(s, me, seen, d) && WellTimedRound(limits, me, s, r)
    requires PromptRound(limits, me, s, r, seen, d)
    ensures Recovered(limits, me, s, r, seen, d)
    ensures Caught(PlayRound(limits, me, s, r), me, NextSeen(limits, me, seen, r), d)
  {
    hide PlayRound, AfterPing, Established, HasRoom, TableMet;
    ClockOfRound(limits, me, s, r);
    RoundRecovers(limits, me, s, r, seen);
    PingFailsIffLost(limits, me, s, r, seen);
    EndIsLater(r.before, s.now);
    if LossRound(limits, me, seen, r) {
      EndIsLater(r.between, PingEnd(s, r));
    } else {
      hide Recovered;
      assert Recovered(limits, me, s, r, seen, d) by { NothingToRepair(limits, me, s, r, seen, d); }
    }
    hide WellTimedRun, EndOf;
  }

  // In every run of the loop with such delays, against a server with room, every loss is repaired that
  // soon and the loop never quits.
  lemma {:induction false} EveryLossIsRepaired(limits: Limits, me: Client, s: Session, rounds: seq<Round>, seen: Moment,
                                               d: nat)
    requires !s.quit && Caught(s, me, seen, d)
    requires WellTimedSession(limits, me, s, rounds) && PromptSession(limits, me, s, rounds, seen, d)
    ensures AlwaysRecovered(limits, me, s, rounds, seen, d)
    ensures !Play(limits, me, s, rounds).quit
    decreases |rounds|
  {
    hide PlayRound, WellTimedRound, PromptRound, Caught, NextSeen;
    if |rounds| > 0 {
      var s', seen' := PlayRound(limits, me, s, rounds[0]), NextSeen(limits, me, seen, rounds[0]);
      RoundIsRecovered(limits, me, s, rounds[0], seen, d);
      EveryLossIsRepaired(limits, me, s', rounds[1..], seen', d);
    }
  }

  //// What a successful ping proves

  // Requests of the client itself, as its loop sends them.
  predicate LoopRequest(e: Event, me: Client) {
    ByPeer(e, me.id) ==> e.request == Ping || e.request == SubscribeRequest(me)
  }

  // While the server counts the client as live, it lists it for what it wants.
  predicate ListedWhileLive(limits: Limits, t: Table, me: Client, now: Moment) {
    Live(limits, t, me.id, now) ==> me.id in SubscribersOf(t, Wanted(me))
  }

  lemma StepKeepsListed(limits: Limits, t: Table, me: Client, e: Event, now: Moment)
    requires ListedWhileLive(limits, t, me, now) && WellTimed(e, now) && LoopRequest(e, me)
    ensures ListedWhileLive(limits, Step(limits, t, e).0, me, e.end)
  {
    if ByPeer(e, me.id) {
      var topics := [me.contentTopic];
      assert RequestCriteria(me.pubsubTopic, topics) == {Wanted(me)} by {
        assert forall x :: x in topics <==> x == me.contentTopic;
      }
      hide CriteriaOf, AddedCount, RequestCriteria;
    } else {
      hide Step;
      OthersNeverRefresh(limits, t, me, e);
      var t' := Step(limits, t, e).0;
      if Live(limits, t', me.id, e.end) {
        OthersDoNotInterfere(limits, t, e, now, me.id);
        assert Wanted(me) in CriteriaOf(t, me.id) && Wanted(me) in CriteriaOf(t', me.id);
      }
    }
  }

  lemma {:induction false} RunKeepsListed(limits: Limits, t: Table, me: Client, events: seq<Event>, now: Moment)
    requires ListedWhileLive(limits, t, me, now) && WellTimedRun(events, now)
    requires forall i :: 0 <= i < |events| ==> LoopRequest(events[i], me)
    ensures ListedWhileLive(limits, Run(limits, t, events), me, EndOf(events, now))
    decreases |events|
  {
    hide Step, ListedWhileLive, WellTimed, LoopRequest;
    if |events| > 0 {
      var e, rest := events[0], events[1..];
      StepKeepsListed(limits, t, me, e, now);
      assert forall i :: 0 <= i < |rest| ==> rest[i] == events[i + 1];
      RunKeepsListed(limits, Step(limits, t, e).0, me, rest, e.end);
    }
  }

  // A ping only asks whether the peer is live, yet in every history of the server, including lost
  // answers, evictions, expiry and skewed clean-ups, a success means that the wanted messages are
  // being pushed to the client.
  lemma PingMeansServed(limits: Limits, me: Client, events: seq<Event>, at: Moment, mid: Moment)
    requires WellTimedRun(events, 0) && forall i :: 0 <= i < |events| ==> LoopRequest(events[i], me)
    requires EndOf(events, 0) <= at <= mid
    requires Step(limits, Run(limits, EMPTY, events), OwnEvent(me, Ping, (at, mid))).1 == Ok
    ensures Served(limits, Run(limits, EMPTY, events), me, at)
  {
    hide Run;
    RunKeepsListed(limits, EMPTY, me, events, 0);
  }
}
