/** The request handler and the maintenance task of a filter service node (waku/waku_filter_v2/protocol.nim)
    as steps of one state machine, with every reading of the clock made explicit. */
module FilterProtocol {
  import opened Wrappers
  import opened FilterSubscriptions
  import opened FilterInvariants

  const MAX_CONTENT_TOPICS: nat := 100

  datatype Request =
    | Ping
    | Subscribe(pubsubTopic: Option<string>, contentTopics: seq<string>)
    | Unsubscribe(pubsubTopic: Option<string>, contentTopics: seq<string>)
    | UnsubscribeAll

  datatype Status = Ok | BadRequest | NotFound | ServiceUnavailable

  type Readings = (Criterion, PeerId) -> Moment

  // at, mid: the first and second reading of the clock; readAt: the readings of the clean-up's second
  // pass; end: any moment after the last of them. order: the iteration order of the request's set.
  datatype Event =
    | Handle(peer: PeerId, request: Request, at: Moment, mid: Moment, readAt: Readings, end: Moment,
             order: seq<Criterion>)
    | Maintain(inStore: set<PeerId>, at: Moment, mid: Moment, readAt: Readings, end: Moment)

  function RequestCriteria(pubsubTopic: string, contentTopics: seq<string>): set<Criterion> {
    set topic | topic in contentTopics :: Criterion(pubsubTopic, topic)
  }

  predicate ValidTopics(pubsubTopic: Option<string>, contentTopics: seq<string>) {
    pubsubTopic.Some? && 0 < |contentTopics| <= MAX_CONTENT_TOPICS
  }

  predicate Enumerates(order: seq<Criterion>, criteria: set<Criterion>) {
    && (forall i, j :: 0 <= i < j < |order| ==> order[i] != order[j])
    && (set c | c in order) == criteria
  }

  ghost predicate WellTimed(e: Event, now: Moment) {
    && now <= e.at <= e.mid <= e.end
    && (forall c, p :: e.mid <= e.readAt(c, p) <= e.end)
    && (e.Handle? && e.request.Unsubscribe? && e.request.pubsubTopic.Some? ==>
          Enumerates(e.order, RequestCriteria(e.request.pubsubTopic.value, e.request.contentTopics)))
  }

  //// One step

  function Refreshed(t: Table, p: PeerId, now: Moment): Table
    requires p in t.peers
  {
    t.(peers := t.peers[p := t.peers[p].(lastSeen := now)])
  }

  function HandlePing(limits: Limits, t: Table, p: PeerId, at: Moment, mid: Moment): (Table, Status) {
    if !Live(limits, t, p, at) then (t, NotFound) else (Refreshed(t, p, mid), Ok)
  }

  function HandleSubscribe(limits: Limits, t: Table, p: PeerId, r: Request, at: Moment): (Table, Status)
    requires r.Subscribe?
  {
    if !ValidTopics(r.pubsubTopic, r.contentTopics) then (t, BadRequest)
    else
      var criteria := RequestCriteria(r.pubsubTopic.value, r.contentTopics);
      if AddResult(limits, t, p, criteria) != Accepted then (t, ServiceUnavailable)
      else (Added(t, p, criteria, at), Ok)
  }

  function HandleUnsubscribe(t: Table, p: PeerId, r: Request, at: Moment, order: seq<Criterion>): (Table, Status)
    requires r.Unsubscribe?
  {
    if !ValidTopics(r.pubsubTopic, r.contentTopics) then (t, BadRequest)
    else if p !in t.peers then (t, NotFound)
    else (Removed(t, p, order, at), if KnownPrefix(t, order) == |order| then Ok else NotFound)
  }

  function HandleUnsubscribeAll(limits: Limits, t: Table, p: PeerId, at: Moment, mid: Moment,
                                readAt: Readings): (Table, Status) {
    if !Live(limits, t, p, at) then (t, NotFound)
    else (Cleaned(limits, t.(peers := t.peers - {p}), mid, readAt), Ok)
  }

  // Peers that the peer store no longer knows are dropped before the clean-up.
  function Maintained(limits: Limits, t: Table, inStore: set<PeerId>, now: Moment, readAt: Readings): Table {
    Cleaned(limits, t.(peers := t.peers - (t.peers.Keys - inStore)), now, readAt)
  }

  function Step(limits: Limits, t: Table, e: Event): (Table, Status) {
    match e
    case Maintain(inStore, at, mid, readAt, _) => (Maintained(limits, t, inStore, mid, readAt), Ok)
    case Handle(p, request, at, mid, readAt, _, order) =>
      match request
      case Ping => HandlePing(limits, t, p, at, mid)
      case Subscribe(_, _) => HandleSubscribe(limits, t, p, request, at)
      case Unsubscribe(_, _) => HandleUnsubscribe(t, p, request, at, order)
      case UnsubscribeAll => HandleUnsubscribeAll(limits, t, p, at, mid, readAt)
  }

  //// Invariant of every run

  function Max(a: nat, b: nat): nat { if a < b then b else a }

  ghost predicate Bounded(limits: Limits, t: Table) {
    && |t.peers| <= limits.maxPeers
    && (forall p :: p in t.peers ==>
          1 <= t.peers[p].criteriaCount <= Max(limits.maxCriteriaPerPeer, MAX_CONTENT_TOPICS))
  }

  ghost predicate SeenBy(t: Table, now: Moment) {
    forall p :: p in t.peers ==> t.peers[p].lastSeen <= now
  }

  ghost predicate Good(limits: Limits, t: Table, now: Moment) {
    Sound(t) && Bounded(limits, t) && SeenBy(t, now)
  }

  lemma {:induction false} RequestCriteriaSize(pubsubTopic: string, contentTopics: seq<string>)
    ensures |RequestCriteria(pubsubTopic, contentTopics)| <= |contentTopics|
    ensures contentTopics != [] ==> RequestCriteria(pubsubTopic, contentTopics) != {}
  {
    if contentTopics != [] {
      var first, rest := contentTopics[0], contentTopics[1..];
      RequestCriteriaSize(pubsubTopic, rest);
      assert Criterion(pubsubTopic, first) in RequestCriteria(pubsubTopic, contentTopics);
      assert RequestCriteria(pubsubTopic, contentTopics)
             == {Criterion(pubsubTopic, first)} + RequestCriteria(pubsubTopic, rest);
    }
  }

  lemma {:induction false} OneCriterionPerTopic(pubsubTopic: string, contentTopics: seq<string>)
    ensures |RequestCriteria(pubsubTopic, contentTopics)| == |set topic | topic in contentTopics|
  {
    if contentTopics != [] {
      var first, rest := contentTopics[0], contentTopics[1..];
      OneCriterionPerTopic(pubsubTopic, rest);
      TopicsOfOneMore(first, rest);
      assert contentTopics == [first] + rest;
      CriteriaOfOneMore(pubsubTopic, first, rest);
      assert Criterion(pubsubTopic, first) in RequestCriteria(pubsubTopic, rest) <==> first in rest;
    }
    hide RequestCriteria;
  }

  lemma TopicsOfOneMore(first: string, rest: seq<string>)
    ensures (set topic | topic in [first] + rest) == {first} + set topic | topic in rest
  {}

  lemma CriteriaOfOneMore(pubsubTopic: string, first: string, rest: seq<string>)
    ensures RequestCriteria(pubsubTopic, [first] + rest)
            == {Criterion(pubsubTopic, first)} + RequestCriteria(pubsubTopic, rest)
  {
    assert forall x :: x in [first] + rest <==> x == first || x in rest;
    assert first in [first] + rest;
  }

  lemma MapSizeIsKeySetSize<K, V>(m: map<K, V>)
    ensures |m| == |m.Keys|
  {}

  lemma AddKeepsBounds(limits: Limits, t: Table, p: PeerId, criteria: set<Criterion>, now: Moment)
    requires Sound(t) && Bounded(limits, t) && AddResult(limits, t, p, criteria) == Accepted
    requires 0 < |criteria| <= MAX_CONTENT_TOPICS
    ensures Bounded(limits, Added(t, p, criteria, now))
  {
    hide AddedCount, CriteriaOf, WithCriteria, Sound, AddResult;
    PeerLimitHolds(limits, t, p, criteria, now);
    AddedCountBounds(limits, t, p, criteria);
    var n, t' := AddedCount(t, p, criteria), Added(t, p, criteria, now);
    assert 1 <= n <= Max(limits.maxCriteriaPerPeer, MAX_CONTENT_TOPICS);
    assert t'.peers == t.peers[p := PeerData(now, n)];
  }

  lemma SubscribeKeepsGood(limits: Limits, t: Table, p: PeerId, r: Request, at: Moment)
    requires r.Subscribe? && Good(limits, t, at)
    ensures Good(limits, HandleSubscribe(limits, t, p, r, at).0, at)
  {
    hide Sound, Exact, Bounded, RequestCriteria, CriteriaOf, WithCriteria;
    if ValidTopics(r.pubsubTopic, r.contentTopics) {
      var criteria := RequestCriteria(r.pubsubTopic.value, r.contentTopics);
      if AddResult(limits, t, p, criteria) == Accepted {
        RequestCriteriaSize(r.pubsubTopic.value, r.contentTopics);
        AddKeepsSound(t, p, criteria, at);
        AddKeepsBounds(limits, t, p, criteria, at);
      }
    }
  }

  lemma RemoveKeepsBounds(limits: Limits, t: Table, p: PeerId, order: seq<Criterion>, now: Moment)
    requires p in t.peers && Sound(t) && Bounded(limits, t)
    ensures Bounded(limits, Removed(t, p, order, now))
  {
    var t' := Removed(t, p, order, now);
    RemoveNeverUnderflows(t, p, order);
    hide CriteriaOf, WithoutCriteria, Dropped, Sound;
    SubsetIsNoLarger(t'.peers.Keys, t.peers.Keys);
    MapSizeIsKeySetSize(t'.peers);
    MapSizeIsKeySetSize(t.peers);
  }

  lemma UnsubscribeKeepsGood(limits: Limits, t: Table, p: PeerId, order: seq<Criterion>, at: Moment)
    requires p in t.peers && Good(limits, t, at)
    ensures Good(limits, Removed(t, p, order, at), at)
  {
    hide Sound, Exact, Bounded, CriteriaOf, WithoutCriteria, Dropped;
    RemoveKeepsSound(t, p, order, at);
    RemoveKeepsBounds(limits, t, p, order, at);
  }

  // Dropping peers and cleaning up at once leaves no entry of a dropped peer behind.
  lemma DropAndCleanKeepsGood(limits: Limits, t: Table, gone: set<PeerId>, now: Moment, readAt: Readings, end: Moment)
    requires Good(limits, t, end)
    ensures Good(limits, Cleaned(limits, t.(peers := t.peers - gone), now, readAt), end)
  {
    var u := t.(peers := t.peers - gone);
    var t' := Cleaned(limits, u, now, readAt);
    forall p | p in u.peers ensures |CriteriaOf(u, p)| <= u.peers[p].criteriaCount {
      assert CriteriaOf(u, p) == CriteriaOf(t, p);
    }
    CleanUpKeepsSound(limits, u, now, readAt);
    SubsetIsNoLarger(t'.peers.Keys, t.peers.Keys);
    MapSizeIsKeySetSize(t'.peers);
    MapSizeIsKeySetSize(t.peers);
  }

  lemma RefreshKeepsGood(limits: Limits, t: Table, p: PeerId, now: Moment)
    requires p in t.peers && Good(limits, t, now)
    ensures Good(limits, Refreshed(t, p, now), now)
  {
    var t' := Refreshed(t, p, now);
    assert t'.peers.Keys == t.peers.Keys;
    MapSizeIsKeySetSize(t'.peers);
    MapSizeIsKeySetSize(t.peers);
    forall q ensures CriteriaOf(t', q) == CriteriaOf(t, q) {}
  }

  // Every request and every maintenance run keeps the table sound and within its limits, whatever
  // the clock does in between.
  lemma StepKeepsGood(limits: Limits, t: Table, e: Event, now: Moment)
    requires Good(limits, t, now) && WellTimed(e, now)
    ensures Good(limits, Step(limits, t, e).0, e.end)
  {
    match e
    case Maintain(inStore, at, mid, readAt, end) =>
      DropAndCleanKeepsGood(limits, t, t.peers.Keys - inStore, mid, readAt, end);
    case Handle(p, request, at, mid, readAt, end, order) =>
      match request
      case Ping =>
        if Live(limits, t, p, at) { RefreshKeepsGood(limits, t, p, mid); }
      case Subscribe(_, _) => SubscribeKeepsGood(limits, t, p, request, at);
      case Unsubscribe(_, _) =>
        if p in t.peers { UnsubscribeKeepsGood(limits, t, p, order, at); }
      case UnsubscribeAll => DropAndCleanKeepsGood(limits, t, {p}, mid, readAt, end);
  }

  function Run(limits: Limits, t: Table, events: seq<Event>): Table
    decreases |events|
  {
    if |events| == 0 then t else Run(limits, Step(limits, t, events[0]).0, events[1..])
  }

  ghost predicate WellTimedRun(events: seq<Event>, now: Moment)
    decreases |events|
  {
    |events| > 0 ==> WellTimed(events[0], now) && WellTimedRun(events[1..], events[0].end)
  }

  function EndOf(events: seq<Event>, now: Moment): Moment {
    if |events| == 0 then now else events[|events| - 1].end
  }

  const EMPTY: Table := Table(map[], map[])

  // Safety over whole runs: from the empty table, any interleaving of requests and maintenance.
  lemma {:induction false} RunKeepsGood(limits: Limits, t: Table, events: seq<Event>, now: Moment)
    requires Good(limits, t, now) && WellTimedRun(events, now)
    ensures Good(limits, Run(limits, t, events), EndOf(events, now))
    decreases |events|
  {
    hide Good, WellTimed, Step;
    if |events| > 0 {
      StepKeepsGood(limits, t, events[0], now);
      RunKeepsGood(limits, Step(limits, t, events[0]).0, events[1..], events[0].end);
    }
  }

  lemma EmptyIsGood(limits: Limits)
    ensures Good(limits, EMPTY, 0) && Exact(EMPTY)
  {}

  // What the invariant says, spelled out for every history of the node.
  lemma EveryHistoryIsSound(limits: Limits, events: seq<Event>)
    requires WellTimedRun(events, 0)
    ensures var t := Run(limits, EMPTY, events);
            && |t.peers| <= limits.maxPeers
            && (forall p :: p in t.peers ==>
                  && 1 <= t.peers[p].criteriaCount && |CriteriaOf(t, p)| <= t.peers[p].criteriaCount
                  && (t.peers[p].criteriaCount <= limits.maxCriteriaPerPeer || t.peers[p].criteriaCount <= 100)
                  && t.peers[p].lastSeen <= EndOf(events, 0))
            && (forall c, p :: p in SubscribersOf(t, c) ==> p in t.peers)
            && (forall c :: c in t.subscriptions ==> t.subscriptions[c] != {})
  {
    EmptyIsGood(limits);
    RunKeepsGood(limits, EMPTY, events, 0);
    hide Run, WellTimedRun, CriteriaOf;
  }

  //// Exactness of the counters

  // The clean-up runs for some peer from one reading of the clock into its deadline.
  ghost predicate Skewed(limits: Limits, t: Table, gone: set<PeerId>, now: Moment, readAt: Readings) {
    exists c, p :: c in t.subscriptions && p in t.subscriptions[c] && p !in gone && Live(limits, t, p, now)
                   && !Live(limits, t, p, readAt(c, p))
  }

  ghost predicate SkewedStep(limits: Limits, t: Table, e: Event) {
    match e
    case Maintain(inStore, _, mid, readAt, _) => Skewed(limits, t, t.peers.Keys - inStore, mid, readAt)
    case Handle(p, request, at, mid, readAt, _, _) =>
      request.UnsubscribeAll? && Live(limits, t, p, at) && Skewed(limits, t, {p}, mid, readAt)
  }

  lemma DropAndCleanKeepsExact(limits: Limits, t: Table, gone: set<PeerId>, now: Moment, readAt: Readings)
    requires Exact(t)
    ensures Exact(Cleaned(limits, t.(peers := t.peers - gone), now, readAt)) <==> !Skewed(limits, t, gone, now, readAt)
  {
    var u := t.(peers := t.peers - gone);
    forall p | p in u.peers ensures |CriteriaOf(u, p)| == u.peers[p].criteriaCount {
      assert CriteriaOf(u, p) == CriteriaOf(t, p);
    }
    CleanUpKeepsExact(limits, u, now, readAt);
    assert forall p, m :: Live(limits, u, p, m) <==> p !in gone && Live(limits, t, p, m);
    hide Cleaned, Exact, Sound, CriteriaOf;
  }

  lemma RefreshKeepsExact(t: Table, p: PeerId, now: Moment)
    requires p in t.peers && Exact(t)
    ensures Exact(Refreshed(t, p, now))
  {
    forall q ensures CriteriaOf(Refreshed(t, p, now), q) == CriteriaOf(t, q) {}
  }

  lemma ExactIsSound(t: Table)
    requires Exact(t)
    ensures Sound(t)
  {}

  // The counters stay exact in exactly the steps without such a clean-up.
  lemma StepKeepsExact(limits: Limits, t: Table, e: Event)
    requires Exact(t)
    ensures Exact(Step(limits, t, e).0) <==> !SkewedStep(limits, t, e)
  {
    hide Exact, Sound, CriteriaOf, Cleaned, Added, Removed, Refreshed, Skewed, AddResult, RequestCriteria;
    assert Sound(t) by { ExactIsSound(t); }
    match e
    case Maintain(inStore, _, mid, readAt, _) =>
      DropAndCleanKeepsExact(limits, t, t.peers.Keys - inStore, mid, readAt);
    case Handle(p, request, at, mid, readAt, _, order) =>
      match request
      case Ping =>
        if Live(limits, t, p, at) { RefreshKeepsExact(t, p, mid); }
      case Subscribe(pubsubTopic, contentTopics) =>
        if ValidTopics(pubsubTopic, contentTopics) {
          AddKeepsSound(t, p, RequestCriteria(pubsubTopic.value, contentTopics), at);
        }
      case Unsubscribe(_, _) =>
        if p in t.peers { RemoveKeepsSound(t, p, order, at); }
      case UnsubscribeAll =>
        if Live(limits, t, p, at) { DropAndCleanKeepsExact(limits, t, {p}, mid, readAt); }
  }

  // A clean-up one tick astride a deadline: the peer keeps a counter of 1 with no criterion left, and
  // under a limit of 1 its next request for the very same criterion is refused.
  lemma SkewExample(p: PeerId, c: Criterion)
    ensures var limits := Limits(300 * SECOND, 1, 1);
            var t := Added(EMPTY, p, {c}, 0);
            var t' := Cleaned(limits, t, 300 * SECOND, (_, _) => 300 * SECOND + 1);
            && Exact(t) && !Exact(t')
            && CriteriaOf(t', p) == {} && p in t'.peers && t'.peers[p].criteriaCount == 1
            && AddResult(limits, t', p, {c}) == TooManyCriteria
  {
    EmptyIsGood(Limits(300 * SECOND, 1, 1));
    AddKeepsSound(EMPTY, p, {c}, 0);
    assert {c} - CriteriaOf(EMPTY, p) == {c};
  }

  // Under a limit of one criterion per peer, a first request for two is granted.
  lemma FirstRequestExample(p: PeerId, c: Criterion, d: Criterion)
    requires c != d
    ensures var limits := Limits(300 * SECOND, 1, 1);
            && AddResult(limits, EMPTY, p, {c, d}) == Accepted
            && Added(EMPTY, p, {c, d}, 0).peers[p].criteriaCount == 2
  {
    assert {c, d} - CriteriaOf(EMPTY, p) == {c, d};
  }

  // The size check counts criteria twice that the peer already holds: a known peer is refused a request
  // that would fit exactly when only these make it too large.
  lemma RefusedThoughFitting(limits: Limits, t: Table, p: PeerId, criteria: set<Criterion>)
    requires p in t.peers
    ensures var room := limits.maxCriteriaPerPeer - t.peers[p].criteriaCount;
            AddResult(limits, t, p, criteria) != Accepted && AddedCount(t, p, criteria) <= limits.maxCriteriaPerPeer
            <==> room < |criteria| <= room + |criteria * CriteriaOf(t, p)|
  {
    var held := CriteriaOf(t, p);
    assert criteria == (criteria - held) + (criteria * held);
    hide CriteriaOf;
  }

  // Under a limit of one criterion a peer is refused the one that it holds.
  lemma RefusalExample(p: PeerId, c: Criterion)
    ensures var limits, t := Limits(300 * SECOND, 1, 1), Added(EMPTY, p, {c}, 0);
            AddResult(limits, t, p, {c}) == TooManyCriteria && CriteriaOf(t, p) == {c} && AddedCount(t, p, {c}) == 1
  {
    CriteriaAfterAdd(EMPTY, p, {c}, 0, p);
    assert CriteriaOf(EMPTY, p) == {} && {c} - {} == {c} && {c} - {c} == {};
  }

  //// Unsubscribing

  lemma {:induction false} KnownPrefixIsAll(t: Table, order: seq<Criterion>)
    ensures KnownPrefix(t, order) == |order| <==> forall c :: c in order ==> c in t.subscriptions
  {
    if |order| > 0 && order[0] in t.subscriptions {
      KnownPrefixIsAll(t, order[1..]);
      assert forall c :: c in order <==> c == order[0] || c in order[1..];
    }
  }

  // Success does not need the peer to hold the criteria, only somebody to hold each of them; then it
  // holds none of them. A failure may already have taken some of them away.
  lemma UnsubscribeOutcome(t: Table, p: PeerId, r: Request, at: Moment, order: seq<Criterion>)
    requires r.Unsubscribe? && ValidTopics(r.pubsubTopic, r.contentTopics)
    requires Enumerates(order, RequestCriteria(r.pubsubTopic.value, r.contentTopics))
    ensures var criteria := RequestCriteria(r.pubsubTopic.value, r.contentTopics);
            var (t', status) := HandleUnsubscribe(t, p, r, at, order);
            && (status == Ok <==> p in t.peers && criteria <= t.subscriptions.Keys)
            && (status == Ok ==> CriteriaOf(t', p) == CriteriaOf(t, p) - criteria)
            && CriteriaOf(t, p) - criteria <= CriteriaOf(t', p) <= CriteriaOf(t, p)
            && (p in t.peers ==> CriteriaOf(t', p) == CriteriaOf(t, p) - set c | c in order[..KnownPrefix(t, order)])
  {
    var criteria := RequestCriteria(r.pubsubTopic.value, r.contentTopics);
    assert forall c :: c in order <==> c in criteria;
    KnownPrefixIsAll(t, order);
    if p in t.peers {
      CriteriaAfterRemove(t, p, order, at, p);
      assert order[..|order|] == order;
    }
    hide RequestCriteria, WithoutCriteria, Removed;
  }

  //// The two requests that name topics, in terms of what they name

  predicate Names(pubsubTopic: Option<string>, contentTopics: seq<string>, c: Criterion) {
    pubsubTopic == Some(c.pubsubTopic) && c.contentTopic in contentTopics
  }

  // The answer to a subscribe request.
  lemma SubscribeAnswer(limits: Limits, t: Table, e: Event, topic: Option<string>, contents: seq<string>)
    requires e.Handle? && e.request == Subscribe(topic, contents)
    ensures var (t', status) := Step(limits, t, e);
            var malformed := topic.None? || contents == [] || |contents| > 100;
            var asked := |set x | x in contents|;
            && (status == BadRequest <==> malformed)
            && (status == Ok <==> !malformed && if e.peer in t.peers
                                               then t.peers[e.peer].criteriaCount + asked <= limits.maxCriteriaPerPeer
                                               else |t.peers| < limits.maxPeers)
            && (status == ServiceUnavailable <==> !malformed && status != Ok)
            && (status != Ok ==> t' == t)
  {
    hide Added, CriteriaOf;
    if topic.Some? { OneCriterionPerTopic(topic.value, contents); }
    hide RequestCriteria;
  }

  lemma NamedIsRequested(topic: string, contents: seq<string>, c: Criterion)
    ensures c in RequestCriteria(topic, contents) <==> Names(Some(topic), contents, c)
  {}

  lemma GrantedMeansAdded(limits: Limits, t: Table, e: Event, topic: Option<string>, contents: seq<string>)
    requires e.Handle? && e.request == Subscribe(topic, contents) && Step(limits, t, e).1 == Ok
    ensures topic.Some? && Step(limits, t, e).0 == Added(t, e.peer, RequestCriteria(topic.value, contents), e.at)
  {
    hide CriteriaOf, RequestCriteria, Added, AddResult;
  }

  // A granted one adds exactly the criteria that it names, to this peer and no other.
  lemma SubscribeEffect(limits: Limits, t: Table, e: Event, topic: Option<string>, contents: seq<string>, q: PeerId,
                        c: Criterion)
    requires e.Handle? && e.request == Subscribe(topic, contents) && Step(limits, t, e).1 == Ok
    ensures var t' := Step(limits, t, e).0;
            && (c in CriteriaOf(t', q) <==> c in CriteriaOf(t, q) || (q == e.peer && Names(topic, contents, c)))
            && e.peer in t'.peers && t'.peers[e.peer].lastSeen == e.at
            && (q != e.peer ==> (q in t'.peers <==> q in t.peers))
            && (q != e.peer && q in t.peers ==> t'.peers[q] == t.peers[q])
  {
    GrantedMeansAdded(limits, t, e, topic, contents);
    NamedIsRequested(topic.value, contents, c);
    hide Step, CriteriaOf, RequestCriteria, Names, WithCriteria, AddedCount;
    CriteriaAfterAdd(t, e.peer, RequestCriteria(topic.value, contents), e.at, q);
  }

  // The answer to an unsubscribe request.
  lemma UnsubscribeAnswer(limits: Limits, t: Table, e: Event, topic: Option<string>, contents: seq<string>, now: Moment)
    requires e.Handle? && e.request == Unsubscribe(topic, contents) && WellTimed(e, now)
    ensures var (t', status) := Step(limits, t, e);
            var malformed := topic.None? || contents == [] || |contents| > 100;
            && (status == BadRequest <==> malformed)
            && (status == Ok <==> !malformed && e.peer in t.peers
                                  && forall c :: Names(topic, contents, c) ==> c in t.subscriptions)
            && (status == NotFound <==> !malformed && status != Ok)
            && (malformed || e.peer !in t.peers ==> t' == t)
  {
    if ValidTopics(topic, contents) {
      UnsubscribeOutcome(t, e.peer, e.request, e.at, e.order);
      assert forall c :: c in RequestCriteria(topic.value, contents) <==> Names(topic, contents, c);
    }
    hide Removed, CriteriaOf, RequestCriteria, Names, KnownPrefix;
  }

  // A successful one takes exactly the criteria that it names, from this peer and no other.
  lemma UnsubscribeEffect(limits: Limits, t: Table, e: Event, topic: Option<string>, contents: seq<string>, now: Moment,
                          q: PeerId, c: Criterion)
    requires e.Handle? && e.request == Unsubscribe(topic, contents) && WellTimed(e, now)
    requires Step(limits, t, e).1 == Ok
    ensures var t' := Step(limits, t, e).0;
            && (c in CriteriaOf(t', q) <==> c in CriteriaOf(t, q) && !(q == e.peer && Names(topic, contents, c)))
            && (e.peer in t'.peers ==> t'.peers[e.peer].lastSeen == e.at)
            && (q != e.peer ==> (q in t'.peers <==> q in t.peers))
            && (q != e.peer && q in t.peers ==> t'.peers[q] == t.peers[q])
  {
    UnsubscribeOutcome(t, e.peer, e.request, e.at, e.order);
    assert c in RequestCriteria(topic.value, contents) <==> Names(topic, contents, c);
    CriteriaAfterRemove(t, e.peer, e.order, e.at, q);
    hide CriteriaOf, WithoutCriteria, Dropped, RequestCriteria, KnownPrefix, Enumerates;
  }

  lemma TwoPeers(p: PeerId, q: PeerId, c: Criterion, d: Criterion)
    requires p != q
    ensures var t := Added(Added(EMPTY, p, {c}, 0), q, {d}, 0);
            CriteriaOf(t, p) == {c} && p in t.peers && {d} <= t.subscriptions.Keys
  {
    var t0 := Added(EMPTY, p, {c}, 0);
    CriteriaAfterAdd(EMPTY, p, {c}, 0, p);
    CriteriaAfterAdd(t0, q, {d}, 0, p);
    assert CriteriaOf(EMPTY, p) == {};
    hide CriteriaOf, AddedCount;
  }

  lemma OneCriterion(topic: string, content: string)
    ensures RequestCriteria(topic, [content]) == {Criterion(topic, content)}
  {
    assert forall x :: x in [content] <==> x == content;
    assert content in [content];
  }

  // One peer withdraws what only another one holds, and is told that it succeeded.
  lemma UnsubscribeExample(p: PeerId, q: PeerId, topic: string, held: string, other: string)
    requires p != q && held != other
    ensures var t := Added(Added(EMPTY, p, {Criterion(topic, held)}, 0), q, {Criterion(topic, other)}, 0);
            var (t', status) :=
              HandleUnsubscribe(t, p, Unsubscribe(Some(topic), [other]), 0, [Criterion(topic, other)]);
            && Criterion(topic, other) !in CriteriaOf(t, p)
            && status == Ok && CriteriaOf(t', p) == CriteriaOf(t, p) == {Criterion(topic, held)}
  {
    hide CriteriaOf, Added, RequestCriteria, HandleUnsubscribe;
    var t := Added(Added(EMPTY, p, {Criterion(topic, held)}, 0), q, {Criterion(topic, other)}, 0);
    TwoPeers(p, q, Criterion(topic, held), Criterion(topic, other));
    OneCriterion(topic, other);
    UnsubscribeOutcome(t, p, Unsubscribe(Some(topic), [other]), 0, [Criterion(topic, other)]);
  }

  lemma {:induction false} EnumerationExists(criteria: set<Criterion>) returns (order: seq<Criterion>)
    ensures Enumerates(order, criteria)
    decreases |criteria|
  {
    if criteria == {} { return []; }
    var c :| c in criteria;
    var rest := EnumerationExists(criteria - {c});
    order := StartingWith(c, rest, criteria);
  }

  lemma StartingWith(c: Criterion, rest: seq<Criterion>, criteria: set<Criterion>) returns (order: seq<Criterion>)
    requires c in criteria && Enumerates(rest, criteria - {c})
    ensures Enumerates(order, criteria) && order == [c] + rest
  {
    order := [c] + rest;
    assert forall x :: x in rest <==> x in criteria - {c};
    assert forall x :: x in order <==> x == c || x in rest;
  }

  // A request that fails for a criterion that nobody holds leaves the peer all it has, in whatever order
  // the set is walked, exactly when it asks for nothing that the peer has.
  lemma FailedUnsubscribe(t: Table, p: PeerId, criteria: set<Criterion>, at: Moment)
    requires p in t.peers && !(criteria <= t.subscriptions.Keys)
    ensures (forall order :: Enumerates(order, criteria) ==>
               CriteriaOf(Removed(t, p, order, at), p) == CriteriaOf(t, p))
            <==> criteria !! CriteriaOf(t, p)
  {
    forall order | Enumerates(order, criteria) && criteria !! CriteriaOf(t, p)
      ensures CriteriaOf(Removed(t, p, order, at), p) == CriteriaOf(t, p)
    {
      CriteriaAfterRemove(t, p, order, at, p);
      assert forall c :: c in Dropped(t, p, order) ==> c in order && c in CriteriaOf(t, p);
      assert forall c :: c in order ==> c in criteria;
    }
    if c :| c in criteria && c in CriteriaOf(t, p) {
      var rest := EnumerationExists(criteria - {c});
      var order := StartingWith(c, rest, criteria);
      CriteriaAfterRemove(t, p, order, at, p);
      assert order[0] == c && c in order[..KnownPrefix(t, order)];
      assert c in Dropped(t, p, order) && c !in CriteriaOf(Removed(t, p, order, at), p);
    }
    hide Enumerates, Removed, Dropped, KnownPrefix;
  }

  // A peer asks to withdraw what it holds and something unknown: it is told that this failed, and the
  // criterion it held is gone.
  lemma FailedUnsubscribeExample(p: PeerId, topic: string, held: string, unknown: string)
    requires held != unknown
    ensures var c, d := Criterion(topic, held), Criterion(topic, unknown);
            var t := Added(EMPTY, p, {c}, 0);
            var (t', status) := HandleUnsubscribe(t, p, Unsubscribe(Some(topic), [held, unknown]), 0, [c, d]);
            && Enumerates([c, d], RequestCriteria(topic, [held, unknown]))
            && CriteriaOf(t, p) == {c} && status == NotFound && CriteriaOf(t', p) == {}
  {
    var c, d := Criterion(topic, held), Criterion(topic, unknown);
    var t, contents, order := Added(EMPTY, p, {c}, 0), [held, unknown], [c, d];
    assert RequestCriteria(topic, contents) == {c, d} by {
      assert contents[0] == held && contents[1] == unknown;
    }
    assert (set x | x in order) == {c, d} by { assert order[0] == c && order[1] == d; }
    CriteriaAfterAdd(EMPTY, p, {c}, 0, p);
    assert t.subscriptions.Keys == {c};
    assert CriteriaOf(EMPTY, p) == {};
    CutAtUnknown(t, c, d);
    hide RequestCriteria, Added, CriteriaOf, HandleUnsubscribe;
    UnsubscribeOutcome(t, p, Unsubscribe(Some(topic), contents), 0, order);
  }

  lemma CutAtUnknown(t: Table, c: Criterion, d: Criterion)
    requires c in t.subscriptions && d !in t.subscriptions
    ensures (set x | x in [c, d][..KnownPrefix(t, [c, d])]) == {c}
  {
    assert [c, d][1..] == [d];
    assert [c, d][..1] == [c];
  }

  // A peer that asked to be forgotten is: no entry of any kind is left, whoever else is cleaned up.
  lemma UnsubscribeAllForgets(limits: Limits, t: Table, p: PeerId, at: Moment, mid: Moment, readAt: Readings)
    ensures var (t', status) := HandleUnsubscribeAll(limits, t, p, at, mid, readAt);
            && (status == Ok <==> Live(limits, t, p, at))
            && (status == Ok ==> p !in t'.peers && CriteriaOf(t', p) == {})
            && (status != Ok ==> t' == t)
  {
    if Live(limits, t, p, at) {
      CriteriaAfterCleanUp(limits, t.(peers := t.peers - {p}), mid, readAt, p);
    }
  }

  lemma ListedIffHeld(t: Table, p: PeerId, c: Criterion)
    ensures p in SubscribersOf(t, c) <==> c in CriteriaOf(t, p)
  {}

  // A granted subscribe request serves the peer what it asks for and, if it was known, all that it had.
  lemma GrantServes(limits: Limits, t: Table, p: PeerId, criteria: set<Criterion>, now: Moment, c: Criterion)
    ensures p in Recipients(limits, Added(t, p, criteria, now), c, _ => now) <==> c in criteria || c in CriteriaOf(t, p)
  {
    hide WithCriteria, AddedCount;
    var t' := Added(t, p, criteria, now);
    CriteriaAfterAdd(t, p, criteria, now, p);
    ListedIffHeld(t', p, c);
    hide CriteriaOf, SubscribersOf;
  }

  // So does an unsubscribe request with what it leaves, whether it succeeds or not.
  lemma UnsubscribeServes(limits: Limits, t: Table, p: PeerId, order: seq<Criterion>, now: Moment, c: Criterion)
    requires Sound(t) && p in t.peers
    ensures p in Recipients(limits, Removed(t, p, order, now), c, _ => now)
            <==> c in CriteriaOf(t, p) && c !in order[..KnownPrefix(t, order)]
  {
    var t', dropped := Removed(t, p, order, now), Dropped(t, p, order);
    CriteriaAfterRemove(t, p, order, now, p);
    assert c in dropped <==> c in CriteriaOf(t, p) && c in order[..KnownPrefix(t, order)];
    ListedIffHeld(t', p, c);
    RemoveKeepsSound(t, p, order, now);
    if c in CriteriaOf(t', p) { HoldersAreKnown(t', p, c); }
    hide CriteriaOf, SubscribersOf, Dropped, WithoutCriteria, Sound;
  }

  lemma HoldersAreKnown(t: Table, p: PeerId, c: Criterion)
    requires Sound(t) && c in CriteriaOf(t, p)
    ensures p in t.peers
  {}

  // What a request does for a peer whose time has run out, known or not: a granted subscribe request
  // brings back all that the peer had, an unsubscribe request with valid topics, even a failing one, all
  // but what it took away, and no other request anything.
  lemma ExpiredSubscriptionsComeBack(limits: Limits, t: Table, e: Event, c: Criterion)
    requires Sound(t) && e.Handle? && !Live(limits, t, e.peer, e.at)
    ensures e.peer in Recipients(limits, Step(limits, t, e).0, c, _ => e.at)
            <==> match e.request
                 case Subscribe(pubsubTopic, contentTopics) =>
                   && Step(limits, t, e).1 == Ok
                   && (c in CriteriaOf(t, e.peer) || c in RequestCriteria(pubsubTopic.value, contentTopics))
                 case Unsubscribe(pubsubTopic, contentTopics) =>
                   && ValidTopics(pubsubTopic, contentTopics)
                   && c in CriteriaOf(t, e.peer) && c !in e.order[..KnownPrefix(t, e.order)]
                 case _ => false
  {
    hide CriteriaOf, SubscribersOf, Sound, Added, Removed, Cleaned, AddResult, RequestCriteria, KnownPrefix;
    var p := e.peer;
    match e.request
    case Subscribe(pubsubTopic, contentTopics) =>
      if ValidTopics(pubsubTopic, contentTopics) {
        GrantServes(limits, t, p, RequestCriteria(pubsubTopic.value, contentTopics), e.at, c);
      }
    case Unsubscribe(_, _) =>
      if p in t.peers { UnsubscribeServes(limits, t, p, e.order, e.at, c); } else { UnknownPeersAreUnlisted(t, p); }
    case _ =>
  }

  // After 301 seconds a peer is not served any more, until it asks for something else.
  lemma ComebackExample(p: PeerId, c: Criterion, d: Criterion)
    requires c != d
    ensures var late, t := 301 * SECOND, Added(EMPTY, p, {c}, 0);
            && p !in Recipients(DEFAULT_LIMITS, t, c, _ => late)
            && AddResult(DEFAULT_LIMITS, t, p, {d}) == Accepted
            && p in Recipients(DEFAULT_LIMITS, Added(t, p, {d}, late), c, _ => late)
  {
    var late, t := 301 * SECOND, Added(EMPTY, p, {c}, 0);
    assert {c} - CriteriaOf(EMPTY, p) == {c};
    CriteriaAfterAdd(EMPTY, p, {c}, 0, p);
    GrantServes(DEFAULT_LIMITS, t, p, {d}, late, c);
    hide CriteriaOf, WithCriteria;
  }

  // It is also served again after trying to withdraw what nobody holds, and being told that this failed.
  lemma RevivalExample(p: PeerId, topic: string, held: string, other: string)
    requires held != other
    ensures var late, c, d := 301 * SECOND, Criterion(topic, held), Criterion(topic, other);
            var t := Added(EMPTY, p, {c}, 0);
            var (t', status) := HandleUnsubscribe(t, p, Unsubscribe(Some(topic), [other]), late, [d]);
            && p !in Recipients(DEFAULT_LIMITS, t, c, _ => late)
            && status == NotFound && p in Recipients(DEFAULT_LIMITS, t', c, _ => late)
  {
    var late, c, d := 301 * SECOND, Criterion(topic, held), Criterion(topic, other);
    var t := Added(EMPTY, p, {c}, 0);
    EmptyIsGood(DEFAULT_LIMITS);
    AddKeepsSound(EMPTY, p, {c}, 0);
    CriteriaAfterAdd(EMPTY, p, {c}, 0, p);
    assert d !in t.subscriptions && KnownPrefix(t, [d]) == 0;
    UnsubscribeServes(DEFAULT_LIMITS, t, p, [d], late, c);
    hide CriteriaOf, WithCriteria, Removed, AddedCount;
  }

  //// Independence of peers

  predicate ByPeer(e: Event, p: PeerId) { e.Handle? && e.peer == p }

  predicate Evicts(e: Event, p: PeerId) { e.Maintain? && p !in e.inStore }

  predicate SameFor(t: Table, t': Table, p: PeerId) {
    p in t.peers && p in t'.peers && t'.peers[p] == t.peers[p] && CriteriaOf(t', p) == CriteriaOf(t, p)
  }

  lemma DropAndCleanSpares(limits: Limits, t: Table, gone: set<PeerId>, now: Moment, readAt: Readings, end: Moment,
                           p: PeerId)
    requires p !in gone && Live(limits, t, p, end) && now <= end && forall c :: readAt(c, p) <= end
    ensures SameFor(t, Cleaned(limits, t.(peers := t.peers - gone), now, readAt), p)
  {
    var u := t.(peers := t.peers - gone);
    CriteriaAfterCleanUp(limits, u, now, readAt, p);
    assert CriteriaOf(u, p) == CriteriaOf(t, p);
    forall c | c in CriteriaOf(u, p) ensures Live(limits, u, p, readAt(c, p)) {}
  }

  lemma AddSpares(t: Table, q: PeerId, criteria: set<Criterion>, now: Moment, p: PeerId)
    requires p in t.peers && p != q
    ensures SameFor(t, Added(t, q, criteria, now), p)
  {
    CriteriaAfterAdd(t, q, criteria, now, p);
  }

  lemma RemoveSpares(t: Table, q: PeerId, order: seq<Criterion>, now: Moment, p: PeerId)
    requires p in t.peers && q in t.peers && p != q
    ensures SameFor(t, Removed(t, q, order, now), p)
  {
    CriteriaAfterRemove(t, q, order, now, p);
    hide CriteriaOf, WithoutCriteria;
  }

  lemma RefreshSpares(t: Table, q: PeerId, now: Moment, p: PeerId)
    requires p in t.peers && q in t.peers && p != q
    ensures SameFor(t, Refreshed(t, q, now), p)
  {}

  // As long as a peer is within its time, nothing that others do, and no maintenance that finds it in
  // the peer store, changes what the table says about it.
  lemma OthersDoNotInterfere(limits: Limits, t: Table, e: Event, now: Moment, p: PeerId)
    requires WellTimed(e, now) && !ByPeer(e, p) && !Evicts(e, p)
    requires Live(limits, t, p, e.end)
    ensures SameFor(t, Step(limits, t, e).0, p)
  {
    hide CriteriaOf, Cleaned, Added, Removed, Refreshed;
    match e
    case Maintain(inStore, _, mid, readAt, end) =>
      DropAndCleanSpares(limits, t, t.peers.Keys - inStore, mid, readAt, end, p);
    case Handle(q, request, at, mid, readAt, end, order) =>
      match request
      case Ping => if q in t.peers { RefreshSpares(t, q, mid, p); }
      case Subscribe(pubsubTopic, contentTopics) =>
        if ValidTopics(pubsubTopic, contentTopics) {
          AddSpares(t, q, RequestCriteria(pubsubTopic.value, contentTopics), at, p);
        }
      case Unsubscribe(_, _) => if q in t.peers { RemoveSpares(t, q, order, at, p); }
      case UnsubscribeAll => DropAndCleanSpares(limits, t, {q}, mid, readAt, end, p);
  }
}
