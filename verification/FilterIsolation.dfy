/** The shared subscription table seen by one peer: a private record that its own requests update. The
    table, with its counters, its sets of subscribers and its clean-up in two passes, refines one such
    record per peer. */
module FilterIsolation {
  import opened FilterSubscriptions
  import opened FilterInvariants
  import opened FilterProtocol

  datatype Record = Unknown | Known(lastSeen: Moment, criteria: set<Criterion>)

  // All that a peer can notice of the others: whether there is room for a new peer, the leading criteria
  // of an unsubscribe request that somebody holds, and whether a step ends in a clean-up.
  datatype Outside = Outside(room: bool, known: seq<Criterion>, sweeps: bool)

  function RecordOf(t: Table, p: PeerId): Record {
    if p in t.peers then Known(t.peers[p].lastSeen, CriteriaOf(t, p)) else Unknown
  }

  function OutsideOf(limits: Limits, t: Table, e: Event): Outside {
    match e
    case Maintain(_, _, _, _, _) => Outside(|t.peers| < limits.maxPeers, [], true)
    case Handle(q, request, at, _, _, _, order) =>
      Outside(|t.peers| < limits.maxPeers, order[..KnownPrefix(t, order)],
              request.UnsubscribeAll? && Live(limits, t, q, at))
  }

  //// The private record

  predicate InTime(limits: Limits, r: Record, now: Moment) {
    r.Known? && now - r.lastSeen <= limits.subscriptionTimeout
  }

  function Granted(limits: Limits, r: Record, criteria: set<Criterion>, at: Moment, room: bool): (Record, Status) {
    match r
    case Unknown => if room then (Known(at, criteria), Ok) else (r, ServiceUnavailable)
    case Known(_, held) =>
      if |held| + |criteria| > limits.maxCriteriaPerPeer then (r, ServiceUnavailable)
      else (Known(at, held + criteria), Ok)
  }

  function Withdrawn(r: Record, order: seq<Criterion>, known: seq<Criterion>, at: Moment): (Record, Status) {
    match r
    case Unknown => (r, NotFound)
    case Known(_, held) =>
      var left := held - (set c | c in known);
      (if left == {} then Unknown else Known(at, left), if |known| == |order| then Ok else NotFound)
  }

  function OwnStep(limits: Limits, r: Record, e: Event, o: Outside): (Record, Status)
    requires e.Handle?
  {
    match e.request
    case Ping => if InTime(limits, r, e.at) then (r.(lastSeen := e.mid), Ok) else (r, NotFound)
    case Subscribe(pubsubTopic, contentTopics) =>
      if !ValidTopics(pubsubTopic, contentTopics) then (r, BadRequest)
      else Granted(limits, r, RequestCriteria(pubsubTopic.value, contentTopics), e.at, o.room)
    case Unsubscribe(pubsubTopic, contentTopics) =>
      if !ValidTopics(pubsubTopic, contentTopics) then (r, BadRequest) else Withdrawn(r, e.order, o.known, e.at)
    case UnsubscribeAll => if InTime(limits, r, e.at) then (Unknown, Ok) else (r, NotFound)
  }

  // Others reach a record only by a clean-up after its time, or by its peer leaving the peer store.
  function OthersStep(limits: Limits, r: Record, e: Event, p: PeerId, o: Outside): Record {
    if Evicts(e, p) || (o.sweeps && !InTime(limits, r, e.mid)) then Unknown else r
  }

  function RecordStep(limits: Limits, r: Record, e: Event, p: PeerId, o: Outside): Record {
    if ByPeer(e, p) then OwnStep(limits, r, e, o).0 else OthersStep(limits, r, e, p, o)
  }

  // A clean-up keeps the peer in its first pass, and finds its time run out at one of its criteria in the
  // second.
  predicate TornApart(limits: Limits, r: Record, e: Event, p: PeerId, o: Outside) {
    && !ByPeer(e, p) && !Evicts(e, p) && o.sweeps && InTime(limits, r, e.mid)
    && exists c :: c in r.criteria && !InTime(limits, r, e.readAt(c, p))
  }

  //// One step of the table is one step of the record

  predicate ExactFor(t: Table, p: PeerId) {
    p in t.peers ==> |CriteriaOf(t, p)| == t.peers[p].criteriaCount
  }

  lemma SweepRefines(limits: Limits, t: Table, gone: set<PeerId>, now: Moment, readAt: Readings, p: PeerId)
    requires p !in gone
    ensures var r, r' := RecordOf(t, p), RecordOf(Cleaned(limits, t.(peers := t.peers - gone), now, readAt), p);
            if !InTime(limits, r, now) then r' == Unknown
            else r' == r.(criteria := set c | c in r.criteria && InTime(limits, r, readAt(c, p)))
  {
    var u := t.(peers := t.peers - gone);
    CriteriaAfterCleanUp(limits, u, now, readAt, p);
    assert CriteriaOf(u, p) == CriteriaOf(t, p);
  }

  lemma RecordAfterAdd(t: Table, p: PeerId, criteria: set<Criterion>, at: Moment)
    requires Sound(t)
    ensures RecordOf(Added(t, p, criteria, at), p) == Known(at, CriteriaOf(t, p) + criteria)
    ensures ExactFor(t, p) ==> ExactFor(Added(t, p, criteria, at), p)
  {
    CriteriaAfterAdd(t, p, criteria, at, p);
    AddKeepsCounter(t, p, criteria, at, p);
    hide CriteriaOf, WithCriteria, AddedCount, Sound;
  }

  lemma AddRefines(limits: Limits, t: Table, p: PeerId, criteria: set<Criterion>, at: Moment)
    requires Sound(t) && ExactFor(t, p)
    ensures var (r', status) := Granted(limits, RecordOf(t, p), criteria, at, |t.peers| < limits.maxPeers);
            && (status == Ok <==> AddResult(limits, t, p, criteria) == Accepted)
            && r' == RecordOf(if status == Ok then Added(t, p, criteria, at) else t, p)
    ensures ExactFor(Added(t, p, criteria, at), p)
  {
    hide CriteriaOf, Added, Sound;
    RecordAfterAdd(t, p, criteria, at);
    if p !in t.peers {
      UnknownPeersAreUnlisted(t, p);
      assert CriteriaOf(t, p) + criteria == criteria;
    }
  }

  // The table forgets the peer when its counter reaches zero, the record when no criterion is left.
  lemma RemoveRefines(t: Table, p: PeerId, order: seq<Criterion>, at: Moment)
    requires Sound(t) && ExactFor(t, p) && p in t.peers && t.peers[p].criteriaCount >= 1
    ensures RecordOf(Removed(t, p, order, at), p)
            == Withdrawn(RecordOf(t, p), order, order[..KnownPrefix(t, order)], at).0
    ensures ExactFor(Removed(t, p, order, at), p)
  {
    var held, dropped, asked := CriteriaOf(t, p), Dropped(t, p, order), set c | c in order[..KnownPrefix(t, order)];
    CriteriaAfterRemove(t, p, order, at, p);
    SubsetIsNoLarger(dropped, held);
    assert held - asked == held - dropped;
    if p in Removed(t, p, order, at).peers { RemoveKeepsCounter(t, p, order, at, p); }
    hide CriteriaOf, WithoutCriteria, Dropped, Sound;
  }

  lemma RefreshRefines(t: Table, p: PeerId, now: Moment)
    requires p in t.peers
    ensures RecordOf(Refreshed(t, p, now), p) == Known(now, CriteriaOf(t, p))
    ensures ExactFor(t, p) ==> ExactFor(Refreshed(t, p, now), p)
  {
    assert CriteriaOf(Refreshed(t, p, now), p) == CriteriaOf(t, p);
  }

  // A request gets the answer of the private record, and leaves the private record behind.
  lemma OwnStepRefines(limits: Limits, t: Table, e: Event, now: Moment)
    requires Good(limits, t, now) && e.Handle? && ExactFor(t, e.peer)
    ensures var (t', status) := Step(limits, t, e);
            && (RecordOf(t', e.peer), status) == OwnStep(limits, RecordOf(t, e.peer), e, OutsideOf(limits, t, e))
            && ExactFor(t', e.peer)
  {
    var p := e.peer;
    hide CriteriaOf, Sound, Added, Removed, Cleaned, Granted, AddResult, RequestCriteria;
    match e.request
    case Ping =>
      if Live(limits, t, p, e.at) { RefreshRefines(t, p, e.mid); }
    case Subscribe(pubsubTopic, contentTopics) =>
      if ValidTopics(pubsubTopic, contentTopics) {
        AddRefines(limits, t, p, RequestCriteria(pubsubTopic.value, contentTopics), e.at);
      }
    case Unsubscribe(_, _) =>
      if p in t.peers { RemoveRefines(t, p, e.order, e.at); }
    case UnsubscribeAll =>
      UnsubscribeAllForgets(limits, t, p, e.at, e.mid, e.readAt);
  }

  lemma SweepKeepsExact(limits: Limits, t: Table, gone: set<PeerId>, now: Moment, readAt: Readings, p: PeerId)
    requires p !in gone && ExactFor(t, p)
    ensures var r, t' := RecordOf(t, p), Cleaned(limits, t.(peers := t.peers - gone), now, readAt);
            var torn := InTime(limits, r, now) && exists c :: c in r.criteria && !InTime(limits, r, readAt(c, p));
            && (RecordOf(t', p) == (if InTime(limits, r, now) then r else Unknown) <==> !torn)
            && (!torn ==> ExactFor(t', p))
  {
    SweepRefines(limits, t, gone, now, readAt, p);
    var r, t' := RecordOf(t, p), Cleaned(limits, t.(peers := t.peers - gone), now, readAt);
    if InTime(limits, r, now) {
      assert (forall c :: c in r.criteria ==> InTime(limits, r, readAt(c, p)))
             <==> (set c | c in r.criteria && InTime(limits, r, readAt(c, p))) == r.criteria by {
        if (set c | c in r.criteria && InTime(limits, r, readAt(c, p))) == r.criteria {
          forall c | c in r.criteria ensures InTime(limits, r, readAt(c, p)) {
            assert c in set c | c in r.criteria && InTime(limits, r, readAt(c, p));
          }
        }
      }
    }
    hide CriteriaOf;
  }

  lemma EvictionRefines(limits: Limits, t: Table, gone: set<PeerId>, now: Moment, readAt: Readings, p: PeerId)
    requires p in gone
    ensures RecordOf(Cleaned(limits, t.(peers := t.peers - gone), now, readAt), p) == Unknown
  {}

  lemma OthersPing(t: Table, q: PeerId, now: Moment, p: PeerId)
    requires p != q
    ensures q in t.peers ==> RecordOf(Refreshed(t, q, now), p) == RecordOf(t, p)
    ensures q in t.peers && ExactFor(t, p) ==> ExactFor(Refreshed(t, q, now), p)
  {
    if p in t.peers && q in t.peers { RefreshSpares(t, q, now, p); }
    hide CriteriaOf;
  }

  lemma OthersAdd(t: Table, q: PeerId, criteria: set<Criterion>, now: Moment, p: PeerId)
    requires p != q
    ensures RecordOf(Added(t, q, criteria, now), p) == RecordOf(t, p)
    ensures ExactFor(t, p) ==> ExactFor(Added(t, q, criteria, now), p)
  {
    if p in t.peers { AddSpares(t, q, criteria, now, p); }
    hide CriteriaOf, WithCriteria;
  }

  lemma OthersRemove(t: Table, q: PeerId, order: seq<Criterion>, now: Moment, p: PeerId)
    requires p != q
    ensures q in t.peers ==> RecordOf(Removed(t, q, order, now), p) == RecordOf(t, p)
    ensures q in t.peers && ExactFor(t, p) ==> ExactFor(Removed(t, q, order, now), p)
  {
    if p in t.peers && q in t.peers { RemoveSpares(t, q, order, now, p); }
    hide CriteriaOf, WithoutCriteria, Dropped;
  }

  lemma OthersStepRefines(limits: Limits, t: Table, e: Event, p: PeerId)
    requires ExactFor(t, p) && !ByPeer(e, p)
    ensures var r, r', o := RecordOf(t, p), RecordOf(Step(limits, t, e).0, p), OutsideOf(limits, t, e);
            && (r' == OthersStep(limits, r, e, p, o) <==> !TornApart(limits, r, e, p, o))
            && (!TornApart(limits, r, e, p, o) ==> ExactFor(Step(limits, t, e).0, p))
  {
    hide CriteriaOf, Cleaned, Added, Removed, Refreshed, AddResult, RequestCriteria;
    match e
    case Maintain(inStore, _, mid, readAt, _) =>
      if p in inStore || p !in t.peers { SweepKeepsExact(limits, t, t.peers.Keys - inStore, mid, readAt, p); }
      else { EvictionRefines(limits, t, t.peers.Keys - inStore, mid, readAt, p); }
    case Handle(q, request, at, mid, readAt, _, order) =>
      match request
      case Ping => OthersPing(t, q, mid, p);
      case Subscribe(pubsubTopic, contentTopics) =>
        if ValidTopics(pubsubTopic, contentTopics) {
          OthersAdd(t, q, RequestCriteria(pubsubTopic.value, contentTopics), at, p);
        }
      case Unsubscribe(_, _) => OthersRemove(t, q, order, at, p);
      case UnsubscribeAll => SweepKeepsExact(limits, t, {q}, mid, readAt, p);
  }

  // The table refines the record exactly in the steps that do not tear it apart.
  lemma StepRefines(limits: Limits, t: Table, e: Event, now: Moment, p: PeerId)
    requires Good(limits, t, now) && ExactFor(t, p)
    ensures var (t', status) := Step(limits, t, e);
            var r, o := RecordOf(t, p), OutsideOf(limits, t, e);
            && (RecordOf(t', p) == RecordStep(limits, r, e, p, o) <==> !TornApart(limits, r, e, p, o))
            && (ByPeer(e, p) ==> status == OwnStep(limits, r, e, o).1)
            && (!TornApart(limits, r, e, p, o) ==> ExactFor(t', p))
  {
    hide Good, ExactFor, Step, OwnStep, OthersStep, OutsideOf, RecordOf;
    if ByPeer(e, p) { OwnStepRefines(limits, t, e, now); } else { OthersStepRefines(limits, t, e, p); }
  }

  //// Whole runs

  datatype Stimulus = Stimulus(event: Event, outside: Outside)

  function Stimuli(limits: Limits, t: Table, events: seq<Event>): seq<Stimulus>
    decreases |events|
  {
    if |events| == 0 then []
    else
      [Stimulus(events[0], OutsideOf(limits, t, events[0]))] +
      Stimuli(limits, Step(limits, t, events[0]).0, events[1..])
  }

  function RecordRun(limits: Limits, r: Record, stimuli: seq<Stimulus>, p: PeerId): Record
    decreases |stimuli|
  {
    if |stimuli| == 0 then r
    else RecordRun(limits, RecordStep(limits, r, stimuli[0].event, p, stimuli[0].outside), stimuli[1..], p)
  }

  predicate NeverTorn(limits: Limits, r: Record, stimuli: seq<Stimulus>, p: PeerId)
    decreases |stimuli|
  {
    |stimuli| > 0 ==>
      && !TornApart(limits, r, stimuli[0].event, p, stimuli[0].outside)
      && NeverTorn(limits, RecordStep(limits, r, stimuli[0].event, p, stimuli[0].outside), stimuli[1..], p)
  }

  lemma {:induction false} RunRefines(limits: Limits, t: Table, events: seq<Event>, now: Moment, p: PeerId)
    requires Good(limits, t, now) && WellTimedRun(events, now) && ExactFor(t, p)
    requires NeverTorn(limits, RecordOf(t, p), Stimuli(limits, t, events), p)
    ensures RecordOf(Run(limits, t, events), p) == RecordRun(limits, RecordOf(t, p), Stimuli(limits, t, events), p)
    ensures ExactFor(Run(limits, t, events), p)
    decreases |events|
  {
    hide Good, WellTimed, ExactFor, Step, RecordStep, TornApart, OutsideOf, RecordOf;
    if |events| > 0 {
      var t' := Step(limits, t, events[0]).0;
      assert Stimuli(limits, t, events)[1..] == Stimuli(limits, t', events[1..]);
      StepRefines(limits, t, events[0], now, p);
      StepKeepsGood(limits, t, events[0], now);
      RunRefines(limits, t', events[1..], events[0].end, p);
    }
  }

  // Whom a message is pushed to is decided by the private records alone.
  lemma ServedByRecord(limits: Limits, t: Table, c: Criterion, readAt: PeerId -> Moment, p: PeerId)
    ensures p in Recipients(limits, t, c, readAt)
            <==> InTime(limits, RecordOf(t, p), readAt(p)) && c in RecordOf(t, p).criteria
  {
    ListedIffHeld(t, p, c);
    hide CriteriaOf, SubscribersOf;
  }

  //// A shared server is as good as a private one

  function Own(events: seq<Event>, p: PeerId): seq<Event> {
    if |events| == 0 then []
    else if ByPeer(events[0], p) then [events[0]] + Own(events[1..], p) else Own(events[1..], p)
  }

  function Answers(limits: Limits, t: Table, events: seq<Event>, p: PeerId): seq<Status>
    decreases |events|
  {
    if |events| == 0 then []
    else
      var (t', status) := Step(limits, t, events[0]);
      if ByPeer(events[0], p) then [status] + Answers(limits, t', events[1..], p)
      else Answers(limits, t', events[1..], p)
  }

  // The server has room when the peer comes, the peer withdraws only what it holds, and it keeps within
  // its time and in the peer store while others act.
  ghost predicate Undisturbed(limits: Limits, t: Table, e: Event, p: PeerId) {
    var r := RecordOf(t, p);
    if ByPeer(e, p) then
      && (e.request.Subscribe? && r.Unknown? ==> |t.peers| < limits.maxPeers)
      && (e.request.Unsubscribe? && ValidTopics(e.request.pubsubTopic, e.request.contentTopics) && r.Known? ==>
            forall c :: c in e.order ==> c in r.criteria)
    else r.Known? ==> !Evicts(e, p) && InTime(limits, r, e.end)
  }

  ghost predicate UndisturbedRun(limits: Limits, t: Table, events: seq<Event>, p: PeerId)
    decreases |events|
  {
    |events| > 0 ==>
      Undisturbed(limits, t, events[0], p) && UndisturbedRun(limits, Step(limits, t, events[0]).0, events[1..], p)
  }

  ghost predicate Alike(limits: Limits, t: Table, s: Table, now: Moment, p: PeerId) {
    && Good(limits, t, now) && Good(limits, s, now) && ExactFor(t, p) && ExactFor(s, p)
    && RecordOf(t, p) == RecordOf(s, p) && s.peers.Keys <= {p}
  }

  lemma StaysAlone(limits: Limits, s: Table, e: Event, p: PeerId)
    requires s.peers.Keys <= {p} && ByPeer(e, p)
    ensures Step(limits, s, e).0.peers.Keys <= {p}
  {
    hide CriteriaOf, WithCriteria, WithoutCriteria, AddedCount, Dropped, RequestCriteria, AddResult, KnownPrefix;
  }

  lemma OutsideIsIrrelevant(limits: Limits, t: Table, s: Table, e: Event, now: Moment, p: PeerId)
    requires limits.maxPeers > 0 && ByPeer(e, p)
    requires Alike(limits, t, s, now, p) && Undisturbed(limits, t, e, p)
    ensures var r := RecordOf(t, p);
            OwnStep(limits, r, e, OutsideOf(limits, t, e)) == OwnStep(limits, r, e, OutsideOf(limits, s, e))
  {
    hide Good, ExactFor, RequestCriteria;
    if p in t.peers {
      KnownPrefixIsAll(t, e.order);
      KnownPrefixIsAll(s, e.order);
      assert e.order[..|e.order|] == e.order;
    } else {
      assert s.peers.Keys == {};
      MapSizeIsKeySetSize(s.peers);
    }
  }

  lemma OwnStepsAgree(limits: Limits, t: Table, s: Table, e: Event, now: Moment, p: PeerId)
    requires limits.maxPeers > 0 && WellTimed(e, now) && ByPeer(e, p)
    requires Alike(limits, t, s, now, p) && Undisturbed(limits, t, e, p)
    ensures Alike(limits, Step(limits, t, e).0, Step(limits, s, e).0, e.end, p)
    ensures Step(limits, t, e).1 == Step(limits, s, e).1
  {
    OwnStepRefines(limits, t, e, now);
    OwnStepRefines(limits, s, e, now);
    StepKeepsGood(limits, t, e, now);
    StepKeepsGood(limits, s, e, now);
    StaysAlone(limits, s, e, p);
    OutsideIsIrrelevant(limits, t, s, e, now, p);
    hide Good, ExactFor, Step, OutsideOf, RecordOf, WellTimed, Undisturbed, OwnStep;
  }

  lemma OthersStepIsInvisible(limits: Limits, t: Table, s: Table, e: Event, now: Moment, p: PeerId)
    requires WellTimed(e, now) && !ByPeer(e, p)
    requires Alike(limits, t, s, now, p) && Undisturbed(limits, t, e, p)
    ensures Alike(limits, Step(limits, t, e).0, s, e.end, p)
  {
    StepRefines(limits, t, e, now, p);
    StepKeepsGood(limits, t, e, now);
    hide Sound, Bounded, ExactFor, Step, OutsideOf, RecordOf;
  }

  // Through any traffic that leaves it undisturbed, a peer gets the same answers and ends with the same
  // record as on a server that serves nobody else.
  lemma {:induction false} SharingIsInvisible(limits: Limits, t: Table, s: Table, events: seq<Event>, now: Moment,
                                              p: PeerId)
    requires limits.maxPeers > 0 && WellTimedRun(events, now)
    requires Alike(limits, t, s, now, p) && UndisturbedRun(limits, t, events, p)
    ensures Answers(limits, t, events, p) == Answers(limits, s, Own(events, p), p)
    ensures RecordOf(Run(limits, t, events), p) == RecordOf(Run(limits, s, Own(events, p)), p)
    decreases |events|
  {
    if |events| > 0 {
      var e, rest := events[0], events[1..];
      var t' := Step(limits, t, e).0;
      if ByPeer(e, p) {
        var s' := Step(limits, s, e).0;
        OwnStepsAgree(limits, t, s, e, now, p);
        SharingIsInvisible(limits, t', s', rest, e.end, p);
        assert Own(events, p)[1..] == Own(rest, p);
      } else {
        OthersStepIsInvisible(limits, t, s, e, now, p);
        SharingIsInvisible(limits, t', s, rest, e.end, p);
      }
    }
    hide Good, ExactFor, Step, RecordOf, WellTimed, Undisturbed;
  }

  lemma SharedServiceIsPrivateService(limits: Limits, events: seq<Event>, p: PeerId, c: Criterion,
                                      readAt: PeerId -> Moment)
    requires limits.maxPeers > 0 && WellTimedRun(events, 0) && UndisturbedRun(limits, EMPTY, events, p)
    ensures p in Recipients(limits, Run(limits, EMPTY, events), c, readAt)
            <==> p in Recipients(limits, Run(limits, EMPTY, Own(events, p)), c, readAt)
  {
    EmptyIsGood(limits);
    SharingIsInvisible(limits, EMPTY, EMPTY, events, 0, p);
    ServedByRecord(limits, Run(limits, EMPTY, events), c, readAt, p);
    ServedByRecord(limits, Run(limits, EMPTY, Own(events, p)), c, readAt, p);
    hide Recipients, Run, Own, UndisturbedRun;
  }
}
