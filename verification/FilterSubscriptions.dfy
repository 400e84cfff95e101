/** The subscription table of a Waku filter service node (waku/waku_filter_v2/subscriptions.nim): which peer
    asked for which criterion, when it was last seen, and how many criteria it holds. */
module FilterSubscriptions {
  type PeerId = string
  // A reading of the monotonic clock, in nanoseconds.
  type Moment = nat

  const SECOND: nat := 1_000_000_000

  datatype Criterion = Criterion(pubsubTopic: string, contentTopic: string)
  datatype PeerData = PeerData(lastSeen: Moment, criteriaCount: nat)
  datatype Limits = Limits(subscriptionTimeout: nat, maxPeers: nat, maxCriteriaPerPeer: nat)
  datatype Table = Table(peers: map<PeerId, PeerData>, subscriptions: map<Criterion, set<PeerId>>)

  datatype StoreResult = Accepted | TooManyCriteria | TooManyPeers | CriterionUnknown | NoSubscriptions

  const DEFAULT_LIMITS: Limits := Limits(300 * SECOND, 1000, 1000)

  //// What a table says

  predicate Live(limits: Limits, t: Table, p: PeerId, now: Moment) {
    p in t.peers && now - t.peers[p].lastSeen <= limits.subscriptionTimeout
  }

  function SubscribersOf(t: Table, c: Criterion): set<PeerId> {
    if c in t.subscriptions then t.subscriptions[c] else {}
  }

  function CriteriaOf(t: Table, p: PeerId): set<Criterion> {
    set c | c in t.subscriptions && p in t.subscriptions[c]
  }

  // The peers a message is pushed to; each membership test reads the clock anew.
  function Recipients(limits: Limits, t: Table, c: Criterion, readAt: PeerId -> Moment): set<PeerId> {
    set p | p in SubscribersOf(t, c) && Live(limits, t, p, readAt(p))
  }

  // No listed peer is unknown, no criterion is kept without subscribers, and no peer's counter is
  // below the number of criteria that list it.
  ghost predicate Sound(t: Table) {
    && (forall c :: c in t.subscriptions ==> t.subscriptions[c] != {} && t.subscriptions[c] <= t.peers.Keys)
    && (forall p :: p in t.peers ==> |CriteriaOf(t, p)| <= t.peers[p].criteriaCount)
  }

  // Every counter is exact.
  ghost predicate Exact(t: Table) {
    Sound(t) && forall p :: p in t.peers ==> |CriteriaOf(t, p)| == t.peers[p].criteriaCount
  }

  //// The operations on tables

  function WithCriteria(subs: map<Criterion, set<PeerId>>, p: PeerId, criteria: set<Criterion>):
    map<Criterion, set<PeerId>>
  {
    map c | c in subs.Keys + criteria ::
      (if c in subs then subs[c] else {}) + (if c in criteria then {p} else {})
  }

  function Count(t: Table, p: PeerId): nat { if p in t.peers then t.peers[p].criteriaCount else 0 }

  // The counter after a grant: criteria that already list the peer are not counted again.
  function AddedCount(t: Table, p: PeerId, criteria: set<Criterion>): nat {
    Count(t, p) + |criteria - CriteriaOf(t, p)|
  }

  function Added(t: Table, p: PeerId, criteria: set<Criterion>, now: Moment): Table {
    Table(t.peers[p := PeerData(now, AddedCount(t, p, criteria))],
          WithCriteria(t.subscriptions, p, criteria))
  }

  // The size check counts the whole request, and applies only to peers that are already known.
  function AddResult(limits: Limits, t: Table, p: PeerId, criteria: set<Criterion>): StoreResult {
    if p in t.peers then
      if t.peers[p].criteriaCount + |criteria| > limits.maxCriteriaPerPeer then TooManyCriteria else Accepted
    else
      if |t.peers| >= limits.maxPeers then TooManyPeers else Accepted
  }

  // Number of leading criteria that the table knows: the loop of a removal stops at the first other one.
  function KnownPrefix(t: Table, order: seq<Criterion>): (k: nat)
    ensures k <= |order|
    ensures forall i :: 0 <= i < k ==> order[i] in t.subscriptions
    ensures k < |order| ==> order[k] !in t.subscriptions
  {
    if |order| == 0 || order[0] !in t.subscriptions then 0 else 1 + KnownPrefix(t, order[1..])
  }

  function Dropped(t: Table, p: PeerId, order: seq<Criterion>): set<Criterion> {
    set c | c in order[..KnownPrefix(t, order)] && p in t.subscriptions[c]
  }

  function WithoutCriteria(subs: map<Criterion, set<PeerId>>, p: PeerId, dropped: set<Criterion>):
    map<Criterion, set<PeerId>>
  {
    map c | c in subs && !(c in dropped && subs[c] <= {p}) :: if c in dropped then subs[c] - {p} else subs[c]
  }

  function RemovedFrom(t: Table, p: PeerId, dropped: set<Criterion>, now: Moment): Table
    requires p in t.peers
  {
    var left := t.peers[p].criteriaCount - |dropped|;
    Table(if dropped != {} && left == 0 then t.peers - {p}
          else t.peers[p := PeerData(now, if left >= 0 then left else 0)],
          WithoutCriteria(t.subscriptions, p, dropped))
  }

  function Removed(t: Table, p: PeerId, order: seq<Criterion>, now: Moment): Table
    requires p in t.peers
  {
    RemovedFrom(t, p, Dropped(t, p, order), now)
  }

  // Clean-up reads the clock once for the peers, and again for every entry of every criterion.
  function CleanedPeers(limits: Limits, t: Table, now: Moment): map<PeerId, PeerData> {
    map p | p in t.peers && now - t.peers[p].lastSeen <= limits.subscriptionTimeout :: t.peers[p]
  }

  function Cleaned(limits: Limits, t: Table, now: Moment, readAt: (Criterion, PeerId) -> Moment): Table {
    var kept := Table(CleanedPeers(limits, t, now), t.subscriptions);
    Table(kept.peers,
          map c | c in t.subscriptions
                  && (exists p :: p in t.subscriptions[c] && Live(limits, kept, p, readAt(c, p))) ::
            set p | p in t.subscriptions[c] && Live(limits, kept, p, readAt(c, p)))
  }
}
