/** What every operation on the filter subscription table keeps, and what breaks the exactness of its
    per-peer counters. */
module FilterInvariants {
  import opened FilterSubscriptions

  //// Effect of each operation on one peer's criteria

  lemma CriteriaAfterAdd(t: Table, p: PeerId, criteria: set<Criterion>, now: Moment, q: PeerId)
    ensures CriteriaOf(Added(t, p, criteria, now), q) == CriteriaOf(t, q) + (if q == p then criteria else {})
  {}

  lemma CriteriaAfterRemove(t: Table, p: PeerId, order: seq<Criterion>, now: Moment, q: PeerId)
    requires p in t.peers
    ensures Dropped(t, p, order) <= CriteriaOf(t, p)
    ensures CriteriaOf(Removed(t, p, order, now), q) == CriteriaOf(t, q) - (if q == p then Dropped(t, p, order) else {})
  {}

  lemma CriteriaAfterCleanUp(limits: Limits, t: Table, now: Moment, readAt: (Criterion, PeerId) -> Moment, q: PeerId)
    ensures var t' := Cleaned(limits, t, now, readAt);
            CriteriaOf(t', q)
            == (set c | c in CriteriaOf(t, q) && Live(limits, t, q, now) && Live(limits, t, q, readAt(c, q)))
  {}

  lemma UnknownPeersAreUnlisted(t: Table, p: PeerId)
    requires Sound(t) && p !in t.peers
    ensures CriteriaOf(t, p) == {}
  {}

  //// The invariant

  lemma UnionSize<T>(a: set<T>, b: set<T>)
    ensures |a + b| == |a| + |b - a|
  {
    assert a + b == a + (b - a);
  }

  lemma AddKeepsCounter(t: Table, p: PeerId, criteria: set<Criterion>, now: Moment, q: PeerId)
    requires Sound(t) && q in Added(t, p, criteria, now).peers
    ensures var t' := Added(t, p, criteria, now);
            t'.peers[q].criteriaCount - |CriteriaOf(t', q)|
            == if q in t.peers then t.peers[q].criteriaCount - |CriteriaOf(t, q)| else 0
  {
    CriteriaAfterAdd(t, p, criteria, now, q);
    UnionSize(CriteriaOf(t, p), criteria);
    if p !in t.peers { UnknownPeersAreUnlisted(t, p); }
    hide CriteriaOf, WithCriteria, Sound;
  }

  lemma AddListsKnownPeers(t: Table, p: PeerId, criteria: set<Criterion>, now: Moment)
    requires forall c :: c in t.subscriptions ==> t.subscriptions[c] != {} && t.subscriptions[c] <= t.peers.Keys
    ensures var t' := Added(t, p, criteria, now);
            forall c :: c in t'.subscriptions ==> t'.subscriptions[c] != {} && t'.subscriptions[c] <= t'.peers.Keys
  {
    var t' := Added(t, p, criteria, now);
    forall c | c in t'.subscriptions ensures t'.subscriptions[c] != {} && t'.subscriptions[c] <= t'.peers.Keys {
      var x := if c in t.subscriptions then t.subscriptions[c] else {};
      assert t'.subscriptions[c] == x + (if c in criteria then {p} else {});
    }
  }

  lemma AddKeepsSound(t: Table, p: PeerId, criteria: set<Criterion>, now: Moment)
    requires Sound(t)
    ensures Sound(Added(t, p, criteria, now))
    ensures Exact(t) ==> Exact(Added(t, p, criteria, now))
  {
    var t' := Added(t, p, criteria, now);
    forall q | q in t'.peers
      ensures |CriteriaOf(t', q)| <= t'.peers[q].criteriaCount
      ensures Exact(t) ==> |CriteriaOf(t', q)| == t'.peers[q].criteriaCount
    {
      AddKeepsCounter(t, p, criteria, now, q);
    }
    AddListsKnownPeers(t, p, criteria, now);
    hide CriteriaOf, Added;
  }

  // A removal never takes the unsigned counter below zero.
  lemma RemoveNeverUnderflows(t: Table, p: PeerId, order: seq<Criterion>)
    requires Sound(t) && p in t.peers
    ensures |Dropped(t, p, order)| <= t.peers[p].criteriaCount
  {
    CriteriaAfterRemove(t, p, order, 0, p);
    SubsetIsNoLarger(Dropped(t, p, order), CriteriaOf(t, p));
  }

  lemma {:induction false} SubsetIsNoLarger<T>(a: set<T>, b: set<T>)
    requires a <= b
    ensures |a| <= |b| && |b - a| == |b| - |a|
  {
    assert b == a + (b - a);
  }

  lemma RemoveKeepsCounter(t: Table, p: PeerId, order: seq<Criterion>, now: Moment, q: PeerId)
    requires Sound(t) && p in t.peers && q in Removed(t, p, order, now).peers
    ensures var t' := Removed(t, p, order, now);
            && q in t.peers
            && t'.peers[q].criteriaCount - |CriteriaOf(t', q)| == t.peers[q].criteriaCount - |CriteriaOf(t, q)|
  {
    RemoveNeverUnderflows(t, p, order);
    CriteriaAfterRemove(t, p, order, now, q);
    if q == p { SubsetIsNoLarger(Dropped(t, p, order), CriteriaOf(t, p)); }
    hide CriteriaOf, WithoutCriteria, Dropped, Sound;
  }

  lemma RemoveListsKnownPeers(t: Table, p: PeerId, order: seq<Criterion>, now: Moment)
    requires Sound(t) && p in t.peers
    ensures var t' := Removed(t, p, order, now);
            forall c :: c in t'.subscriptions ==> t'.subscriptions[c] != {} && t'.subscriptions[c] <= t'.peers.Keys
  {
    var t', dropped := Removed(t, p, order, now), Dropped(t, p, order);
    CriteriaAfterRemove(t, p, order, now, p);
    SubsetIsNoLarger(dropped, CriteriaOf(t, p));
    assert p !in t'.peers ==> CriteriaOf(t', p) == {};
    hide Dropped;
    forall c | c in t'.subscriptions ensures t'.subscriptions[c] != {} && t'.subscriptions[c] <= t'.peers.Keys {
      assert p in t'.subscriptions[c] <==> c in CriteriaOf(t', p);
    }
  }

  lemma RemoveKeepsSound(t: Table, p: PeerId, order: seq<Criterion>, now: Moment)
    requires Sound(t) && p in t.peers
    ensures Sound(Removed(t, p, order, now))
    ensures Exact(t) ==> Exact(Removed(t, p, order, now))
  {
    var t' := Removed(t, p, order, now);
    forall q | q in t'.peers
      ensures |CriteriaOf(t', q)| <= t'.peers[q].criteriaCount
      ensures Exact(t) ==> |CriteriaOf(t', q)| == t'.peers[q].criteriaCount
    {
      RemoveKeepsCounter(t, p, order, now, q);
    }
    RemoveListsKnownPeers(t, p, order, now);
    hide CriteriaOf, Removed;
  }

  lemma CleanUpKeepsSound(limits: Limits, t: Table, now: Moment, readAt: (Criterion, PeerId) -> Moment)
    requires forall p :: p in t.peers ==> |CriteriaOf(t, p)| <= t.peers[p].criteriaCount
    ensures Sound(Cleaned(limits, t, now, readAt))
  {
    var t' := Cleaned(limits, t, now, readAt);
    forall q | q in t'.peers ensures |CriteriaOf(t', q)| <= t'.peers[q].criteriaCount {
      CriteriaAfterCleanUp(limits, t, now, readAt, q);
      SubsetIsNoLarger(CriteriaOf(t', q), CriteriaOf(t, q));
    }
    hide CriteriaOf;
    forall c | c in t'.subscriptions ensures t'.subscriptions[c] != {} && t'.subscriptions[c] <= t'.peers.Keys {
      var p :| p in t.subscriptions[c] && Live(limits, Table(t'.peers, t.subscriptions), p, readAt(c, p));
      assert p in t'.subscriptions[c];
    }
  }

  // Clean-up keeps the counters exact if and only if no peer that its first pass keeps runs out of
  // time before the second pass looks at one of its entries.
  lemma CleanUpKeepsExact(limits: Limits, t: Table, now: Moment, readAt: (Criterion, PeerId) -> Moment)
    requires forall p :: p in t.peers ==> |CriteriaOf(t, p)| == t.peers[p].criteriaCount
    ensures Exact(Cleaned(limits, t, now, readAt)) <==>
            forall c, p :: c in t.subscriptions && p in t.subscriptions[c] && Live(limits, t, p, now)
                           ==> Live(limits, t, p, readAt(c, p))
  {
    var t' := Cleaned(limits, t, now, readAt);
    CleanUpKeepsSound(limits, t, now, readAt);
    forall q | q in t'.peers
      ensures |CriteriaOf(t', q)| == t'.peers[q].criteriaCount <==> CriteriaOf(t', q) == CriteriaOf(t, q)
    {
      CriteriaAfterCleanUp(limits, t, now, readAt, q);
      SubsetIsNoLarger(CriteriaOf(t', q), CriteriaOf(t, q));
    }
    if Exact(t') {
      forall c, p | c in t.subscriptions && p in t.subscriptions[c] && Live(limits, t, p, now)
        ensures Live(limits, t, p, readAt(c, p))
      {
        CriteriaAfterCleanUp(limits, t, now, readAt, p);
        assert c in CriteriaOf(t, p) && p in t'.peers;
        assert c in CriteriaOf(t', p);
      }
    } else {
      var q :| q in t'.peers && |CriteriaOf(t', q)| != t'.peers[q].criteriaCount;
      CriteriaAfterCleanUp(limits, t, now, readAt, q);
      var c :| c in CriteriaOf(t, q) && c !in CriteriaOf(t', q);
      assert !Live(limits, t, q, readAt(c, q));
    }
  }

  //// The limits

  lemma AddedCountBounds(limits: Limits, t: Table, p: PeerId, criteria: set<Criterion>)
    requires Sound(t) && AddResult(limits, t, p, criteria) == Accepted
    ensures p in t.peers ==> t.peers[p].criteriaCount <= AddedCount(t, p, criteria) <= limits.maxCriteriaPerPeer
    ensures p !in t.peers ==> AddedCount(t, p, criteria) == |criteria|
  {
    SubsetIsNoLarger(criteria - CriteriaOf(t, p), criteria);
    if p !in t.peers {
      UnknownPeersAreUnlisted(t, p);
      assert criteria - CriteriaOf(t, p) == criteria;
    }
  }

  // A granted request stays within the per-peer limit exactly when the peer was already known, or
  // its whole first request fits: the limit is not checked for new peers.
  lemma WhenCriteriaLimitHolds(limits: Limits, t: Table, p: PeerId, criteria: set<Criterion>, now: Moment)
    requires Sound(t) && AddResult(limits, t, p, criteria) == Accepted
    ensures Added(t, p, criteria, now).peers[p].criteriaCount <= limits.maxCriteriaPerPeer
            <==> p in t.peers || |criteria| <= limits.maxCriteriaPerPeer
  {
    AddedCountBounds(limits, t, p, criteria);
  }

  lemma PeerLimitHolds(limits: Limits, t: Table, p: PeerId, criteria: set<Criterion>, now: Moment)
    requires |t.peers| <= limits.maxPeers && AddResult(limits, t, p, criteria) == Accepted
    ensures |Added(t, p, criteria, now).peers| <= limits.maxPeers
  {
    hide CriteriaOf, WithCriteria;
    var peers' := Added(t, p, criteria, now).peers;
    assert peers'.Keys == t.peers.Keys + {p};
    assert |peers'| == |peers'.Keys| && |t.peers| == |t.peers.Keys|;
  }
}
