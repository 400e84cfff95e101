/** The filter service node as the program keeps it: two tables updated in place by loops over sets of
    criteria. Every method is proved against the table functions of FilterSubscriptions. */
module FilterNode {
  import opened FilterSubscriptions
  import opened FilterInvariants
  import opened FilterProtocol

  //// One turn of the adding loop

  function OneAdded(t: Table, p: PeerId, c: Criterion): Table
    requires p in t.peers
  {
    var listed := SubscribersOf(t, c);
    Table(if p in listed then t.peers else t.peers[p := t.peers[p].(criteriaCount := t.peers[p].criteriaCount + 1)],
          t.subscriptions[c := listed + {p}])
  }

  lemma NothingAdded(t: Table, p: PeerId)
    ensures WithCriteria(t.subscriptions, p, {}) == t.subscriptions
    ensures AddedCount(t, p, {}) == Count(t, p)
  {
    var subs := WithCriteria(t.subscriptions, p, {});
    assert subs.Keys == t.subscriptions.Keys;
    forall c | c in subs ensures subs[c] == t.subscriptions[c] { assert subs[c] == t.subscriptions[c] + {}; }
    assert {} - CriteriaOf(t, p) == {};
  }

  lemma ListOneMore(subs: map<Criterion, set<PeerId>>, p: PeerId, done: set<Criterion>, c: Criterion)
    requires c !in done
    ensures var before := WithCriteria(subs, p, done);
            && (c in before <==> c in subs) && (c in subs ==> before[c] == subs[c])
            && WithCriteria(subs, p, done + {c}) == before[c := (if c in subs then subs[c] else {}) + {p}]
  {
    var before, after := WithCriteria(subs, p, done), WithCriteria(subs, p, done + {c});
    assert after.Keys == before.Keys + {c};
    forall d | d in after ensures after[d] == before[c := (if c in subs then subs[c] else {}) + {p}][d] {}
  }

  lemma CountOneMore(t: Table, p: PeerId, done: set<Criterion>, c: Criterion)
    requires c !in done
    ensures AddedCount(t, p, done + {c}) == AddedCount(t, p, done) + (if p in SubscribersOf(t, c) then 0 else 1)
  {
    var mine := CriteriaOf(t, p);
    assert done + {c} - mine == (done - mine) + (if c in mine then {} else {c});
  }

  lemma AddOneMore(t: Table, p: PeerId, done: set<Criterion>, c: Criterion, now: Moment)
    requires c !in done
    ensures OneAdded(Added(t, p, done, now), p, c) == Added(t, p, done + {c}, now)
  {
    hide WithCriteria, AddedCount, CriteriaOf;
    var u := Added(t, p, done, now);
    assert SubscribersOf(u, c) == SubscribersOf(t, c)
           && Added(t, p, done + {c}, now).subscriptions == u.subscriptions[c := SubscribersOf(t, c) + {p}] by {
      ListOneMore(t.subscriptions, p, done, c);
    }
    CountOneMore(t, p, done, c);
  }

  //// One turn of the removing loop

  function OneRemoved(t: Table, p: PeerId, c: Criterion): Table
    requires p in t.peers && c in t.subscriptions && p in t.subscriptions[c] && t.peers[p].criteriaCount > 0
  {
    var left := t.peers[p].criteriaCount - 1;
    Table(if left == 0 then t.peers - {p} else t.peers[p := t.peers[p].(criteriaCount := left)],
          if t.subscriptions[c] <= {p} then t.subscriptions - {c} else t.subscriptions[c := t.subscriptions[c] - {p}])
  }

  lemma {:induction false} KnownPrefixOfPrefix(t: Table, order: seq<Criterion>, i: nat)
    requires i <= |order| && forall j :: 0 <= j < i ==> order[j] in t.subscriptions
    ensures KnownPrefix(t, order[..i]) == i <= KnownPrefix(t, order)
    ensures i < |order| && order[i] !in t.subscriptions ==> KnownPrefix(t, order) == i
  {
    if i > 0 {
      assert order[..i][1..] == order[1..][..i - 1];
      KnownPrefixOfPrefix(t, order[1..], i - 1);
    }
  }

  lemma NothingRemoved(t: Table, p: PeerId, now: Moment)
    requires p in t.peers
    ensures Removed(t, p, [], now) == Refreshed(t, p, now)
  {
    assert Dropped(t, p, []) == {};
    assert WithoutCriteria(t.subscriptions, p, {}) == t.subscriptions;
  }

  lemma DropOneMore(t: Table, p: PeerId, order: seq<Criterion>, i: nat)
    requires i < |order| && forall j :: 0 <= j <= i ==> order[j] in t.subscriptions
    ensures var c, before, after := order[i], Dropped(t, p, order[..i]), Dropped(t, p, order[..i + 1]);
            after == if p in t.subscriptions[c] then before + {c} else before
  {
    KnownPrefixOfPrefix(t, order, i);
    KnownPrefixOfPrefix(t, order, i + 1);
    assert order[..i + 1][..i + 1] == order[..i] + [order[i]];
    assert order[..i][..i] == order[..i];
  }

  lemma TakeAwayOneMore(subs: map<Criterion, set<PeerId>>, p: PeerId, dropped: set<Criterion>, c: Criterion)
    requires c in subs && c !in dropped && p in subs[c]
    ensures var before := WithoutCriteria(subs, p, dropped);
            && c in before && before[c] == subs[c]
            && WithoutCriteria(subs, p, dropped + {c})
               == if before[c] <= {p} then before - {c} else before[c := before[c] - {p}]
  {}

  // The criterion at hand is as the removal found it: earlier turns only touched other criteria.
  lemma StillListed(t: Table, p: PeerId, order: seq<Criterion>, i: nat)
    requires p in t.peers && i < |order| && forall j :: 0 <= j < i ==> order[j] in t.subscriptions
    requires forall i, j :: 0 <= i < j < |order| ==> order[i] != order[j]
    ensures order[i] !in Dropped(t, p, order[..i])
    ensures var subs := WithoutCriteria(t.subscriptions, p, Dropped(t, p, order[..i]));
            && (order[i] in subs <==> order[i] in t.subscriptions)
            && (order[i] in subs ==> subs[order[i]] == t.subscriptions[order[i]])
  {
    KnownPrefixOfPrefix(t, order, i);
  }

  lemma RemovedLists(t: Table, p: PeerId, order: seq<Criterion>, i: nat, now: Moment)
    requires p in t.peers && i < |order| && forall j :: 0 <= j < i ==> order[j] in t.subscriptions
    requires forall i, j :: 0 <= i < j < |order| ==> order[i] != order[j]
    ensures order[i] in Removed(t, p, order[..i], now).subscriptions <==> order[i] in t.subscriptions
  {
    StillListed(t, p, order, i);
  }

  // The removal stops at the first criterion that the table does not know.
  lemma StopsHere(t: Table, p: PeerId, order: seq<Criterion>, i: nat, now: Moment)
    requires p in t.peers && i < |order| && order[i] !in t.subscriptions
    requires forall j :: 0 <= j < i ==> order[j] in t.subscriptions
    ensures KnownPrefix(t, order) == i && Removed(t, p, order, now) == Removed(t, p, order[..i], now)
  {
    KnownPrefixOfPrefix(t, order, i);
    assert order[..i][..i] == order[..i];
    assert Dropped(t, p, order) == Dropped(t, p, order[..i]);
  }

  lemma RemovedFromOneMore(t: Table, p: PeerId, dropped: set<Criterion>, c: Criterion, now: Moment)
    requires p in t.peers && c in t.subscriptions && c !in dropped && p in t.subscriptions[c]
    requires |dropped| < t.peers[p].criteriaCount
    ensures var u := RemovedFrom(t, p, dropped, now);
            && p in u.peers && u.peers[p].criteriaCount > 0 && c in u.subscriptions && p in u.subscriptions[c]
            && RemovedFrom(t, p, dropped + {c}, now) == OneRemoved(u, p, c)
  {
    TakeAwayOneMore(t.subscriptions, p, dropped, c);
    hide WithoutCriteria;
    assert |dropped + {c}| == |dropped| + 1;
    var u, u' := RemovedFrom(t, p, dropped, now), RemovedFrom(t, p, dropped + {c}, now);
    assert u.peers == t.peers[p := PeerData(now, t.peers[p].criteriaCount - |dropped|)];
    assert u'.peers == OneRemoved(u, p, c).peers;
  }

  // One turn of the loop; soundness keeps the peer's entry in place while it is used, and its
  // unsigned counter from going below zero.
  lemma RemoveOneMore(t: Table, p: PeerId, order: seq<Criterion>, i: nat, now: Moment)
    requires Sound(t) && p in t.peers && i < |order|
    requires forall j :: 0 <= j <= i ==> order[j] in t.subscriptions
    requires forall i, j :: 0 <= i < j < |order| ==> order[i] != order[j]
    ensures var c, u, u' := order[i], Removed(t, p, order[..i], now), Removed(t, p, order[..i + 1], now);
            && c in u.subscriptions
            && (p in u.subscriptions[c] ==> p in u.peers && u.peers[p].criteriaCount > 0)
            && u' == if p in u.subscriptions[c] then OneRemoved(u, p, c) else u
  {
    var c, dropped := order[i], Dropped(t, p, order[..i]);
    StillListed(t, p, order, i);
    DropOneMore(t, p, order, i);
    if p in t.subscriptions[c] {
      RemoveNeverUnderflows(t, p, order[..i + 1]);
      assert |dropped + {c}| == |dropped| + 1;
      RemovedFromOneMore(t, p, dropped, c, now);
    }
    hide WithoutCriteria, Dropped, Sound, KnownPrefix, OneRemoved;
  }

  class Subscriptions {
    const limits: Limits
    var peersSubscribed: map<PeerId, PeerData>
    var subscriptions: map<Criterion, set<PeerId>>

    function Contents(): Table
      reads this
    {
      Table(peersSubscribed, subscriptions)
    }

    constructor (limits: Limits)
      ensures this.limits == limits && Contents() == EMPTY
    {
      this.limits := limits;
      peersSubscribed := map[];
      subscriptions := map[];
    }

    predicate IsSubscribed(peerId: PeerId, now: Moment)
      reads this
      ensures IsSubscribed(peerId, now) == Live(limits, Contents(), peerId, now)
    {
      peerId in peersSubscribed && now - peersSubscribed[peerId].lastSeen <= limits.subscriptionTimeout
    }

    // Each peer is tested against its own reading of the clock; the result lists no peer twice.
    method FindSubscribedPeers(c: Criterion, readAt: PeerId -> Moment) returns (found: seq<PeerId>)
      ensures forall p :: p in found <==> p in Recipients(limits, Contents(), c, readAt)
      ensures forall i, j :: 0 <= i < j < |found| ==> found[i] != found[j]
    {
      found := [];
      if c in subscriptions {
        var rest := subscriptions[c];
        while rest != {}
          invariant rest <= subscriptions[c]
          invariant forall p :: p in found <==> p in subscriptions[c] - rest && Live(limits, Contents(), p, readAt(p))
          invariant forall i, j :: 0 <= i < j < |found| ==> found[i] != found[j]
          decreases rest
        {
          var p :| p in rest;
          if IsSubscribed(p, readAt(p)) {
            found := found + [p];
          }
          rest := rest - {p};
        }
      }
    }

    method RefreshSubscription(peerId: PeerId, now: Moment)
      modifies this
      ensures Contents() == if peerId in old(peersSubscribed) then Refreshed(old(Contents()), peerId, now)
              else old(Contents())
    {
      if peerId in peersSubscribed {
        peersSubscribed := peersSubscribed[peerId := peersSubscribed[peerId].(lastSeen := now)];
      }
    }

    method RemovePeers(peerIds: set<PeerId>)
      modifies this
      ensures Contents() == old(Contents()).(peers := old(peersSubscribed) - peerIds)
    {
      peersSubscribed := peersSubscribed - peerIds;
    }

    method AddOne(peerId: PeerId, c: Criterion)
      requires peerId in peersSubscribed
      modifies this
      ensures peerId in peersSubscribed && Contents() == OneAdded(old(Contents()), peerId, c)
    {
      if c !in subscriptions {
        subscriptions := subscriptions[c := {}];
      }
      if peerId !in subscriptions[c] {
        subscriptions := subscriptions[c := subscriptions[c] + {peerId}];
        var data := peersSubscribed[peerId];
        peersSubscribed := peersSubscribed[peerId := data.(criteriaCount := data.criteriaCount + 1)];
      } else {
        assert subscriptions[c] + {peerId} == subscriptions[c];
      }
    }

    // The limit checks, and the peer's entry before any criterion is added.
    method Admit(peerId: PeerId, requested: nat, now: Moment) returns (r: StoreResult)
      modifies this
      ensures var t := old(Contents());
              r == if peerId in t.peers then
                     if t.peers[peerId].criteriaCount + requested > limits.maxCriteriaPerPeer then TooManyCriteria
                     else Accepted
                   else if |t.peers| >= limits.maxPeers then TooManyPeers else Accepted
      ensures r == Accepted ==> peerId in peersSubscribed && Contents() == Added(old(Contents()), peerId, {}, now)
      ensures r != Accepted ==> Contents() == old(Contents())
    {
      NothingAdded(Contents(), peerId);
      hide WithCriteria, AddedCount;
      if peerId in peersSubscribed {
        if peersSubscribed[peerId].criteriaCount + requested > limits.maxCriteriaPerPeer {
          return TooManyCriteria;
        }
        peersSubscribed := peersSubscribed[peerId := peersSubscribed[peerId].(lastSeen := now)];
      } else {
        if |peersSubscribed| >= limits.maxPeers {
          return TooManyPeers;
        }
        peersSubscribed := peersSubscribed[peerId := PeerData(now, 0)];
      }
      return Accepted;
    }

    method AddSubscription(peerId: PeerId, filterCriteria: set<Criterion>, now: Moment) returns (r: StoreResult)
      modifies this
      ensures r == AddResult(limits, old(Contents()), peerId, filterCriteria)
      ensures Contents() == if r == Accepted then Added(old(Contents()), peerId, filterCriteria, now)
              else old(Contents())
    {
      ghost var t := Contents();
      hide Added, OneAdded;
      r := Admit(peerId, |filterCriteria|, now);
      if r != Accepted {
        return;
      }
      var rest := filterCriteria;
      ghost var done: set<Criterion> := {};
      while rest != {}
        invariant done !! rest && done + rest == filterCriteria
        invariant peerId in peersSubscribed && Contents() == Added(t, peerId, done, now)
        decreases rest
      {
        var c :| c in rest;
        AddOneMore(t, peerId, done, c, now);
        AddOne(peerId, c);
        rest := rest - {c};
        done := done + {c};
      }
      assert done == filterCriteria;
    }

    method RemoveOne(peerId: PeerId, c: Criterion)
      requires c in subscriptions && peerId in subscriptions[c]
      requires peerId in peersSubscribed && peersSubscribed[peerId].criteriaCount > 0
      modifies this
      ensures Contents() == OneRemoved(old(Contents()), peerId, c)
    {
      var left := peersSubscribed[peerId].criteriaCount - 1;
      subscriptions := subscriptions[c := subscriptions[c] - {peerId}];
      peersSubscribed := peersSubscribed[peerId := peersSubscribed[peerId].(criteriaCount := left)];
      if subscriptions[c] == {} {
        subscriptions := subscriptions - {c};
      }
      if left == 0 {
        peersSubscribed := peersSubscribed - {peerId};
      }
    }

    // The peer's entry is looked up once; the source keeps a pointer to it throughout the loop.
    method RemoveSubscription(peerId: PeerId, order: seq<Criterion>, now: Moment) returns (r: StoreResult)
      requires Sound(Contents())
      requires forall i, j :: 0 <= i < j < |order| ==> order[i] != order[j]
      modifies this
      ensures r == if peerId !in old(peersSubscribed) then NoSubscriptions
                   else if KnownPrefix(old(Contents()), order) == |order| then Accepted else CriterionUnknown
      ensures Contents() == if r == NoSubscriptions then old(Contents())
              else Removed(old(Contents()), peerId, order, now)
    {
      hide OneRemoved, Sound, KnownPrefix, Removed, Refreshed;
      ghost var t := Contents();
      if peerId !in peersSubscribed {
        return NoSubscriptions;
      }
      RefreshSubscription(peerId, now);
      NothingRemoved(t, peerId, now);
      assert order[..0] == [];
      var i := 0;
      while i < |order|
        invariant 0 <= i <= |order|
        invariant forall j :: 0 <= j < i ==> order[j] in t.subscriptions
        invariant Contents() == Removed(t, peerId, order[..i], now)
      {
        var c := order[i];
        RemovedLists(t, peerId, order, i, now);
        if c !in subscriptions {
          StopsHere(t, peerId, order, i, now);
          return CriterionUnknown;
        }
        RemoveOneMore(t, peerId, order, i, now);
        if peerId in subscriptions[c] {
          RemoveOne(peerId, c);
        }
        i := i + 1;
      }
      assert order[..i] == order;
      KnownPrefixOfPrefix(t, order, i);
      return Accepted;
    }

    // Drops every entry whose peer is unknown or not live at the moment it is looked at.
    method TrimEntries(readAt: Readings)
      modifies this
      ensures peersSubscribed == old(peersSubscribed) && subscriptions.Keys == old(subscriptions).Keys
      ensures forall c :: c in subscriptions ==>
                subscriptions[c] == set p | p in old(subscriptions)[c] && Live(limits, old(Contents()), p, readAt(c, p))
    {
      ghost var t := Contents();
      hide IsSubscribed;
      var rest := subscriptions.Keys;
      while rest != {}
        invariant rest <= subscriptions.Keys == t.subscriptions.Keys && peersSubscribed == t.peers
        invariant forall c :: c in rest ==> subscriptions[c] == t.subscriptions[c]
        invariant forall c :: c in subscriptions.Keys - rest ==>
                    subscriptions[c] == set p | p in t.subscriptions[c] && Live(limits, t, p, readAt(c, p))
        decreases rest
      {
        var c :| c in rest;
        subscriptions := subscriptions[c := set p | p in subscriptions[c] && IsSubscribed(p, readAt(c, p))];
        rest := rest - {c};
      }
    }

    method CleanUp(now: Moment, readAt: Readings)
      modifies this
      ensures Contents() == Cleaned(limits, old(Contents()), now, readAt)
    {
      ghost var t := Contents();
      peersSubscribed :=
        map p | p in peersSubscribed && now - peersSubscribed[p].lastSeen <= limits.subscriptionTimeout ::
          peersSubscribed[p];
      TrimEntries(readAt);
      ghost var trimmed := subscriptions;
      subscriptions := map c | c in subscriptions && subscriptions[c] != {} :: subscriptions[c];
      CleanedIsTrimmed(limits, t, now, readAt, trimmed);
    }
  }

  lemma CleanedIsTrimmed(limits: Limits, t: Table, now: Moment, readAt: Readings, trimmed: map<Criterion, set<PeerId>>)
    requires trimmed.Keys == t.subscriptions.Keys
    requires var kept := Table(CleanedPeers(limits, t, now), t.subscriptions);
             forall c :: c in trimmed ==>
               trimmed[c] == set p | p in t.subscriptions[c] && Live(limits, kept, p, readAt(c, p))
    ensures Cleaned(limits, t, now, readAt).subscriptions == map c | c in trimmed && trimmed[c] != {} :: trimmed[c]
  {
    var kept := Table(CleanedPeers(limits, t, now), t.subscriptions);
    hide CleanedPeers;
    forall c | c in trimmed
      ensures trimmed[c] != {} <==> exists p :: p in t.subscriptions[c] && Live(limits, kept, p, readAt(c, p))
    {
      if p :| p in t.subscriptions[c] && Live(limits, kept, p, readAt(c, p)) { assert p in trimmed[c]; }
      if trimmed[c] != {} { var p :| p in trimmed[c]; assert Live(limits, kept, p, readAt(c, p)); }
    }
  }
}
