/** The subscriptions of one process: indexed by store topic for the delivery and by socket for everything else. */
module Delivery {
  import opened Basics

  /** `id` is the object's identity: a renewed or replaced subscription is another one. */
  datatype Subscription = Subscription(id: nat, peer: nat, topic: string, storeTopic: string, authorizedAt: int)

  datatype Subscribed = Stored | PeerClosed | LimitExceeded

  /** What re-running a topic's gate answered. */
  datatype Verdict = Refused | Failed | Allows(storeTopic: string)

  type Slot = (nat, string)

  // ---- maps of maps without empty buckets ---------------------------------------------------------------

  function Get2<A, B, V>(m: map<A, map<B, V>>, a: A, b: B): Option<V> {
    if a in m && b in m[a] then Some(m[a][b]) else None
  }

  function Put2<A, B, V>(m: map<A, map<B, V>>, a: A, b: B, v: V): map<A, map<B, V>> {
    m[a := (if a in m then m[a] else map[])[b := v]]
  }

  function Del2<A, B, V>(m: map<A, map<B, V>>, a: A, b: B): map<A, map<B, V>>
    requires a in m
  {
    var bucket := m[a] - {b};
    if bucket == map[] then m - {a} else m[a := bucket]
  }

  predicate NoEmpty<A, B, V>(m: map<A, map<B, V>>) {
    forall a | a in m :: m[a] != map[]
  }

  lemma Put2At<A, B, V>(m: map<A, map<B, V>>, a: A, b: B, v: V, x: A, y: B)
    ensures Get2(Put2(m, a, b, v), x, y) == if x == a && y == b then Some(v) else Get2(m, x, y)
  {
  }

  lemma Del2At<A, B, V>(m: map<A, map<B, V>>, a: A, b: B, x: A, y: B)
    requires a in m
    ensures Get2(Del2(m, a, b), x, y) == if x == a && y == b then None else Get2(m, x, y)
  {
    assert y != b && x == a && y in m[a] ==> y in m[a] - {b};
  }

  lemma KeepsNoEmpty<A, B, V>(m: map<A, map<B, V>>, a: A, b: B, v: V)
    requires NoEmpty(m)
    ensures NoEmpty(Put2(m, a, b, v)) && (a in m ==> NoEmpty(Del2(m, a, b)))
  {
    assert b in Put2(m, a, b, v)[a];
  }

  // ---- both indexes against the subscriptions held --------------------------------------------------------

  ghost predicate PeersHold(byPeer: map<nat, map<string, Subscription>>, held: map<Slot, Subscription>) {
    forall p, t :: Get2(byPeer, p, t) == HeldAt(held, p, t)
  }

  ghost predicate TopicsHold(byTopic: map<string, map<Slot, Subscription>>, held: map<Slot, Subscription>) {
    forall store, p, t :: Get2(byTopic, store, (p, t)) == UnderTopic(HeldAt(held, p, t), store)
  }

  function HeldAt(held: map<Slot, Subscription>, p: nat, t: string): Option<Subscription> {
    if (p, t) in held then Some(held[(p, t)]) else None
  }

  function UnderTopic(s: Option<Subscription>, store: string): Option<Subscription> {
    if s.Some? && s.value.storeTopic == store then s else None
  }

  /** No socket holds more than `limit` topics, and one that holds any has its close handler installed. */
  predicate PeerBounded(byPeer: map<nat, map<string, Subscription>>, installed: set<nat>, limit: nat) {
    forall p | p in byPeer :: |byPeer[p]| <= limit && p in installed
  }

  ghost predicate Own(held: map<Slot, Subscription>) {
    forall p, t | (p, t) in held :: held[(p, t)].peer == p && held[(p, t)].topic == t
  }

  lemma PeersPut(byPeer: map<nat, map<string, Subscription>>, held: map<Slot, Subscription>, s: Subscription)
    requires PeersHold(byPeer, held)
    ensures PeersHold(Put2(byPeer, s.peer, s.topic, s), held[(s.peer, s.topic) := s])
  {
    forall p, t
      ensures Get2(Put2(byPeer, s.peer, s.topic, s), p, t) == HeldAt(held[(s.peer, s.topic) := s], p, t)
    {
      Put2At(byPeer, s.peer, s.topic, s, p, t);
    }
  }

  lemma TopicsPut(byTopic: map<string, map<Slot, Subscription>>, held: map<Slot, Subscription>, s: Subscription)
    requires TopicsHold(byTopic, held)
    requires UnderTopic(HeldAt(held, s.peer, s.topic), s.storeTopic) == HeldAt(held, s.peer, s.topic)
    ensures TopicsHold(Put2(byTopic, s.storeTopic, (s.peer, s.topic), s), held[(s.peer, s.topic) := s])
  {
    forall store, p, t
      ensures Get2(Put2(byTopic, s.storeTopic, (s.peer, s.topic), s), store, (p, t)) ==
              UnderTopic(HeldAt(held[(s.peer, s.topic) := s], p, t), store)
    {
      Put2At(byTopic, s.storeTopic, (s.peer, s.topic), s, store, (p, t));
    }
  }

  lemma PeersDel(byPeer: map<nat, map<string, Subscription>>, held: map<Slot, Subscription>, p: nat, t: string)
    requires PeersHold(byPeer, held) && p in byPeer
    ensures PeersHold(Del2(byPeer, p, t), held - {(p, t)})
  {
    forall q, u
      ensures Get2(Del2(byPeer, p, t), q, u) == HeldAt(held - {(p, t)}, q, u)
    {
      Del2At(byPeer, p, t, q, u);
    }
  }

  lemma TopicsDel(byTopic: map<string, map<Slot, Subscription>>, held: map<Slot, Subscription>, p: nat, t: string)
    requires TopicsHold(byTopic, held) && (p, t) in held
    ensures held[(p, t)].storeTopic in byTopic
    ensures TopicsHold(Del2(byTopic, held[(p, t)].storeTopic, (p, t)), held - {(p, t)})
  {
    var store := held[(p, t)].storeTopic;
    assert Get2(byTopic, store, (p, t)).Some?;
    forall other, q, u
      ensures Get2(Del2(byTopic, store, (p, t)), other, (q, u)) == UnderTopic(HeldAt(held - {(p, t)}, q, u), other)
    {
      Del2At(byTopic, store, (p, t), other, (q, u));
    }
  }

  lemma FewerBounded(byPeer: map<nat, map<string, Subscription>>, installed: set<nat>, limit: nat, p: nat, t: string)
    requires PeerBounded(byPeer, installed, limit) && p in byPeer
    ensures PeerBounded(Del2(byPeer, p, t), installed, limit)
  {
    Fewer(byPeer[p], t);
  }

  lemma Fewer<B, V>(m: map<B, V>, b: B)
    ensures |m - {b}| <= |m|
  {
    if b in m {
      assert m == (m - {b})[b := m[b]];
    } else {
      assert m - {b} == m;
    }
  }

  lemma OneMore<B, V>(m: map<B, V>, b: B, v: V)
    ensures |m[b := v]| <= |m| + 1 && (b in m ==> |m[b := v]| == |m|)
  {
    assert m[b := v].Keys == m.Keys + {b};
    if b in m {
      assert m.Keys + {b} == m.Keys;
    }
  }

  /** A socket that holds the topic already, or is below the limit, stays within it with one more. */
  lemma StaysBounded(byPeer: map<nat, map<string, Subscription>>, installed: set<nat>, limit: nat, s: Subscription)
    requires PeerBounded(byPeer, installed, limit) && NoEmpty(byPeer)
    requires var topics := if s.peer in byPeer then byPeer[s.peer] else map[]; s.topic in topics || |topics| < limit
    ensures forall all | installed <= all && s.peer in all :: PeerBounded(Put2(byPeer, s.peer, s.topic, s), all, limit)
    ensures NoEmpty(Put2(byPeer, s.peer, s.topic, s))
  {
    KeepsNoEmpty(byPeer, s.peer, s.topic, s);
    OneMore(if s.peer in byPeer then byPeer[s.peer] else map[], s.topic, s);
  }

  lemma Overwritten(held: map<Slot, Subscription>, s: Subscription)
    requires Own(held)
    ensures (held - {(s.peer, s.topic)})[(s.peer, s.topic) := s] == held[(s.peer, s.topic) := s]
    ensures Own(held[(s.peer, s.topic) := s])
  {
  }

  /** What is left of `was` after removing some of the subscriptions `where` picks. */
  ghost predicate Remains(was: map<Slot, Subscription>, held: map<Slot, Subscription>, where: Subscription -> bool) {
    && (forall slot | slot in held :: slot in was && held[slot] == was[slot])
    && (forall slot | slot in was && slot !in held :: where(was[slot]))
  }

  lemma PickedAreGone(was: map<Slot, Subscription>, held: map<Slot, Subscription>, where: Subscription -> bool)
    requires Remains(was, held, where) && forall slot | slot in held :: !where(held[slot])
    ensures held == map slot | slot in was && !where(was[slot]) :: was[slot]
  {
  }

  // ---- the indexes ---------------------------------------------------------------------------------------

  class Subscriptions {
    const limit: nat
    var byTopic: map<string, map<Slot, Subscription>>
    var byPeer: map<nat, map<string, Subscription>>
    var closeInstalled: set<nat>
    /** The subscriptions held, by socket and client topic. */
    ghost var held: map<Slot, Subscription>

    ghost predicate Valid()
      reads this
    {
      && PeersHold(byPeer, held) && TopicsHold(byTopic, held) && Own(held)
      && NoEmpty(byPeer) && NoEmpty(byTopic)
      && PeerBounded(byPeer, closeInstalled, limit)
    }

    constructor (limit: nat)
      ensures Valid() && held == map[] && this.limit == limit
    {
      this.limit := limit;
      byTopic, byPeer, closeInstalled, held := map[], map[], {}, map[];
    }

    /** Removes the subscription from its store topic if it is the one there. */
    method DropFromTopic(s: Subscription)
      requires TopicsHold(byTopic, held) && NoEmpty(byTopic)
      requires HeldAt(held, s.peer, s.topic) == Some(s)
      modifies this`byTopic
      ensures TopicsHold(byTopic, held - {(s.peer, s.topic)}) && NoEmpty(byTopic)
    {
      TopicsDel(byTopic, held, s.peer, s.topic);
      KeepsNoEmpty(byTopic, s.storeTopic, (s.peer, s.topic), s);
      if s.storeTopic in byTopic && (s.peer, s.topic) in byTopic[s.storeTopic] &&
         byTopic[s.storeTopic][(s.peer, s.topic)] == s
      {
        byTopic := Del2(byTopic, s.storeTopic, (s.peer, s.topic));
      }
    }

    /** Removes the socket's subscription to the topic; with `expected`, only if it is that very one. */
    method Remove(p: nat, t: string, expected: Option<nat>) returns (removed: Option<Subscription>)
      requires Valid()
      modifies this`byTopic, this`byPeer, this`held
      ensures Valid()
      ensures removed ==
        if (p, t) in old(held) && (expected.None? || old(held)[(p, t)].id == expected.value) then Some(old(held)[(p, t)]) else None
      ensures held == if removed.Some? then old(held) - {(p, t)} else old(held)
    {
      assert Get2(byPeer, p, t) == HeldAt(held, p, t);
      if p !in byPeer || t !in byPeer[p] || (expected.Some? && byPeer[p][t].id != expected.value) {
        return None;
      }
      var s := byPeer[p][t];
      PeersDel(byPeer, held, p, t);
      KeepsNoEmpty(byPeer, p, t, s);
      FewerBounded(byPeer, closeInstalled, limit, p, t);
      DropFromTopic(s);
      byPeer := Del2(byPeer, p, t);
      held := held - {(p, t)};
      removed := Some(s);
    }

    /** How many topics the socket holds. */
    function CountOf(p: nat): nat
      reads this
    {
      if p in byPeer then |byPeer[p]| else 0
    }

    /** Subscribes the socket to the topic; a topic already held is replaced. */
    method Subscribe(s: Subscription, open: bool) returns (r: Subscribed)
      requires Valid()
      modifies this
      ensures Valid()
      ensures r == PeerClosed <==> !open
      ensures r == LimitExceeded <==> open && (s.peer, s.topic) !in old(held) && old(CountOf(s.peer)) >= limit
      ensures held == if r == Stored then old(held)[(s.peer, s.topic) := s] else old(held)
      ensures closeInstalled == if r == Stored then old(closeInstalled) + {s.peer} else old(closeInstalled)
    {
      if !open {
        return PeerClosed;
      }
      var topics := if s.peer in byPeer then byPeer[s.peer] else map[];
      assert Get2(byPeer, s.peer, s.topic) == HeldAt(held, s.peer, s.topic);
      if s.topic !in topics && |topics| >= limit {
        return LimitExceeded;
      }
      ghost var others := held;
      if s.topic in topics {
        DropFromTopic(topics[s.topic]);
        others := held - {(s.peer, s.topic)};
      }
      Store(s, others);
      r := Stored;
    }

    /** Puts the subscription into both indexes, `others` being what the by-topic one still holds, and installs the
        close handler. */
    method Store(s: Subscription, ghost others: map<Slot, Subscription>)
      requires PeersHold(byPeer, held) && TopicsHold(byTopic, others) && Own(held)
      requires NoEmpty(byPeer) && NoEmpty(byTopic) && PeerBounded(byPeer, closeInstalled, limit)
      requires HeldAt(others, s.peer, s.topic).None?
      requires others == held - {(s.peer, s.topic)}
      requires (s.peer in byPeer && s.topic in byPeer[s.peer]) || CountOf(s.peer) < limit
      modifies this
      ensures Valid() && held == old(held)[(s.peer, s.topic) := s]
      ensures closeInstalled == old(closeInstalled) + {s.peer}
    {
      PeersPut(byPeer, held, s);
      TopicsPut(byTopic, others, s);
      StaysBounded(byPeer, closeInstalled, limit, s);
      KeepsNoEmpty(byTopic, s.storeTopic, (s.peer, s.topic), s);
      Overwritten(held, s);
      byPeer := Put2(byPeer, s.peer, s.topic, s);
      byTopic := Put2(byTopic, s.storeTopic, (s.peer, s.topic), s);
      held := held[(s.peer, s.topic) := s];
      InstallClose(s.peer);
    }

    /** Installs the socket's close handler unless it is. */
    method InstallClose(p: nat)
      modifies this`closeInstalled
      ensures closeInstalled == old(closeInstalled) + {p}
    {
      if p !in closeInstalled {
        closeInstalled := closeInstalled + {p};
      }
    }

    method Unsubscribe(p: nat, t: string)
      requires Valid()
      modifies this
      ensures Valid() && held == old(held) - {(p, t)}
    {
      var removed := Remove(p, t, None);
      assert removed.None? ==> held == held - {(p, t)};
    }

    /** The socket closed: its subscriptions go, and no other's. */
    method DropPeer(p: nat)
      requires Valid()
      modifies this
      ensures Valid()
      ensures held == map slot | slot in old(held) && slot.0 != p :: old(held)[slot]
      ensures p !in byPeer && closeInstalled == old(closeInstalled) - {p}
    {
      ghost var was := held;
      var topics := if p in byPeer then byPeer[p].Keys else {};
      HeldBySocket(byPeer, held, p);
      while topics != {}
        invariant Valid() && closeInstalled == old(closeInstalled)
        invariant forall t | (p, t) in held :: t in topics
        invariant forall slot: Slot | slot.0 != p :: slot in held <==> slot in was
        invariant forall slot | slot in held :: slot in was && held[slot] == was[slot]
        decreases |topics|
      {
        var t :| t in topics;
        var removed := Remove(p, t, None);
        topics := topics - {t};
      }
      NothingHeld(byPeer, held, p);
      assert held == map slot | slot in was && slot.0 != p :: was[slot];
      closeInstalled := closeInstalled - {p};
    }

    /** Removes the subscriptions `where` picks and counts them. */
    method DropSubscriptions(where: Subscription -> bool) returns (dropped: nat)
      requires Valid()
      modifies this
      ensures Valid()
      ensures held == map slot | slot in old(held) && !where(old(held)[slot]) :: old(held)[slot]
      ensures dropped == |old(held)| - |held|
    {
      dropped := 0;
      ghost var was := held;
      var snapshot := byPeer;
      var peers := byPeer.Keys;
      HeldBySockets(byPeer, held);
      while peers != {}
        invariant Valid() && peers <= snapshot.Keys && dropped == |was| - |held|
        invariant PeersHold(snapshot, was) && Remains(was, held, where)
        invariant forall slot | slot in held && where(held[slot]) :: slot.0 in peers
        decreases |peers|
      {
        var p :| p in peers;
        HeldBySocket(snapshot, was, p);
        var n := DropOf(p, snapshot[p], where, was);
        dropped := dropped + n;
        peers := peers - {p};
      }
      PickedAreGone(was, held, where);
    }

    /** One socket's part of it: the topics it held at the start, each if it is still that subscription. */
    method DropOf(p: nat, topics: map<string, Subscription>, where: Subscription -> bool, ghost was: map<Slot, Subscription>)
      returns (dropped: nat)
      requires Valid()
      requires Remains(was, held, where)
      requires forall t :: (p, t) in was <==> t in topics
      requires forall t | t in topics :: was[(p, t)] == topics[t]
      modifies this`byTopic, this`byPeer, this`held
      ensures Valid() && dropped == |old(held)| - |held| && Remains(was, held, where) && held.Keys <= old(held).Keys
      ensures forall slot | slot in held && where(held[slot]) :: slot.0 != p
    {
      dropped := 0;
      var rest := topics.Keys;
      while rest != {}
        invariant Valid() && rest <= topics.Keys && dropped == |old(held)| - |held|
        invariant Remains(was, held, where) && held.Keys <= old(held).Keys
        invariant forall t | (p, t) in held && where(held[(p, t)]) :: t in rest
        decreases |rest|
      {
        var t :| t in rest;
        if where(topics[t]) {
          ghost var before := held;
          var removed := Remove(p, t, Some(topics[t].id));
          if removed.Some? {
            dropped := dropped + 1;
            OneLess(before, (p, t));
          }
        }
        rest := rest - {t};
      }
    }

    /** A reauthorization that took a while ends: a refusal or another store topic removes that very subscription,
        the same store topic renews it, and a replacement made meanwhile is left alone. */
    method EndReauthorize(s: Subscription, verdict: Verdict, renewedId: nat, now: int) returns (pushes: bool)
      requires Valid()
      requires var h := HeldAt(held, s.peer, s.topic); h.Some? && h.value.id == s.id ==> h.value == s
      modifies this
      ensures Valid() && pushes == (verdict == Allows(s.storeTopic))
      ensures var slot := (s.peer, s.topic);
        held == if HeldAt(old(held), s.peer, s.topic) != Some(s) then old(held)
                else if pushes then old(held)[slot := s.(id := renewedId, authorizedAt := now)]
                else if verdict.Failed? then old(held)
                else old(held) - {slot}
    {
      assert Get2(byPeer, s.peer, s.topic) == HeldAt(held, s.peer, s.topic);
      if verdict.Failed? {
        return false;
      }
      if verdict.Refused? || verdict.storeTopic != s.storeTopic {
        var removed := Remove(s.peer, s.topic, Some(s.id));
        return false;
      }
      if s.peer in byPeer && s.topic in byPeer[s.peer] && byPeer[s.peer][s.topic].id == s.id {
        var renewed := s.(id := renewedId, authorizedAt := now);
        PeersPut(byPeer, held, renewed);
        TopicsPut(byTopic, held, renewed);
        KeepsNoEmpty(byPeer, s.peer, s.topic, renewed);
        KeepsNoEmpty(byTopic, s.storeTopic, (s.peer, s.topic), renewed);
        OneMore(byPeer[s.peer], s.topic, renewed);
        byPeer := Put2(byPeer, s.peer, s.topic, renewed);
        byTopic := Put2(byTopic, s.storeTopic, (s.peer, s.topic), renewed);
        held := held[(s.peer, s.topic) := renewed];
      }
      pushes := true;
    }
  }

  /** The two indexes hold the same subscriptions: a socket's subscription is under its own store topic and no other,
      and whatever is under a store topic is a socket's. */
  lemma IndexesAgree(byPeer: map<nat, map<string, Subscription>>, byTopic: map<string, map<Slot, Subscription>>,
                     held: map<Slot, Subscription>, p: nat, t: string)
    requires PeersHold(byPeer, held) && TopicsHold(byTopic, held)
    ensures forall store ::
      Get2(byTopic, store, (p, t)).Some? <==> p in byPeer && t in byPeer[p] && byPeer[p][t].storeTopic == store
    ensures p in byPeer && t in byPeer[p] ==>
      byPeer[p][t].storeTopic in byTopic && Get2(byTopic, byPeer[p][t].storeTopic, (p, t)) == Some(byPeer[p][t])
  {
    HeldBySocket(byPeer, held, p);
    forall store
      ensures Get2(byTopic, store, (p, t)).Some? <==> p in byPeer && t in byPeer[p] && byPeer[p][t].storeTopic == store
    {
      assert Get2(byTopic, store, (p, t)) == UnderTopic(HeldAt(held, p, t), store);
    }
    if p in byPeer && t in byPeer[p] {
      assert Get2(byTopic, byPeer[p][t].storeTopic, (p, t)) == UnderTopic(HeldAt(held, p, t), byPeer[p][t].storeTopic);
    }
  }

  lemma NothingHeld(byPeer: map<nat, map<string, Subscription>>, held: map<Slot, Subscription>, p: nat)
    requires PeersHold(byPeer, held) && NoEmpty(byPeer) && forall t :: (p, t) !in held
    ensures p !in byPeer
  {
    if p in byPeer {
      var t :| t in byPeer[p];
      HeldBySocket(byPeer, held, p);
    }
  }

  /** The topics of one socket. */
  lemma HeldBySocket(byPeer: map<nat, map<string, Subscription>>, held: map<Slot, Subscription>, p: nat)
    requires PeersHold(byPeer, held)
    ensures forall t :: (p, t) in held <==> p in byPeer && t in byPeer[p]
    ensures forall t | (p, t) in held :: byPeer[p][t] == held[(p, t)]
  {
    forall t
      ensures (p, t) in held <==> p in byPeer && t in byPeer[p]
      ensures (p, t) in held ==> byPeer[p][t] == held[(p, t)]
    {
      assert Get2(byPeer, p, t) == HeldAt(held, p, t);
    }
  }

  lemma HeldBySockets(byPeer: map<nat, map<string, Subscription>>, held: map<Slot, Subscription>)
    requires PeersHold(byPeer, held)
    ensures forall slot | slot in held :: slot.0 in byPeer
  {
    forall slot | slot in held
      ensures slot.0 in byPeer
    {
      HeldBySocket(byPeer, held, slot.0);
      assert slot == (slot.0, slot.1);
    }
  }

  lemma OneLess(m: map<Slot, Subscription>, slot: Slot)
    requires slot in m
    ensures |m - {slot}| == |m| - 1
  {
    assert m == (m - {slot})[slot := m[slot]];
  }
}
