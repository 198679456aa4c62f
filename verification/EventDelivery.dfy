/** What a follower has delivered, against the history: the reasoning about one client step. */
module EventDelivery {
  import opened Basics
  import opened EventLog
  import opened EventPoll
  import opened EventClient

  /** The events delivered since the last follow or resync, and the rev that one set. */
  function DeliveredSince(notices: seq<Notice>): seq<Seen> {
    if notices == [] then []
    else
      match notices[|notices| - 1]
      case Delivered(seen, _) => DeliveredSince(notices[..|notices| - 1]) + [seen]
      case _ => []
  }

  function BaseOf(notices: seq<Notice>): int {
    if notices == [] then 0
    else
      match notices[|notices| - 1]
      case Delivered(_, _) => BaseOf(notices[..|notices| - 1])
      case Followed(rev) => rev
      case Resynced(rev) => rev
  }

  /** Since the last resync the handlers got exactly the visible events above its rev, up to the held one. */
  ghost predicate Faithful(h: History, pass: Filters, f: Follower) {
    f.rev.Some? ==>
      && BaseOf(f.notices) <= f.rev.value
      && DeliveredSince(f.notices) == Between(h, pass, BaseOf(f.notices), f.rev.value)
  }

  /** No event reaches the handlers twice or out of order, over the whole following of the topic. */
  ghost predicate NeverRepeats(f: Follower) {
    && (forall i, j | 0 <= i < j < |f.notices| && f.notices[i].Delivered? && f.notices[j].Delivered? ::
          f.notices[i].seen.rev < f.notices[j].seen.rev)
    && (forall i | 0 <= i < |f.notices| && f.notices[i].Delivered? ::
          f.rev.Some? && f.notices[i].prev < f.notices[i].seen.rev <= f.rev.value)
  }

  /** A push of the topic is one of its visible events. */
  ghost predicate PushOf(h: History, pass: Filters, a: WireEvent) {
    a.Wire? && exists i | 0 <= i < |h| ::
      pass(h[i]) && a == Wire(h[i].rev, h[i].prev, h[i].name, h[i].payload, h[i].version)
  }

  ghost predicate AllPushes(h: History, pass: Filters, arrivals: seq<WireEvent>) {
    forall a | a in arrivals :: PushOf(h, pass, a)
  }

  /** The cursor of a poll is a rev the client held; null only before it held one. */
  ghost predicate CursorOk(h: History, f: Follower, p: Poll) {
    p.cursor.Some? ==> f.rev.Some? && p.cursor.value <= f.rev.value && Known(h, p.cursor.value)
  }

  ghost predicate FollowerOk(h: History, pass: Filters, f: Follower) {
    && Faithful(h, pass, f) && NeverRepeats(f)
    && (f.rev.Some? ==> Known(h, f.rev.value))
    && (f.rev.None? ==> f.notices == [] && !f.refreshing)
    && AllPushes(h, pass, f.pending)
    && (forall p | p in f.sent :: CursorOk(h, f, p))
  }

  /** A client step that keeps the follower right, only moves the held rev up and only adds polls. */
  ghost predicate Advances(h: History, pass: Filters, f: Follower, g: Follower) {
    && FollowerOk(h, pass, g)
    && f.sent <= g.sent
    && (f.rev.Some? ==> g.rev.Some? && f.rev.value <= g.rev.value)
  }

  /** An answer to a poll: its rev is one the topic had, at or above the cursor, and its events are the
      visible ones from the cursor up to that rev. */
  ghost predicate AnswerOk(h: History, pass: Filters, cursor: Option<int>, a: TopicAnswer) {
    && Known(h, a.rev)
    && (cursor.None? ==> a.events == Some([]))
    && (cursor.Some? ==> cursor.value <= a.rev)
    && (cursor.Some? && a.events.Some? ==>
          && AllWire(a.events.value) && ChainedFrom(cursor.value, a.events.value)
          && SeenAll(a.events.value) == Between(h, pass, cursor.value, a.rev))
    && (cursor.Some? && a.events.None? ==> cursor.value < a.rev)
  }

  lemma KnownAppend(h: History, e: LoggedEvent, rev: int)
    requires Known(h, rev)
    ensures Known(h + [e], rev)
  {
    if rev != 0 {
      var i :| 0 <= i < |h| && h[i].rev == rev;
      assert (h + [e])[i] == h[i];
    }
  }

  lemma FaithfulAppend(h: History, pass: Filters, f: Follower, e: LoggedEvent)
    requires Chain(h) && FollowerOk(h, pass, f) && e.prev == LastRev(h) && e.prev < e.rev < MAX_REV
    ensures FollowerOk(h + [e], pass, f)
  {
    if f.rev.Some? {
      KnownBounds(h, f.rev.value);
      KnownAppend(h, e, f.rev.value);
      BetweenAppend(h, pass, e, BaseOf(f.notices), f.rev.value);
    }
    forall a | a in f.pending
      ensures PushOf(h + [e], pass, a)
    {
      PushAppend(h, pass, e, a);
    }
    forall p | p in f.sent
      ensures CursorOk(h + [e], f, p)
    {
      assert CursorOk(h, f, p);
      if p.cursor.Some? {
        KnownAppend(h, e, p.cursor.value);
      }
    }
  }

  lemma PushAppend(h: History, pass: Filters, e: LoggedEvent, a: WireEvent)
    requires PushOf(h, pass, a)
    ensures PushOf(h + [e], pass, a)
  {
    var i :| 0 <= i < |h| && pass(h[i]) && a == Wire(h[i].rev, h[i].prev, h[i].name, h[i].payload, h[i].version);
    assert (h + [e])[i] == h[i];
  }

  lemma AnswerAppend(h: History, pass: Filters, cursor: Option<int>, a: TopicAnswer, e: LoggedEvent)
    requires Chain(h) && AnswerOk(h, pass, cursor, a) && e.prev == LastRev(h) && e.prev < e.rev < MAX_REV
    ensures AnswerOk(h + [e], pass, cursor, a)
  {
    KnownBounds(h, a.rev);
    KnownAppend(h, e, a.rev);
    if cursor.Some? && a.events.Some? {
      BetweenAppend(h, pass, e, cursor.value, a.rev);
    }
  }

  // ---- delivering one event ---------------------------------------------------------------------

  lemma DeliveryNotices(f: Follower, a: WireEvent)
    requires f.rev.Some? && a.Wire? && a.prev == f.rev.value
    ensures var g := ApplyTo(f, a).0;
            && BaseOf(g.notices) == BaseOf(f.notices)
            && DeliveredSince(g.notices) == DeliveredSince(f.notices) + [Seen(a.rev, a.name, a.payload, a.version)]
  {
    assert ApplyTo(f, a).0.notices[..|f.notices|] == f.notices;
  }

  lemma DeliveryIsNew(f: Follower, a: WireEvent)
    requires NeverRepeats(f) && f.rev.Some? && a.Wire? && a.prev == f.rev.value < a.rev
    ensures NeverRepeats(ApplyTo(f, a).0)
  {
    assert forall i | 0 <= i < |f.notices| :: ApplyTo(f, a).0.notices[i] == f.notices[i];
  }

  lemma DeliveryIsFaithful(h: History, pass: Filters, f: Follower, a: WireEvent)
    requires Chain(h) && Faithful(h, pass, f) && f.rev.Some? && a.Wire? && a.prev == f.rev.value < a.rev
    requires Between(h, pass, f.rev.value, a.rev) == [Seen(a.rev, a.name, a.payload, a.version)]
    ensures Faithful(h, pass, ApplyTo(f, a).0)
  {
    DeliveryNotices(f, a);
    ChainIncreases(h);
    BetweenSplit(h, pass, BaseOf(f.notices), f.rev.value, a.rev);
  }

  /** The follower after delivering a visible event that is the next one above the held rev. */
  lemma DeliverNext(h: History, pass: Filters, f: Follower, a: WireEvent)
    requires Chain(h) && FollowerOk(h, pass, f) && f.rev.Some? && a.Wire? && a.prev == f.rev.value < a.rev
    requires Known(h, a.rev)
    requires Between(h, pass, f.rev.value, a.rev) == [Seen(a.rev, a.name, a.payload, a.version)]
    ensures Advances(h, pass, f, ApplyTo(f, a).0)
  {
    DeliveryIsFaithful(h, pass, f, a);
    DeliveryIsNew(f, a);
    assert forall p | p in f.sent :: CursorOk(h, f, p);
  }

  lemma SendKeeps(h: History, pass: Filters, f: Follower, rev: int, link: Link)
    requires FollowerOk(h, pass, f) && f.rev.Some?
    ensures Advances(h, pass, f, SendGapPoll(f, rev, link))
  {
    var g := SendGapPoll(f, rev, link);
    forall p | p in g.sent
      ensures CursorOk(h, g, p)
    {
      if p in f.sent {
        assert CursorOk(h, f, p);
      }
    }
  }

  lemma RefreshKeeps(h: History, pass: Filters, f: Follower, link: Link)
    requires FollowerOk(h, pass, f)
    ensures Advances(h, pass, f, StartRefresh(f, link))
  {
    var g := StartRefresh(f, link);
    assert forall p | p in g.sent :: CursorOk(h, f, p);
  }

  lemma AdvancesTransitive(h: History, pass: Filters, f: Follower, g: Follower, k: Follower)
    requires Advances(h, pass, f, g) && Advances(h, pass, g, k)
    ensures Advances(h, pass, f, k)
  {
  }

  /** A push, whenever it arrives and however often. */
  lemma PushKeeps(h: History, pass: Filters, f: Follower, a: WireEvent, link: Link)
    requires Chain(h) && FollowerOk(h, pass, f) && PushOf(h, pass, a)
    ensures Advances(h, pass, f, ReceivePush(f, a, link))
  {
    if f.rev.None? || f.refreshing {
      var g := ReceivePush(f, a, link);
      assert forall p | p in g.sent :: CursorOk(h, f, p);
    } else {
      var i :| 0 <= i < |h| && pass(h[i]) && a == Wire(h[i].rev, h[i].prev, h[i].name, h[i].payload, h[i].version);
      if a.prev == f.rev.value {
        RevBounds(h, i);
        BetweenOne(h, pass, i);
        DeliverNext(h, pass, f, a);
      } else {
        SendKeeps(h, pass, f, a.rev, link);
        assert Advances(h, pass, f, f);
      }
    }
  }

  lemma {:induction false} ReplayKeeps(h: History, pass: Filters, f: Follower, arrivals: seq<WireEvent>, link: Link)
    requires Chain(h) && FollowerOk(h, pass, f) && AllPushes(h, pass, arrivals)
    ensures Advances(h, pass, f, ReceiveAll(f, arrivals, link))
    decreases |arrivals|
  {
    if arrivals == [] {
      assert forall p | p in f.sent :: CursorOk(h, f, p);
    } else {
      var n := |arrivals| - 1;
      var g := ReceiveAll(f, arrivals[..n], link);
      ReplayKeeps(h, pass, f, arrivals[..n], link);
      PushKeeps(h, pass, g, arrivals[n], link);
      AdvancesTransitive(h, pass, f, g, ReceiveAll(f, arrivals, link));
    }
  }

  // ---- follow, resync, refresh ----------------------------------------------------------------------

  /** The topic at its first rev, before the held pushes are replayed. */
  function Started(f: Follower, rev: int): Follower {
    f.(rev := Some(rev), refreshing := false, pending := [], notices := f.notices + [Followed(rev)])
  }

  lemma StartKeeps(h: History, pass: Filters, f: Follower, rev: int)
    requires FollowerOk(h, pass, f) && f.rev.None? && Known(h, rev)
    ensures Advances(h, pass, f, Started(f, rev))
  {
    var start := Started(f, rev);
    BetweenEmpty(h, pass, rev, rev);
    assert start.notices == [Followed(rev)];
    assert forall p | p in start.sent :: CursorOk(h, f, p);
  }

  lemma FollowKeeps(h: History, pass: Filters, f: Follower, rev: int, link: Link)
    requires Chain(h) && FollowerOk(h, pass, f) && f.rev.None? && Known(h, rev)
    ensures Advances(h, pass, f, FollowFrom(f, rev, link))
    ensures FollowFrom(f, rev, link).rev.Some? && FollowFrom(f, rev, link).rev.value >= rev
  {
    var start := Started(f, rev);
    StartKeeps(h, pass, f, rev);
    var g := ReceiveAll(start, f.pending, link);
    ReplayKeeps(h, pass, start, f.pending, link);
    AdvancesTransitive(h, pass, f, start, g);
    EndFollowKeeps(h, pass, f, g, link);
  }

  lemma EndFollowKeeps(h: History, pass: Filters, f: Follower, g: Follower, link: Link)
    requires Advances(h, pass, f, g)
    ensures var k := g.(refreshOnAnswer := false);
            Advances(h, pass, f, k) && Advances(h, pass, f, StartRefresh(k, link))
            && (g.rev.Some? ==> StartRefresh(k, link).rev == g.rev)
  {
    var k := g.(refreshOnAnswer := false);
    assert forall p | p in k.sent :: CursorOk(h, g, p);
    RefreshKeeps(h, pass, k, link);
    AdvancesTransitive(h, pass, f, k, StartRefresh(k, link));
  }

  lemma ResyncKeeps(h: History, pass: Filters, f: Follower, rev: int)
    requires FollowerOk(h, pass, f) && f.rev.Some? && Known(h, rev) && f.rev.value <= rev
    ensures Advances(h, pass, f, ResyncTo(f, rev))
  {
    var g := ResyncTo(f, rev);
    BetweenEmpty(h, pass, rev, rev);
    assert g.notices[..|f.notices|] == f.notices;
    forall p | p in g.sent
      ensures CursorOk(h, g, p)
    {
      assert CursorOk(h, f, p);
    }
    assert forall i | 0 <= i < |f.notices| :: g.notices[i] == f.notices[i];
  }

  lemma FinishKeeps(h: History, pass: Filters, f: Follower, link: Link)
    requires Chain(h) && FollowerOk(h, pass, f)
    ensures Advances(h, pass, f, FinishRefresh(f, link))
  {
    if f.refreshing {
      var g := f.(refreshing := false, pending := []);
      assert forall p | p in g.sent :: CursorOk(h, f, p);
      assert Advances(h, pass, f, g);
      ReplayKeeps(h, pass, g, f.pending, link);
      AdvancesTransitive(h, pass, f, g, FinishRefresh(f, link));
    } else {
      assert forall p | p in f.sent :: CursorOk(h, f, p);
    }
  }

  // ---- a poll answer ------------------------------------------------------------------------------------

  /** The events of the answer above `lo`. */
  function Above(seen: seq<Seen>, lo: int): seq<Seen> {
    if seen == [] then []
    else Above(seen[..|seen| - 1], lo) + if seen[|seen| - 1].rev > lo then [seen[|seen| - 1]] else []
  }

  lemma AboveAppend(seen: seq<Seen>, s: Seen, lo: int)
    ensures Above(seen + [s], lo) == Above(seen, lo) + if s.rev > lo then [s] else []
  {
    assert (seen + [s])[..|seen|] == seen;
  }

  lemma {:induction false} AboveBetween(h: History, pass: Filters, lo: int, mid: int, hi: int)
    requires lo <= mid
    ensures Above(Between(h, pass, lo, hi), mid) == Between(h, pass, mid, hi)
    decreases |h|
  {
    if h != [] {
      var n := |h| - 1;
      AboveBetween(h[..n], pass, lo, mid, hi);
      AboveAppend(Between(h[..n], pass, lo, hi), SeenOf(h[n]), mid);
      assert Between(h[..n], pass, lo, hi) + [] == Between(h[..n], pass, lo, hi);
    }
  }

  lemma {:induction false} BetweenKnown(h: History, pass: Filters, lo: int, hi: int, s: Seen)
    requires s in Between(h, pass, lo, hi)
    ensures Known(h, s.rev)
    decreases |h|
  {
    var n := |h| - 1;
    if s in Between(h[..n], pass, lo, hi) {
      BetweenKnown(h[..n], pass, lo, hi, s);
      if s.rev != 0 {
        var i :| 0 <= i < n && h[..n][i].rev == s.rev;
        assert h[i].rev == s.rev;
      }
    }
  }

  lemma {:induction false} AboveCut(a: seq<Seen>, b: seq<Seen>, at: int)
    requires (forall s | s in a :: s.rev <= at) && (forall s | s in b :: s.rev > at)
    ensures Above(a + b, at) == b
    decreases |a| + |b|
  {
    if b != [] {
      var n := |b| - 1;
      assert a + b == (a + b[..n]) + [b[n]];
      AboveCut(a, b[..n], at);
      AboveAppend(a + b[..n], b[n], at);
    } else if a != [] {
      var n := |a| - 1;
      assert a == a[..n] + [a[n]] && a[..n] + b == a[..n] && a + b == a;
      AboveCut(a[..n], b, at);
      AboveAppend(a[..n], a[n], at);
    }
  }

  /** Cutting one sequence of events at one rev in two ways gives the same halves. */
  lemma CutUnique(a1: seq<Seen>, b1: seq<Seen>, a2: seq<Seen>, b2: seq<Seen>, at: int)
    requires a1 + b1 == a2 + b2
    requires (forall s | s in a1 :: s.rev <= at) && (forall s | s in a2 :: s.rev <= at)
    requires (forall s | s in b1 :: s.rev > at) && (forall s | s in b2 :: s.rev > at)
    ensures a1 == a2 && b1 == b2
  {
    AboveCut(a1, b1, at);
    AboveCut(a2, b2, at);
    assert |a1 + b1| == |a2 + b2|;
    assert a1 == (a1 + b1)[..|a1|] && a2 == (a2 + b2)[..|a2|];
  }

  lemma {:induction false} SeenConcat(a: seq<WireEvent>, b: seq<WireEvent>)
    requires AllWire(a) && AllWire(b)
    ensures AllWire(a + b) && SeenAll(a + b) == SeenAll(a) + SeenAll(b)
    decreases |a|
  {
    if a == [] {
      assert a + b == b;
    } else {
      assert (a + b)[1..] == a[1..] + b;
      SeenConcat(a[1..], b);
    }
  }

  lemma {:induction false} ChainBelow(cursor: int, events: seq<WireEvent>)
    requires AllWire(events) && ChainedFrom(cursor, events)
    ensures cursor <= EndRev(cursor, events) && forall s | s in SeenAll(events) :: s.rev <= EndRev(cursor, events)
    decreases |events|
  {
    if events != [] {
      ChainBelow(events[0].rev, events[1..]);
    }
  }

  /** A chain cut in two is two chains, the second from where the first ends. */
  lemma {:induction false} ChainSplits(cursor: int, a: seq<WireEvent>, b: seq<WireEvent>)
    requires AllWire(a) && AllWire(b) && ChainedFrom(cursor, a + b)
    ensures ChainedFrom(cursor, a) && ChainedFrom(EndRev(cursor, a), b)
    decreases |a|
  {
    if a == [] {
      assert a + b == b;
    } else {
      assert (a + b)[1..] == a[1..] + b && (a + b)[0] == a[0];
      ChainSplits(a[0].rev, a[1..], b);
    }
  }

  /** Where a chain of events stands after `n` of them. */
  lemma ChainCut(cursor: int, events: seq<WireEvent>, n: nat)
    requires AllWire(events) && ChainedFrom(cursor, events) && n <= |events|
    ensures AllWire(events[..n]) && AllWire(events[n..])
    ensures SeenAll(events) == SeenAll(events[..n]) + SeenAll(events[n..])
    ensures cursor <= EndRev(cursor, events[..n])
    ensures ChainedFrom(EndRev(cursor, events[..n]), events[n..])
    ensures forall s | s in SeenAll(events[..n]) :: s.rev <= EndRev(cursor, events[..n])
    ensures forall s | s in SeenAll(events[n..]) :: s.rev > EndRev(cursor, events[..n])
  {
    var a, b := events[..n], events[n..];
    Rejoin(events, n);
    ChainSplits(cursor, a, b);
    SeenConcat(a, b);
    ChainBelow(cursor, a);
    ChainAbove(EndRev(cursor, a), b);
  }

  lemma {:induction false} ChainAbove(cursor: int, events: seq<WireEvent>)
    requires AllWire(events) && ChainedFrom(cursor, events)
    ensures forall s | s in SeenAll(events) :: s.rev > cursor
    decreases |events|
  {
    if events != [] {
      ChainAbove(events[0].rev, events[1..]);
    }
  }

  /** Events cut at a rev are the visible ones up to it and from it on. */
  lemma CutVisible(h: History, pass: Filters, c: int, end: int, to: int, below: seq<Seen>, above: seq<Seen>)
    requires Chain(h) && c <= end <= to && below + above == Between(h, pass, c, to)
    requires (forall s | s in below :: s.rev <= end) && (forall s | s in above :: s.rev > end)
    ensures below == Between(h, pass, c, end) && above == Between(h, pass, end, to)
  {
    ChainIncreases(h);
    BetweenSplit(h, pass, c, end, to);
    CutUnique(below, above, Between(h, pass, c, end), Between(h, pass, end, to), end);
  }

  /** An answer's chain does not end above the revs of its events. */
  lemma PrefixEnds(c: int, to: int, events: seq<WireEvent>)
    requires AllWire(events) && ChainedFrom(c, events) && c <= to && forall s | s in SeenAll(events) :: s.rev <= to
    ensures c <= EndRev(c, events) <= to
  {
    ChainBelow(c, events);
    if events != [] {
      LastSeen(events);
      assert SeenAll(events)[|events| - 1] in SeenAll(events);
    }
  }

  /** The answer's events up to the n-th are the visible ones up to its rev. */
  lemma AnswerPrefix(h: History, pass: Filters, c: int, to: int, events: seq<WireEvent>, n: nat)
    requires Chain(h) && AllWire(events) && ChainedFrom(c, events) && n <= |events| && c <= to
    requires SeenAll(events) == Between(h, pass, c, to)
    ensures AllWire(events[..n])
    ensures var end := EndRev(c, events[..n]);
            c <= end <= to && SeenAll(events[..n]) == Between(h, pass, c, end)
            && (n == |events| ==> Between(h, pass, end, to) == [])
  {
    ChainCut(c, events, n);
    Rejoin(events, n);
    ChainSplits(c, events[..n], events[n..]);
    PrefixEnds(c, to, events[..n]);
    CutVisible(h, pass, c, EndRev(c, events[..n]), to, SeenAll(events[..n]), SeenAll(events[n..]));
  }

  lemma {:induction false} LastSeen(events: seq<WireEvent>)
    requires AllWire(events) && events != []
    ensures |SeenAll(events)| == |events|
    ensures SeenAll(events)[|events| - 1].rev == events[|events| - 1].rev
  {
    if |events| > 1 {
      LastSeen(events[1..]);
    }
  }

  lemma RaiseKeeps(h: History, pass: Filters, f: Follower, rev: int)
    requires Chain(h) && FollowerOk(h, pass, f) && f.rev.Some? && Known(h, rev) && f.rev.value <= rev
    ensures Advances(h, pass, f, f.(rev := Some(rev))) <==> Between(h, pass, f.rev.value, rev) == []
    ensures Faithful(h, pass, f.(rev := Some(rev))) <==> Between(h, pass, f.rev.value, rev) == []
  {
    var g := f.(rev := Some(rev));
    ChainIncreases(h);
    BetweenSplit(h, pass, BaseOf(f.notices), f.rev.value, rev);
    if Between(h, pass, f.rev.value, rev) == [] {
      forall p | p in g.sent
        ensures CursorOk(h, g, p)
      {
        assert CursorOk(h, f, p);
      }
    } else {
      assert |DeliveredSince(g.notices)| < |Between(h, pass, BaseOf(g.notices), rev)|;
    }
  }

  lemma ChainNext(c: int, events: seq<WireEvent>, n: nat)
    requires AllWire(events) && ChainedFrom(c, events) && n < |events|
    ensures AllWire(events[..n]) && AllWire(events[..n + 1])
    ensures events[n].prev == EndRev(c, events[..n]) < events[n].rev == EndRev(c, events[..n + 1])
  {
    ChainCut(c, events, n);
    assert events[n..][0] == events[n];
  }

  lemma SamePrefix(x: seq<Seen>, y: seq<Seen>, z: seq<Seen>)
    requires x + y == x + z
    ensures y == z
  {
    assert y == (x + y)[|x|..] && z == (x + z)[|x|..];
  }

  /** What one more visible event adds lies above the others. */
  lemma OneMoreVisible(h: History, pass: Filters, c: int, mid: int, to: int, before: seq<Seen>, seen: Seen)
    requires Chain(h) && c <= mid <= to
    requires Between(h, pass, c, mid) == before && Between(h, pass, c, to) == before + [seen]
    ensures Between(h, pass, mid, to) == [seen]
  {
    ChainIncreases(h);
    BetweenSplit(h, pass, c, mid, to);
    SamePrefix(before, Between(h, pass, mid, to), [seen]);
  }

  lemma SeenNext(events: seq<WireEvent>, n: nat)
    requires AllWire(events) && n < |events|
    ensures AllWire(events[..n]) && AllWire(events[..n + 1])
    ensures var e := events[n];
            SeenAll(events[..n + 1]) == SeenAll(events[..n]) + [Seen(e.rev, e.name, e.payload, e.version)]
  {
    TakeNext(events, n);
    SeenAppend(events[..n], events[n]);
  }

  /** An event of the answer is the one visible event between the one before it and its rev. */
  lemma AnswerEventIsNext(h: History, pass: Filters, c: int, to: int, events: seq<WireEvent>, n: nat)
    requires Chain(h) && c <= to && AllWire(events) && ChainedFrom(c, events) && n < |events|
    requires SeenAll(events) == Between(h, pass, c, to)
    ensures events[n].prev < events[n].rev
    ensures Between(h, pass, events[n].prev, events[n].rev) ==
            [Seen(events[n].rev, events[n].name, events[n].payload, events[n].version)]
  {
    var e := events[n];
    ChainNext(c, events, n);
    AnswerPrefix(h, pass, c, to, events, n);
    AnswerPrefix(h, pass, c, to, events, n + 1);
    SeenNext(events, n);
    OneMoreVisible(h, pass, c, e.prev, e.rev, SeenAll(events[..n]), Seen(e.rev, e.name, e.payload, e.version));
  }

  /** Raising the lower end of a range that holds one event, below that event, leaves it there. */
  lemma OneAbove(h: History, pass: Filters, lo: int, held: int, seen: Seen)
    requires lo <= held < seen.rev && Between(h, pass, lo, seen.rev) == [seen]
    ensures Between(h, pass, held, seen.rev) == [seen] && Known(h, seen.rev)
  {
    AboveBetween(h, pass, lo, held, seen.rev);
    AboveAppend([], seen, held);
    assert [] + [seen] == [seen];
    BetweenKnown(h, pass, lo, seen.rev, seen);
  }

  ghost predicate OnlyDelivers(f: Follower, g: Follower) {
    f.notices <= g.notices && forall i | |f.notices| <= i < |g.notices| :: g.notices[i].Delivered?
  }

  /** One event of a right answer: delivered when it is above the held rev, ignored otherwise. */
  lemma AnswerEvent(h: History, pass: Filters, f: Follower, c: int, to: int, events: seq<WireEvent>, n: nat)
    requires Chain(h) && FollowerOk(h, pass, f) && f.rev.Some? && c <= to
    requires AllWire(events) && ChainedFrom(c, events) && n < |events|
    requires SeenAll(events) == Between(h, pass, c, to)
    requires events[n].prev <= f.rev.value && events[n].prev < events[n].rev
    ensures var (g, outcome) := ApplyTo(f, Chained(events[n], f.rev.value));
            && outcome != Gap && Advances(h, pass, f, g) && OnlyDelivers(f, g)
            && g.rev.value == Max(f.rev.value, events[n].rev)
  {
    var e, held := events[n], f.rev.value;
    if e.rev <= held {
      assert forall p | p in f.sent :: CursorOk(h, f, p);
    } else {
      AnswerEventIsNext(h, pass, c, to, events, n);
      OneAbove(h, pass, e.prev, held, Seen(e.rev, e.name, e.payload, e.version));
      DeliverNext(h, pass, f, Chained(e, held));
    }
  }

  lemma {:induction false} SeenAppend(events: seq<WireEvent>, e: WireEvent)
    requires AllWire(events) && e.Wire?
    ensures AllWire(events + [e]) && SeenAll(events + [e]) == SeenAll(events) + [Seen(e.rev, e.name, e.payload, e.version)]
  {
    if events != [] {
      assert (events + [e])[1..] == events[1..] + [e];
      SeenAppend(events[1..], e);
    }
  }

  lemma ApplyAllStep(f: Follower, events: seq<WireEvent>, n: nat)
    requires f.rev.Some? && n < |events| && events[n].Wire?
    requires ApplyAll(f, events[..n]).1
    ensures var g := ApplyAll(f, events[..n]).0;
            var (k, outcome) := ApplyTo(g, Chained(events[n], g.rev.value));
            ApplyAll(f, events[..n + 1]) == (k, outcome != Gap)
  {
    TakeNext(events, n);
    ApplyAllLast(f, events[..n], events[n]);
  }

  lemma ApplyAllLast(f: Follower, events: seq<WireEvent>, e: WireEvent)
    requires f.rev.Some? && e.Wire? && ApplyAll(f, events).1
    ensures var g := ApplyAll(f, events).0;
            var (k, outcome) := ApplyTo(g, Chained(e, g.rev.value));
            ApplyAll(f, events + [e]) == (k, outcome != Gap)
  {
    assert (events + [e])[..|events|] == events;
  }

  lemma AdvancesDelivering(h: History, pass: Filters, f: Follower, g: Follower, k: Follower)
    requires Advances(h, pass, f, g) && Advances(h, pass, g, k) && OnlyDelivers(f, g) && OnlyDelivers(g, k)
    ensures Advances(h, pass, f, k) && OnlyDelivers(f, k)
  {
  }

  /** The loop over a right answer's events never meets a gap, whatever pushes did to the held rev since
      the poll was sent. */
  lemma {:induction false} AnswerEvents(
    h: History, pass: Filters, f: Follower, c: int, to: int, events: seq<WireEvent>, n: nat)
    requires Chain(h) && FollowerOk(h, pass, f) && f.rev.Some? && c <= f.rev.value && c <= to
    requires AllWire(events) && ChainedFrom(c, events) && n <= |events|
    requires SeenAll(events) == Between(h, pass, c, to)
    ensures AllWire(events[..n])
    ensures var (g, fine) := ApplyAll(f, events[..n]);
            && fine && Advances(h, pass, f, g) && OnlyDelivers(f, g)
            && g.rev.value == Max(f.rev.value, EndRev(c, events[..n]))
    decreases n
  {
    if n == 0 {
      assert forall p | p in f.sent :: CursorOk(h, f, p);
    } else {
      var m := n - 1;
      AnswerEvents(h, pass, f, c, to, events, m);
      var g := ApplyAll(f, events[..m]).0;
      ChainNext(c, events, m);
      AnswerEvent(h, pass, g, c, to, events, m);
      ApplyAllStep(f, events, m);
      AdvancesDelivering(h, pass, f, g, ApplyAll(f, events[..n]).0);
    }
  }

  /** A right answer to a poll with a cursor leaves the held rev at or above its own and resyncs only when it
      carries no events. */
  lemma AnswerKeeps(h: History, pass: Filters, f: Follower, c: int, a: TopicAnswer)
    requires Chain(h) && FollowerOk(h, pass, f) && f.rev.Some? && c <= f.rev.value
    requires AnswerOk(h, pass, Some(c), a)
    ensures var g := ApplyAnswer(f, Some(c), a).0;
            && Advances(h, pass, f, g) && g.rev.value >= a.rev && f.notices <= g.notices
            && (a.events.Some? ==> OnlyDelivers(f, g))
  {
    if a.events.None? {
      if f.rev != Some(c) && a.rev <= f.rev.value {
        assert forall p | p in f.sent :: CursorOk(h, f, p);
      } else {
        ResyncKeeps(h, pass, f, a.rev);
      }
    } else {
      var events := a.events.value;
      assert events[..|events|] == events;
      AnswerEvents(h, pass, f, c, a.rev, events, |events|);
      AnswerPrefix(h, pass, c, a.rev, events, |events|);
      var g := ApplyAll(f, events).0;
      if a.rev > g.rev.value {
        AboveBetween(h, pass, EndRev(c, events), g.rev.value, a.rev);
        RaiseKeeps(h, pass, g, a.rev);
        AdvancesTransitive(h, pass, f, g, g.(rev := Some(a.rev)));
      }
    }
  }

  /** The answer to a poll sent without a cursor, arriving when the topic holds a rev: it is right exactly
      when no visible event lies between the held rev and its own. */
  lemma NullAnswerExactly(h: History, pass: Filters, f: Follower, a: TopicAnswer)
    requires Chain(h) && FollowerOk(h, pass, f) && f.rev.Some? && AnswerOk(h, pass, None, a)
    ensures var g := ApplyAnswer(f, None, a).0;
            && g.notices == f.notices
            && (Faithful(h, pass, g) <==> a.rev <= f.rev.value || Between(h, pass, f.rev.value, a.rev) == [])
            && (Faithful(h, pass, g) ==> Advances(h, pass, f, g))
  {
    if a.rev > f.rev.value {
      RaiseKeeps(h, pass, f, a.rev);
    } else {
      assert forall p | p in f.sent :: CursorOk(h, f, p);
    }
  }
}
