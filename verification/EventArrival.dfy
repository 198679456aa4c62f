/** What reaches the handlers: a push that follows the held rev at once, a held push when it is replayed. */
module EventArrival {
  import opened Basics
  import opened EventLog
  import opened EventPoll
  import opened EventClient
  import opened EventDelivery
  import opened EventProtocol
  import opened EventRepair

  // ---- one push -------------------------------------------------------------------------------------

  /** Over every run, what each push does. One that follows the held rev is given to the handlers and moves the held
      rev to its own; one at or below the held rev does nothing; one that comes before the topic has a rev, or while
      it is refreshed, is held; and any other is a gap, which is polled for or remembered. */
  lemma PushReachesHandlers(pass: Filters, states: seq<System>, steps: seq<Step>, n: nat)
    requires Run(pass, states, steps) && n < |steps| && steps[n].Push? && Enabled(pass, states[n], steps[n])
    ensures var f, g, e := states[n].client, states[n + 1].client, states[n].hist[steps[n].index];
            if f.rev.None? || f.refreshing then
              g == f.(pending := f.pending + [Wire(e.rev, e.prev, e.name, e.payload, e.version)])
            else if e.prev == f.rev.value then
              g == f.(rev := Some(e.rev), notices := f.notices + [Delivered(SeenOf(e), e.prev)])
            else if e.rev <= f.rev.value then g == f
            else
              && g.rev == f.rev && g.notices == f.notices
              && (f.gapInFlight ==> g.gapInFlight && g.gapRev.Some? && e.rev <= g.gapRev.value && g.sent == f.sent)
              && (!f.gapInFlight && Usable(steps[n].link) ==> g.gapInFlight && g.sent == f.sent + [Poll(f.rev, true)])
  {
    assert Moves(pass, states, steps[n], n);
  }

  // ---- held pushes ------------------------------------------------------------------------------------

  /** The chain's events are among the arrivals, in this order. */
  predicate InOrder(chain: seq<WireEvent>, arrivals: seq<WireEvent>)
    decreases |arrivals|
  {
    || chain == []
    || (arrivals != [] &&
        var n, m := |arrivals| - 1, |chain| - 1;
        InOrder(chain, arrivals[..n]) || (arrivals[n] == chain[m] && InOrder(chain[..m], arrivals[..n])))
  }

  lemma {:induction false} InOrderArrived(chain: seq<WireEvent>, arrivals: seq<WireEvent>)
    requires InOrder(chain, arrivals)
    ensures forall a | a in chain :: a in arrivals
    decreases |arrivals|
  {
    if chain != [] {
      var n, m := |arrivals| - 1, |chain| - 1;
      if InOrder(chain, arrivals[..n]) {
        InOrderArrived(chain, arrivals[..n]);
      } else {
        InOrderArrived(chain[..m], arrivals[..n]);
        assert chain == chain[..m] + [chain[m]];
      }
    }
  }

  lemma ChainEnds(c: int, chain: seq<WireEvent>)
    requires chain != [] && AllWire(chain) && ChainedFrom(c, chain)
    ensures var m := |chain| - 1;
            && AllWire(chain[..m]) && ChainedFrom(c, chain[..m])
            && c <= EndRev(c, chain[..m]) == chain[m].prev < chain[m].rev == EndRev(c, chain)
  {
    var m := |chain| - 1;
    ChainNext(c, chain, m);
    Rejoin(chain, m);
    ChainSplits(c, chain[..m], chain[m..]);
    ChainBelow(c, chain[..m]);
  }

  /** A rev the topic had is not inside an event. */
  lemma NothingInside(h: History, i: nat, rev: int)
    requires Chain(h) && i < |h| && Known(h, rev) && h[i].prev <= rev
    ensures rev == h[i].prev || h[i].rev <= rev
  {
    RevBounds(h, i);
    if rev != 0 {
      var j :| 0 <= j < |h| && h[j].rev == rev;
      if i < j {
        RevsIncrease(h, i, j);
      } else if j < i {
        RevsIncrease(h, j, i);
      }
    }
  }

  /** A client that has come as far as a push's `prev` has come as far as the push once it arrives. */
  lemma PushIsPassed(h: History, pass: Filters, f: Follower, a: WireEvent, link: Link)
    requires Chain(h) && FollowerOk(h, pass, f) && PushOf(h, pass, a)
    requires f.rev.Some? && !f.refreshing && a.prev <= f.rev.value
    ensures var g := ReceivePush(f, a, link);
            g.rev.Some? && a.rev <= g.rev.value && OnlyDelivers(f, g)
  {
    var i :| 0 <= i < |h| && pass(h[i]) && a == Wire(h[i].rev, h[i].prev, h[i].name, h[i].payload, h[i].version);
    NothingInside(h, i, f.rev.value);
  }

  lemma PushKeepsHeld(f: Follower, a: WireEvent, link: Link)
    requires f.rev.Some? && !f.refreshing
    ensures var g := ReceivePush(f, a, link);
            && g.rev.Some? && !g.refreshing && g.pending == f.pending && g.refreshOnAnswer == f.refreshOnAnswer
            && g.behind == f.behind && g.subscribesSent == f.subscribesSent && OnlyDelivers(f, g)
  {
  }

  lemma {:induction false} ReplayKeepsHeld(f: Follower, arrivals: seq<WireEvent>, link: Link)
    requires f.rev.Some? && !f.refreshing
    ensures var g := ReceiveAll(f, arrivals, link);
            && g.rev.Some? && !g.refreshing && g.pending == f.pending && g.refreshOnAnswer == f.refreshOnAnswer
            && g.behind == f.behind && g.subscribesSent == f.subscribesSent && OnlyDelivers(f, g)
    decreases |arrivals|
  {
    if arrivals != [] {
      var n := |arrivals| - 1;
      ReplayKeepsHeld(f, arrivals[..n], link);
      PushKeepsHeld(ReceiveAll(f, arrivals[..n], link), arrivals[n], link);
    }
  }

  /** Whatever else is among the arrivals, the held rev passes the whole chain. */
  lemma {:induction false} ReplayPasses(
    h: History, pass: Filters, f: Follower, arrivals: seq<WireEvent>, chain: seq<WireEvent>, link: Link)
    requires Chain(h) && FollowerOk(h, pass, f) && AllPushes(h, pass, arrivals) && f.rev.Some? && !f.refreshing
    requires AllWire(chain) && ChainedFrom(f.rev.value, chain) && InOrder(chain, arrivals)
    ensures var g := ReceiveAll(f, arrivals, link);
            g.rev.Some? && EndRev(f.rev.value, chain) <= g.rev.value
    decreases |arrivals|
  {
    ReplayKeeps(h, pass, f, arrivals, link);
    if chain != [] {
      var n, m := |arrivals| - 1, |chain| - 1;
      var g := ReceiveAll(f, arrivals[..n], link);
      ReplayKeeps(h, pass, f, arrivals[..n], link);
      ReplayKeepsHeld(f, arrivals[..n], link);
      PushKeeps(h, pass, g, arrivals[n], link);
      if InOrder(chain, arrivals[..n]) {
        ReplayPasses(h, pass, f, arrivals[..n], chain, link);
      } else {
        ChainEnds(f.rev.value, chain);
        ReplayPasses(h, pass, f, arrivals[..n], chain[..m], link);
        PushIsPassed(h, pass, g, arrivals[n], link);
      }
    }
  }

  /** A push is the one visible event between its `prev` and its rev. */
  lemma PushIsNext(h: History, pass: Filters, c: int, a: WireEvent)
    requires Chain(h) && PushOf(h, pass, a) && c <= a.prev
    ensures a.prev < a.rev
    ensures Between(h, pass, c, a.rev) == Between(h, pass, c, a.prev) + [Seen(a.rev, a.name, a.payload, a.version)]
  {
    var i :| 0 <= i < |h| && pass(h[i]) && a == Wire(h[i].rev, h[i].prev, h[i].name, h[i].payload, h[i].version);
    RevBounds(h, i);
    BetweenOne(h, pass, i);
    ChainIncreases(h);
    BetweenSplit(h, pass, c, a.prev, a.rev);
  }

  lemma AllPushesLast(h: History, pass: Filters, chain: seq<WireEvent>)
    requires chain != [] && AllPushes(h, pass, chain)
    ensures AllPushes(h, pass, chain[..|chain| - 1]) && PushOf(h, pass, chain[|chain| - 1])
  {
  }

  /** A chain of pushes is all that is visible between its ends. */
  lemma {:induction false} ChainIsVisible(h: History, pass: Filters, c: int, chain: seq<WireEvent>)
    requires Chain(h) && AllPushes(h, pass, chain) && AllWire(chain) && ChainedFrom(c, chain)
    ensures c <= EndRev(c, chain) && SeenAll(chain) == Between(h, pass, c, EndRev(c, chain))
    decreases |chain|
  {
    if chain == [] {
      BetweenEmpty(h, pass, c, c);
    } else {
      var m := |chain| - 1;
      ChainEnds(c, chain);
      AllPushesLast(h, pass, chain);
      ChainIsVisible(h, pass, c, chain[..m]);
      PushIsNext(h, pass, c, chain[m]);
      SeenNext(chain, m);
      assert chain[..m + 1] == chain;
    }
  }

  /** The handlers were given the chain, in order, right after what they had, and then only newer visible events. */
  ghost predicate GivenNext(h: History, pass: Filters, f: Follower, g: Follower, had: seq<Seen>, c: int, chain: seq<WireEvent>)
    requires AllWire(chain)
  {
    && g.rev.Some? && EndRev(c, chain) <= g.rev.value
    && DeliveredSince(g.notices) == had + SeenAll(chain) + Between(h, pass, EndRev(c, chain), g.rev.value)
  }

  lemma {:induction false} BaseStays(f: seq<Notice>, g: seq<Notice>)
    requires f <= g && forall i | |f| <= i < |g| :: g[i].Delivered?
    ensures BaseOf(g) == BaseOf(f)
    decreases |g|
  {
    if |g| > |f| {
      BaseStays(f, g[..|g| - 1]);
    } else {
      assert g == f;
    }
  }

  lemma Concat4(a: seq<Seen>, b: seq<Seen>, c: seq<Seen>)
    ensures a + (b + c) == a + b + c
  {
  }

  /** Held pushes received again: a chain among them that starts at the held rev is delivered in order. */
  lemma ReplayDelivers(
    h: History, pass: Filters, f: Follower, arrivals: seq<WireEvent>, chain: seq<WireEvent>, link: Link)
    requires Chain(h) && FollowerOk(h, pass, f) && AllPushes(h, pass, arrivals) && f.rev.Some? && !f.refreshing
    requires AllWire(chain) && ChainedFrom(f.rev.value, chain) && InOrder(chain, arrivals)
    ensures GivenNext(h, pass, f, ReceiveAll(f, arrivals, link), DeliveredSince(f.notices), f.rev.value, chain)
  {
    var g, c, end := ReceiveAll(f, arrivals, link), f.rev.value, EndRev(f.rev.value, chain);
    ReplayPasses(h, pass, f, arrivals, chain, link);
    ReplayKeeps(h, pass, f, arrivals, link);
    ReplayKeepsHeld(f, arrivals, link);
    BaseStays(f.notices, g.notices);
    InOrderArrived(chain, arrivals);
    ChainIsVisible(h, pass, c, chain);
    ChainIncreases(h);
    BetweenSplit(h, pass, BaseOf(f.notices), c, g.rev.value);
    BetweenSplit(h, pass, c, end, g.rev.value);
    Concat4(DeliveredSince(f.notices), SeenAll(chain), Between(h, pass, end, g.rev.value));
  }

  // ---- the first answer -------------------------------------------------------------------------------

  /** `refresh()` before the first answer: the follow starts a refresh, over the socket or by the ladder. */
  predicate RefreshStarted(f: Follower, g: Follower, link: Link) {
    && g.refreshing && !g.refreshOnAnswer
    && (if link.peerOpen then g.subscribesSent == f.subscribesSent + 1 else g.behind)
  }

  /** The pushes held before the topic's first rev: a chain among them from that rev on is delivered in order, and a
      refresh asked for meanwhile starts. */
  lemma FollowDelivers(h: History, pass: Filters, f: Follower, rev: int, chain: seq<WireEvent>, link: Link)
    requires Chain(h) && FollowerOk(h, pass, f) && f.rev.None? && Known(h, rev)
    requires AllWire(chain) && ChainedFrom(rev, chain) && InOrder(chain, f.pending)
    ensures var g := FollowFrom(f, rev, link);
            && GivenNext(h, pass, f, g, [], rev, chain) && g.notices != [] && g.notices[0] == Followed(rev)
            && g.pending == [] && (if f.refreshOnAnswer then RefreshStarted(f, g, link) else !g.refreshing)
  {
    var start := Started(f, rev);
    StartKeeps(h, pass, f, rev);
    assert start.notices == [Followed(rev)] && DeliveredSince(start.notices) == [];
    ReplayDelivers(h, pass, start, f.pending, chain, link);
    ReplayKeepsHeld(start, f.pending, link);
  }

  /** The rev an answer of this step carries. */
  function AnsweredRev(s: System, step: Step): Option<int> {
    match step
    case SubscribeArrives(i, _) => if i < |s.subscribes| && s.subscribes[i].RevSent? then Some(s.subscribes[i].rev) else None
    case PollArrives(i, _) => if i < |s.polls| && s.polls[i].Served? then Some(s.polls[i].answer.rev) else None
    case _ => None
  }

  /** Over every run, the topic's first answer, of a subscribe call or of a poll: every chain of held pushes from its
      rev on is delivered in order. */
  lemma FirstAnswerDeliversHeld(pass: Filters, states: seq<System>, steps: seq<Step>, n: nat, chain: seq<WireEvent>)
    requires Run(pass, states, steps) && n < |steps| && NoneSkips(pass, states, steps, n)
    requires AnsweredRev(states[n], steps[n]).Some? && states[n].client.rev.None?
    requires AllWire(chain) && ChainedFrom(AnsweredRev(states[n], steps[n]).value, chain)
    requires InOrder(chain, states[n].client.pending)
    ensures var rev, g := AnsweredRev(states[n], steps[n]).value, states[n + 1].client;
            && GivenNext(states[n].hist, pass, states[n].client, g, [], rev, chain)
            && g.notices != [] && g.notices[0] == Followed(rev)
  {
    RunKeeps(pass, states, steps, n);
    assert Moves(pass, states, steps[n], n);
    FirstAnswer(pass, states[n], steps[n], chain);
  }

  lemma FirstAnswer(pass: Filters, s: System, step: Step, chain: seq<WireEvent>)
    requires Inv(pass, s) && Enabled(pass, s, step) && AnsweredRev(s, step).Some? && s.client.rev.None?
    requires AllWire(chain) && ChainedFrom(AnsweredRev(s, step).value, chain) && InOrder(chain, s.client.pending)
    ensures var rev, g := AnsweredRev(s, step).value, Next(pass, s, step).client;
            GivenNext(s.hist, pass, s.client, g, [], rev, chain) && g.notices != [] && g.notices[0] == Followed(rev)
  {
    match step
    case PollArrives(i, link) =>
      assert PollOk(s.hist, pass, s.client.sent[i], s.polls[i]);
      FirstEntry(s.hist, pass, s.client, s.client.sent[i], s.polls[i].answer, chain, link);
    case SubscribeArrives(i, link) =>
      FollowDelivers(s.hist, pass, s.client, s.subscribes[i].rev, chain, link);
  }

  /** The state an answer is applied to. */
  function Begun(f: Follower, p: Poll): Follower {
    f.(gapInFlight := if p.gap then false else f.gapInFlight, behind := false)
  }

  lemma FirstEntry(h: History, pass: Filters, f: Follower, p: Poll, a: TopicAnswer, chain: seq<WireEvent>, link: Link)
    requires Chain(h) && FollowerOk(h, pass, f) && f.rev.None? && Known(h, a.rev)
    requires AllWire(chain) && ChainedFrom(a.rev, chain) && InOrder(chain, f.pending)
    ensures var g := PollAnswerTaken(f, p, Entry(a), link);
            GivenNext(h, pass, f, g, [], a.rev, chain) && g.notices != [] && g.notices[0] == Followed(a.rev)
  {
    var start := Begun(f, p);
    FlagsKeep(h, pass, f, start);
    FollowDelivers(h, pass, start, a.rev, chain, link);
    var g := FollowFrom(start, a.rev, link);
    assert PollAgain(g, link).rev == g.rev && PollAgain(g, link).notices == g.notices;
  }

  // ---- the end of a refresh -----------------------------------------------------------------------------

  /** The pushes held while the topic was refreshed are received again when that ends. */
  lemma FinishDelivers(h: History, pass: Filters, f: Follower, chain: seq<WireEvent>, link: Link)
    requires Chain(h) && FollowerOk(h, pass, f) && f.refreshing
    requires AllWire(chain) && ChainedFrom(f.rev.value, chain) && InOrder(chain, f.pending)
    ensures var g := FinishRefresh(f, link);
            && GivenNext(h, pass, f, g, DeliveredSince(f.notices), f.rev.value, chain)
            && !g.refreshing && g.pending == [] && g.behind == f.behind
  {
    var start := f.(refreshing := false, pending := []);
    assert forall p | p in start.sent :: CursorOk(h, f, p);
    ReplayDelivers(h, pass, start, f.pending, chain, link);
    ReplayKeepsHeld(start, f.pending, link);
  }

  /** Over every run, the answer of a subscribe call ends a refresh: the held pushes that follow the held rev are
      delivered in order, and an answer above the held rev has the client poll for the rest. */
  lemma SubscribeEndsRefresh(pass: Filters, states: seq<System>, steps: seq<Step>, n: nat, chain: seq<WireEvent>)
    requires Run(pass, states, steps) && n < |steps| && NoneSkips(pass, states, steps, n)
    requires steps[n].SubscribeArrives? && AnsweredRev(states[n], steps[n]).Some? && states[n].client.refreshing
    requires AllWire(chain) && states[n].client.rev.Some? && ChainedFrom(states[n].client.rev.value, chain)
    requires InOrder(chain, states[n].client.pending)
    ensures var f, g, rev := states[n].client, states[n + 1].client, AnsweredRev(states[n], steps[n]).value;
            && GivenNext(states[n].hist, pass, f, g, DeliveredSince(f.notices), f.rev.value, chain)
            && !g.refreshing && g.pending == []
            && (rev <= f.rev.value ==> !g.behind)
            && (f.rev.value < rev && Usable(steps[n].link) ==> g.gapInFlight)
  {
    RunKeeps(pass, states, steps, n);
    assert Moves(pass, states, steps[n], n);
    SubscribedWhileRefreshing(
      states[n].hist, pass, states[n].client, states[n].subscribes[steps[n].index].rev, chain, steps[n].link);
  }

  lemma SubscribedWhileRefreshing(
    h: History, pass: Filters, f: Follower, rev: int, chain: seq<WireEvent>, link: Link)
    requires Chain(h) && FollowerOk(h, pass, f) && f.refreshing && f.rev.Some?
    requires AllWire(chain) && ChainedFrom(f.rev.value, chain) && InOrder(chain, f.pending)
    ensures var g := SubscribeAnswered(f, rev, link);
            && GivenNext(h, pass, f, g, DeliveredSince(f.notices), f.rev.value, chain)
            && !g.refreshing && g.pending == []
            && (rev <= f.rev.value ==> !g.behind)
            && (f.rev.value < rev && Usable(link) ==> g.gapInFlight)
  {
    var g := if rev > f.rev.value then SendGapPoll(f, rev, link) else f.(behind := false);
    if rev > f.rev.value {
      SendKeeps(h, pass, f, rev, link);
    } else {
      FlagsKeep(h, pass, f, g);
    }
    FinishDelivers(h, pass, g, chain, link);
    if g.gapInFlight {
      ReplayKeepsFlight(g.(refreshing := false, pending := []), g.pending, link);
    }
  }

  /** Receiving pushes ends no gap poll. */
  lemma {:induction false} ReplayKeepsFlight(f: Follower, arrivals: seq<WireEvent>, link: Link)
    requires f.gapInFlight
    ensures ReceiveAll(f, arrivals, link).gapInFlight
    decreases |arrivals|
  {
    if arrivals != [] {
      ReplayKeepsFlight(f, arrivals[..|arrivals| - 1], link);
    }
  }

  /** Applying an answer's events leaves what is held for a refresh. */
  lemma {:induction false} ApplyAllKeepsHeld(f: Follower, events: seq<WireEvent>)
    requires f.rev.Some?
    ensures var g := ApplyAll(f, events).0;
            g.pending == f.pending && g.refreshing == f.refreshing && g.behind == f.behind && g.sent == f.sent
    decreases |events|
  {
    if events != [] {
      ApplyAllKeepsHeld(f, events[..|events| - 1]);
    }
  }

  /** Where an answer that carries events leaves the held rev, and what it says of that: `Moved` when it rose. */
  lemma AnswerRaises(h: History, pass: Filters, f: Follower, cursor: Option<int>, a: TopicAnswer)
    requires Chain(h) && FollowerOk(h, pass, f) && f.rev.Some? && AnswerOk(h, pass, cursor, a) && a.events.Some?
    requires cursor.Some? ==> cursor.value <= f.rev.value
    ensures var (g, outcome) := ApplyAnswer(f, cursor, a);
            && g.rev == Some(Max(f.rev.value, a.rev)) && (outcome == Moved <==> f.rev.value < a.rev)
            && g.pending == f.pending && g.refreshing == f.refreshing && g.behind == f.behind
  {
    var events := a.events.value;
    assert events[..|events|] == events;
    ApplyAllKeepsHeld(f, events);
    if cursor.Some? {
      AnswerEvents(h, pass, f, cursor.value, a.rev, events, |events|);
      AnswerPrefix(h, pass, cursor.value, a.rev, events, |events|);
    }
  }

  /** What an answer without events does: nothing when pushes already brought the client there, otherwise a resync to
      its rev, of which the handlers are told and which drops the held pushes. */
  lemma NoEventsResync(h: History, pass: Filters, f: Follower, cursor: int, a: TopicAnswer)
    requires Chain(h) && FollowerOk(h, pass, f) && f.rev.Some? && AnswerOk(h, pass, Some(cursor), a) && a.events.None?
    requires cursor <= f.rev.value
    ensures var (g, outcome) := ApplyAnswer(f, Some(cursor), a);
            && (a.rev <= f.rev.value ==> g == f && outcome == Answered)
            && (f.rev.value < a.rev ==>
                  g == f.(rev := Some(a.rev), pending := [], notices := f.notices + [Resynced(a.rev)]) && outcome == Moved)
  {
  }

  /** Over every run, the answer of a poll that carries events ends a refresh: the held pushes that follow the rev it
      brought the client to are delivered in order after them. */
  lemma PollEndsRefresh(pass: Filters, states: seq<System>, steps: seq<Step>, n: nat, chain: seq<WireEvent>)
    requires Run(pass, states, steps) && n < |steps| && NoneSkips(pass, states, steps, n + 1)
    requires steps[n].PollArrives? && AnsweredRev(states[n], steps[n]).Some?
    requires states[n].client.refreshing && states[n].client.rev.Some? && states[n].polls[steps[n].index].answer.events.Some?
    requires AllWire(chain)
    requires ChainedFrom(Max(states[n].client.rev.value, AnsweredRev(states[n], steps[n]).value), chain)
    requires InOrder(chain, states[n].client.pending)
    ensures var f, g, rev := states[n].client, states[n + 1].client, AnsweredRev(states[n], steps[n]).value;
            && GivenNext(states[n].hist, pass, f, g, Brought(states[n].hist, pass, f, rev), Max(f.rev.value, rev), chain)
            && !g.refreshing && g.pending == [] && !g.behind
  {
    var s, i, link := states[n], steps[n].index, steps[n].link;
    RunKeeps(pass, states, steps, n);
    assert Moves(pass, states, steps[n], n);
    assert PollOk(s.hist, pass, s.client.sent[i], s.polls[i]) && CursorOk(s.hist, s.client, s.client.sent[i]);
    assert !Skips(pass, s, steps[n]);
    TakenWhileRefreshing(s.hist, pass, s.client, s.client.sent[i], s.polls[i].answer, chain, link);
  }

  /** What the handlers have once an answer brought the client to `rev`. */
  function Brought(h: History, pass: Filters, f: Follower, rev: int): seq<Seen>
    requires f.rev.Some?
  {
    DeliveredSince(f.notices) + Between(h, pass, f.rev.value, Max(f.rev.value, rev))
  }

  lemma TakenWhileRefreshing(
    h: History, pass: Filters, f: Follower, p: Poll, a: TopicAnswer, chain: seq<WireEvent>, link: Link)
    requires Chain(h) && FollowerOk(h, pass, f) && CursorOk(h, f, p) && AnswerOk(h, pass, p.cursor, a)
    requires !SkipsEvents(h, pass, f, p.cursor, a) && f.refreshing && f.rev.Some? && a.events.Some?
    requires AllWire(chain) && ChainedFrom(Max(f.rev.value, a.rev), chain) && InOrder(chain, f.pending)
    ensures var g := PollAnswerTaken(f, p, Entry(a), link);
            && GivenNext(h, pass, f, g, Brought(h, pass, f, a.rev), Max(f.rev.value, a.rev), chain)
            && !g.refreshing && g.pending == [] && !g.behind
  {
    var start := Begun(f, p);
    FlagsKeep(h, pass, f, start);
    AnswerRaises(h, pass, start, p.cursor, a);
    var g := ApplyAnswer(start, p.cursor, a).0;
    AnswerBrings(h, pass, start, p.cursor, a);
    FinishDelivers(h, pass, g, chain, link);
    TakenIs(f, p, a, link);
    PollAgainOnlySends(FinishRefresh(g, link), link);
  }

  lemma TakenIs(f: Follower, p: Poll, a: TopicAnswer, link: Link)
    requires f.rev.Some?
    ensures var k := FinishRefresh(ApplyAnswer(Begun(f, p), p.cursor, a).0, link);
            PollAnswerTaken(f, p, Entry(a), link) == if p.gap then PollAgain(k, link) else k
  {
  }

  lemma PollAgainOnlySends(f: Follower, link: Link)
    ensures var g := PollAgain(f, link);
            && g.rev == f.rev && g.notices == f.notices && g.pending == f.pending && g.refreshing == f.refreshing
            && g.behind == f.behind
  {
  }

  /** An answer with events gives the handlers what is visible up to its rev. */
  lemma AnswerBrings(h: History, pass: Filters, f: Follower, cursor: Option<int>, a: TopicAnswer)
    requires Chain(h) && FollowerOk(h, pass, f) && f.rev.Some? && AnswerOk(h, pass, cursor, a) && a.events.Some?
    requires cursor.Some? ==> cursor.value <= f.rev.value
    requires !SkipsEvents(h, pass, f, cursor, a)
    ensures var g := ApplyAnswer(f, cursor, a).0;
            FollowerOk(h, pass, g) && DeliveredSince(g.notices) == Brought(h, pass, f, a.rev)
  {
    var g := ApplyAnswer(f, cursor, a).0;
    if cursor.Some? {
      AnswerKeeps(h, pass, f, cursor.value, a);
    } else {
      NullAnswerExactly(h, pass, f, a);
      assert g.notices == f.notices;
    }
    AnswerRaises(h, pass, f, cursor, a);
    BaseStays(f.notices, g.notices);
    ChainIncreases(h);
    BetweenSplit(h, pass, BaseOf(f.notices), f.rev.value, g.rev.value);
  }

  // ---- what fails falls to the ladder ---------------------------------------------------------------------

  /** Over every run, a call that failed or did not answer the topic leaves it to the ladder: a gap poll, and a
      subscribe call that was to refresh it, whose held pushes the ladder's poll makes up for. */
  lemma FailuresFallBehind(pass: Filters, states: seq<System>, steps: seq<Step>, n: nat)
    requires Run(pass, states, steps) && n < |steps| && Enabled(pass, states[n], steps[n])
    ensures var f, g := states[n].client, states[n + 1].client;
            && (steps[n].PollFails? && f.sent[steps[n].index].gap ==> g.behind && !g.gapInFlight && g.gapRev.None?)
            && (steps[n].PollFails? && !f.sent[steps[n].index].gap ==> g == f)
            && (steps[n].SubscribeFails? && f.refreshing ==> g.behind && !g.refreshing && g.pending == [])
            && (steps[n].SubscribeFails? && !f.refreshing ==> g == f)
            && (steps[n].PollFails? || steps[n].SubscribeFails? ==> g.rev == f.rev && g.notices == f.notices)
  {
    assert Moves(pass, states, steps[n], n);
  }

  /** Over every run, `refresh()` of an answered topic holds its pushes and asks the server, over the socket or by the
      ladder; before the first answer it is remembered. */
  lemma RefreshAsks(pass: Filters, states: seq<System>, steps: seq<Step>, n: nat)
    requires Run(pass, states, steps) && n < |steps| && steps[n].Refresh?
    ensures var f, g := states[n].client, states[n + 1].client;
            && g.rev == f.rev && g.notices == f.notices && g.pending == f.pending
            && (f.rev.None? ==> g.refreshOnAnswer)
            && (f.rev.Some? ==> g.refreshing)
            && (f.rev.Some? ==> if steps[n].link.peerOpen then g.subscribesSent == f.subscribesSent + 1 else g.behind)
  {
    assert Moves(pass, states, steps[n], n);
  }

  // ---- answers in general ---------------------------------------------------------------------------------

  /** The held rev after an answer's events, whoever sent them, or None at the first one that cannot be read or that
      leaves a gap. */
  function HeldAfter(held: int, events: seq<WireEvent>): Option<int>
    decreases |events|
  {
    if events == [] then Some(held)
    else
      var before, e := HeldAfter(held, events[..|events| - 1]), events[|events| - 1];
      if before.None? || e.Malformed? then None
      else if e.prev == before.value || e.prev < before.value < e.rev then Some(e.rev)
      else if e.rev <= before.value then before
      else None
  }

  lemma {:induction false} ApplyAllHolds(f: Follower, events: seq<WireEvent>)
    requires f.rev.Some?
    ensures var (g, fine) := ApplyAll(f, events);
            && (fine <==> HeldAfter(f.rev.value, events).Some?) && (fine ==> g.rev == HeldAfter(f.rev.value, events))
            && OnlyDelivers(f, g)
    decreases |events|
  {
    if events != [] {
      ApplyAllHolds(f, events[..|events| - 1]);
    }
  }

  /** The answer has the client start over: it has no events for a client that is still at the poll's cursor or below
      the answer, its rev is below the cursor, or one of its events cannot be applied. */
  predicate StartsOver(f: Follower, cursor: Option<int>, a: TopicAnswer)
    requires f.rev.Some?
  {
    if a.events.None? then f.rev == cursor || f.rev.value < a.rev
    else (cursor.Some? && a.rev < cursor.value) || HeldAfter(f.rev.value, a.events.value).None?
  }

  /** What any answer does, right or wrong: the client starts over at the answer's rev, telling the handlers and
      dropping what it holds; or the handlers are only given events, and the held rev does not stay below the
      answer's. */
  lemma AnswerExactly(f: Follower, cursor: Option<int>, a: TopicAnswer)
    requires f.rev.Some?
    ensures var (g, outcome) := ApplyAnswer(f, cursor, a);
            && (StartsOver(f, cursor, a) ==>
                  && g.rev == Some(a.rev) && g.pending == [] && g.notices != []
                  && g.notices[|g.notices| - 1] == Resynced(a.rev) && OnlyDelivers(f, g.(notices := g.notices[..|g.notices| - 1]))
                  && (outcome == Moved <==> a.rev != f.rev.value || a.events.Some?))
            && (!StartsOver(f, cursor, a) ==>
                  && OnlyDelivers(f, g) && g.pending == f.pending && (outcome == Moved <==> g.rev != f.rev)
                  && g.rev == Some(if a.events.None? then f.rev.value
                                   else Max(HeldAfter(f.rev.value, a.events.value).value, a.rev)))
            && outcome != Unanswered
  {
    if a.events.Some? {
      ApplyAllHolds(f, a.events.value);
      ApplyAllKeepsHeld(f, a.events.value);
    }
  }

  /** Over every run, a subscribe answer for a topic that has a rev and is not refreshed: at or below the held rev it
      says that nothing was missed, above it the client polls. */
  lemma SubscribeChecks(pass: Filters, states: seq<System>, steps: seq<Step>, n: nat)
    requires Run(pass, states, steps) && n < |steps| && steps[n].SubscribeArrives? && AnsweredRev(states[n], steps[n]).Some?
    requires states[n].client.rev.Some? && !states[n].client.refreshing
    ensures var f, g, rev := states[n].client, states[n + 1].client, AnsweredRev(states[n], steps[n]).value;
            && g.rev == f.rev && g.notices == f.notices && !g.refreshing
            && (rev <= f.rev.value ==> g == f.(behind := false))
            && (f.rev.value < rev && Usable(steps[n].link) ==> g.gapInFlight)
  {
    assert Moves(pass, states, steps[n], n);
  }

  /** Over every run, a topic that a poll answered is not behind any more, unless the answer was its first and starts a
      refresh. */
  lemma AnsweredIsNotBehind(pass: Filters, states: seq<System>, steps: seq<Step>, n: nat)
    requires Run(pass, states, steps) && n < |steps| && steps[n].PollArrives? && Enabled(pass, states[n], steps[n])
    ensures states[n + 1].client.behind ==> states[n].client.rev.None? && states[n].client.refreshOnAnswer
  {
    assert Moves(pass, states, steps[n], n);
    var p, a := states[n].client.sent[steps[n].index], states[n].polls[steps[n].index].answer;
    EntryClearsBehind(Begun(states[n].client, p), p.cursor, a, steps[n].link);
    PollAgainOnlySends(TakeEntry(Begun(states[n].client, p), p.cursor, Entry(a), steps[n].link).0, steps[n].link);
    BegunTaken(states[n].client, p, a, steps[n].link);
  }

  lemma BegunTaken(f: Follower, p: Poll, a: TopicAnswer, link: Link)
    ensures var k := TakeEntry(Begun(f, p), p.cursor, Entry(a), link).0;
            PollAnswerTaken(f, p, Entry(a), link) == if p.gap then PollAgain(k, link) else k
  {
  }

  lemma EntryClearsBehind(f: Follower, cursor: Option<int>, a: TopicAnswer, link: Link)
    requires !f.behind
    ensures TakeEntry(f, cursor, Entry(a), link).0.behind ==> f.rev.None? && f.refreshOnAnswer
  {
    if f.rev.None? {
      ReplayKeepsHeld(Started(f, a.rev), f.pending, link);
    } else {
      if a.events.Some? {
        ApplyAllKeepsHeld(f, a.events.value);
      }
      var g := ApplyAnswer(f, cursor, a).0;
      if g.refreshing {
        ReplayKeepsHeld(g.(refreshing := false, pending := []), g.pending, link);
      }
    }
  }
}
