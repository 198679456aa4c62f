/** Event following end to end: one topic, its store, the server's subscription and polls, and one client,
    with messages that arrive in any order, late, twice or not at all. */
module EventProtocol {
  import opened Basics
  import opened EventLog
  import opened EventPoll
  import opened EventClient
  import opened EventDelivery

  /** A poll the client sent, as far as it got: on its way, its topic's rev read, its answer on its way. */
  datatype PollCall = Sent | RevRead(rev: int) | Served(answer: TopicAnswer) | Over

  /** A `subscribe` call: on its way, the subscription registered, the rev read and answered. */
  datatype SubscribeCall = Asked | Registered | RevSent(rev: int) | Finished

  /** `published` are the revs given to the delivery, `missed` those given while no subscription was
      registered, `covered` the rev of the last subscribe answer that arrived over the open socket. */
  datatype System = System(
    hist: History, kept: nat, published: set<int>, missed: set<int>, registered: bool,
    client: Follower, polls: seq<PollCall>, subscribes: seq<SubscribeCall>, covered: Option<int>)

  const INITIAL := System([], 0, {}, {}, false, NEW_FOLLOWER, [], [], None)

  datatype Step =
    | Append(event: LoggedEvent)
    | Trim(kept: nat)
    | Publish(index: nat)
    | Push(index: nat, link: Link)
    | AskSubscribe
    | Register(index: nat)
    | ReadSubscribed(index: nat)
    | SubscribeArrives(index: nat, link: Link)
    | SubscribeFails(index: nat)
    | Disconnect
    | Refresh(link: Link)
    | SendPoll
    | ReadRev(index: nat)
    | Serve(index: nat, answer: TopicAnswer)
    | PollArrives(index: nat, link: Link)
    | PollFails(index: nat, link: Link)

  function CursorOf(p: Poll): int {
    if p.cursor.Some? then p.cursor.value else 0
  }

  /** The polls the client has sent since are on their way. */
  function Sync(s: System, client: Follower): System {
    s.(client := client,
       polls := s.polls +
         if |client.sent| > |s.polls| then seq(|client.sent| - |s.polls|, _ => Sent) else [])
  }

  function PollAnswerTaken(f: Follower, p: Poll, entry: Entry, link: Link): Follower {
    if p.gap then GapPollAnswered(f, p.cursor, entry, link) else TakeEntry(f, p.cursor, entry, link).0
  }

  ghost predicate Enabled(pass: Filters, s: System, step: Step) {
    match step
    case Append(e) => e.prev == LastRev(s.hist) && e.prev < e.rev < MAX_REV
    case Trim(kept) => s.kept <= kept <= |s.hist|
    case Publish(i) => i < |s.hist| && s.hist[i].rev !in s.published
    case Push(i, _) =>
      i < |s.hist| && s.hist[i].rev in s.published && s.hist[i].rev !in s.missed && pass(s.hist[i])
    case AskSubscribe => true
    case Register(i) => i < |s.subscribes| && s.subscribes[i] == Asked
    case ReadSubscribed(i) => i < |s.subscribes| && s.subscribes[i] == Registered
    case SubscribeArrives(i, _) => i < |s.subscribes| && s.subscribes[i].RevSent?
    case SubscribeFails(i) => i < |s.subscribes| && s.subscribes[i] != Finished
    case Disconnect => true
    case Refresh(_) => true
    case SendPoll => true
    case ReadRev(i) => i < |s.polls| && s.polls[i] == Sent && i < |s.client.sent|
    case Serve(i, a) =>
      && i < |s.polls| && s.polls[i].RevRead? && i < |s.client.sent|
      && var cursor := s.client.sent[i].cursor;
         Answers(cursor, s.polls[i].rev, SinceAnswer(s.hist, s.kept, CursorOf(s.client.sent[i])), pass, a)
    case PollArrives(i, _) => i < |s.polls| && s.polls[i].Served? && i < |s.client.sent|
    case PollFails(i, _) => i < |s.polls| && !s.polls[i].Over? && i < |s.client.sent|
  }

  ghost function Next(pass: Filters, s: System, step: Step): System
    requires Enabled(pass, s, step)
  {
    match step
    case Append(e) => s.(hist := s.hist + [e])
    case Trim(kept) => s.(kept := kept)
    case Publish(i) =>
      var rev := s.hist[i].rev;
      s.(published := s.published + {rev}, missed := if s.registered then s.missed else s.missed + {rev})
    case Push(i, link) => Sync(s, ReceivePush(s.client, PushedForm(s.hist[i]), link))
    case AskSubscribe => s.(subscribes := s.subscribes + [Asked])
    case Register(i) => s.(subscribes := s.subscribes[i := Registered], registered := true)
    case ReadSubscribed(i) => s.(subscribes := s.subscribes[i := RevSent(LastRev(s.hist))])
    case SubscribeArrives(i, link) =>
      var rev := s.subscribes[i].rev;
      Sync(s.(subscribes := s.subscribes[i := Finished], covered := Some(rev)),
           SubscribeAnswered(s.client, rev, link))
    case SubscribeFails(i) =>
      Sync(s.(subscribes := s.subscribes[i := Finished]), SubscribeFailed(s.client))
    case Disconnect =>
      s.(registered := false, covered := None, subscribes := seq(|s.subscribes|, _ => Finished))
    case Refresh(link) => Sync(s, StartRefresh(s.client, link))
    case SendPoll => Sync(s, s.client.(sent := s.client.sent + [Poll(s.client.rev, false)]))
    case ReadRev(i) => s.(polls := s.polls[i := RevRead(LastRev(s.hist))])
    case Serve(i, a) => s.(polls := s.polls[i := Served(a)])
    case PollArrives(i, link) =>
      Sync(s.(polls := s.polls[i := Over]),
           PollAnswerTaken(s.client, s.client.sent[i], Entry(s.polls[i].answer), link))
    case PollFails(i, link) =>
      Sync(s.(polls := s.polls[i := Over]), PollAnswerTaken(s.client, s.client.sent[i], NoEntry, link))
  }

  function PushedForm(e: LoggedEvent): WireEvent {
    Wire(e.rev, e.prev, e.name, e.payload, e.version)
  }

  // ---- the invariant ------------------------------------------------------------------------------

  ghost predicate PollOk(h: History, pass: Filters, p: Poll, call: PollCall) {
    match call
    case RevRead(rev) => Known(h, rev) && (p.cursor.Some? ==> p.cursor.value <= rev)
    case Served(a) => AnswerOk(h, pass, p.cursor, a)
    case _ => true
  }

  ghost predicate PollsOk(h: History, pass: Filters, sent: seq<Poll>, polls: seq<PollCall>) {
    |sent| == |polls| && forall i | 0 <= i < |sent| :: PollOk(h, pass, sent[i], polls[i])
  }

  ghost predicate SubscribesOk(h: History, subscribes: seq<SubscribeCall>) {
    forall i | 0 <= i < |subscribes| :: subscribes[i].RevSent? ==> Known(h, subscribes[i].rev)
  }

  ghost predicate Inv(pass: Filters, s: System) {
    && Chain(s.hist) && s.kept <= |s.hist|
    && FollowerOk(s.hist, pass, s.client)
    && PollsOk(s.hist, pass, s.client.sent, s.polls)
    && SubscribesOk(s.hist, s.subscribes)
  }

  lemma InitialInv(pass: Filters)
    ensures Inv(pass, INITIAL)
  {
  }

  lemma SyncKeeps(pass: Filters, s: System, client: Follower)
    requires Inv(pass, s) && Advances(s.hist, pass, s.client, client)
    ensures Inv(pass, Sync(s, client))
  {
    var t := Sync(s, client);
    assert |t.polls| == |client.sent|;
    forall i | 0 <= i < |t.polls|
      ensures PollOk(t.hist, pass, client.sent[i], t.polls[i])
    {
      if i < |s.polls| {
        assert client.sent[i] == s.client.sent[i];
        assert PollOk(s.hist, pass, s.client.sent[i], s.polls[i]);
      }
    }
  }

  lemma AppendKeeps(pass: Filters, s: System, e: LoggedEvent)
    requires Inv(pass, s) && Enabled(pass, s, Append(e))
    ensures Inv(pass, Next(pass, s, Append(e)))
  {
    var h := s.hist + [e];
    ChainAppend(s.hist, e);
    FaithfulAppend(s.hist, pass, s.client, e);
    forall i | 0 <= i < |s.polls|
      ensures PollOk(h, pass, s.client.sent[i], s.polls[i])
    {
      assert PollOk(s.hist, pass, s.client.sent[i], s.polls[i]);
      match s.polls[i]
      case RevRead(rev) => KnownAppend(s.hist, e, rev);
      case Served(a) => AnswerAppend(s.hist, pass, s.client.sent[i].cursor, a, e);
      case _ =>
    }
    forall i | 0 <= i < |s.subscribes| && s.subscribes[i].RevSent?
      ensures Known(h, s.subscribes[i].rev)
    {
      KnownAppend(s.hist, e, s.subscribes[i].rev);
    }
  }

  /** The server's answer to a poll is right, whatever was appended or trimmed between its two reads. */
  lemma ServedOk(h: History, kept: nat, pass: Filters, cursor: Option<int>, rev: int, a: TopicAnswer)
    requires Chain(h) && Known(h, rev) && (cursor.Some? ==> Known(h, cursor.value) && cursor.value <= rev)
    requires Answers(cursor, rev, SinceAnswer(h, kept, if cursor.Some? then cursor.value else 0), pass, a)
    ensures AnswerOk(h, pass, cursor, a)
  {
    if cursor.Some? {
      if cursor.value == rev {
        BetweenEmpty(h, pass, rev, rev);
      } else {
        KnownBounds(h, rev);
        if SinceAnswer(h, kept, cursor.value).Some? {
          var i :| kept <= i < |h| && h[i].prev == cursor.value;
          AfterIsSuffix(h, i);
          SuffixServedOk(h, i, pass, rev, a);
        }
      }
    }
  }

  lemma SuffixServedOk(h: History, i: nat, pass: Filters, rev: int, a: TopicAnswer)
    requires Chain(h) && i < |h| && h[i].prev < rev <= LastRev(h)
    requires Answers(Some(h[i].prev), rev, Some(h[i..]), pass, a)
    ensures AnswerOk(h, pass, Some(h[i].prev), a)
  {
    SuffixEnds(h, i);
    SuffixAnswers(h, i, pass, LastRev(h));
    assert a.rev == LastRev(h);
  }

  /** What is visible above an event's `prev` is what is visible in the history from that event on. */
  lemma SuffixAnswers(h: History, i: nat, pass: Filters, hi: int)
    requires Chain(h) && i < |h|
    ensures Between(h[i..], pass, h[i].prev, hi) == Between(h, pass, h[i].prev, hi)
  {
    BelowPrev(h, i);
    DropBelow(h[..i], h[i..], pass, h[i].prev, hi);
    Rejoin(h, i);
  }

  lemma SuffixEnds(h: History, i: nat)
    requires Chain(h) && i < |h|
    ensures h[i].prev < LastRev(h) == LastRev(h[i..]) && Known(h, LastRev(h))
  {
    RevBounds(h, i);
    LastIsKnown(h);
  }

  lemma DropBelow(a: History, b: History, pass: Filters, lo: int, hi: int)
    requires forall e | e in a :: e.rev <= lo
    ensures Between(a + b, pass, lo, hi) == Between(b, pass, lo, hi)
  {
    BetweenConcat(a, b, pass, lo, hi);
    BetweenNone(a, pass, lo, hi);
  }

  lemma ReadKeeps(pass: Filters, s: System, i: nat)
    requires Inv(pass, s) && Enabled(pass, s, ReadRev(i))
    ensures Inv(pass, Next(pass, s, ReadRev(i)))
  {
    var p := s.client.sent[i];
    assert CursorOk(s.hist, s.client, p);
    if p.cursor.Some? {
      KnownBounds(s.hist, p.cursor.value);
    }
    LastIsKnown(s.hist);
  }

  lemma ServeKeeps(pass: Filters, s: System, i: nat, a: TopicAnswer)
    requires Inv(pass, s) && Enabled(pass, s, Serve(i, a))
    ensures Inv(pass, Next(pass, s, Serve(i, a)))
  {
    var p := s.client.sent[i];
    assert PollOk(s.hist, pass, p, s.polls[i]);
    assert CursorOk(s.hist, s.client, p);
    ServedOk(s.hist, s.kept, pass, p.cursor, s.polls[i].rev, a);
  }

  // ---- what the client does -------------------------------------------------------------------------

  lemma FlagsKeep(h: History, pass: Filters, f: Follower, g: Follower)
    requires FollowerOk(h, pass, f)
    requires g == f.(gapInFlight := g.gapInFlight, gapRev := g.gapRev, behind := g.behind)
    ensures Advances(h, pass, f, g)
  {
    assert forall p | p in g.sent :: CursorOk(h, f, p);
  }

  lemma PollAgainKeeps(h: History, pass: Filters, f: Follower, link: Link)
    requires FollowerOk(h, pass, f)
    ensures Advances(h, pass, f, PollAgain(f, link))
  {
    var g := f.(gapRev := None);
    FlagsKeep(h, pass, f, g);
    if f.gapRev.Some? && f.rev.Some? && f.rev.value < f.gapRev.value {
      SendKeeps(h, pass, g, f.gapRev.value, link);
      AdvancesTransitive(h, pass, f, g, PollAgain(f, link));
    }
  }

  lemma SubscribeKeeps(h: History, pass: Filters, f: Follower, rev: int, link: Link)
    requires Chain(h) && FollowerOk(h, pass, f) && Known(h, rev)
    ensures Advances(h, pass, f, SubscribeAnswered(f, rev, link))
  {
    if f.rev.None? {
      FollowKeeps(h, pass, f, rev, link);
    } else {
      var g := if rev > f.rev.value then SendGapPoll(f, rev, link) else f.(behind := false);
      if rev > f.rev.value {
        SendKeeps(h, pass, f, rev, link);
      } else {
        FlagsKeep(h, pass, f, g);
      }
      FinishKeeps(h, pass, g, link);
      AdvancesTransitive(h, pass, f, g, SubscribeAnswered(f, rev, link));
    }
  }

  lemma SubscribeFailedKeeps(h: History, pass: Filters, f: Follower)
    requires FollowerOk(h, pass, f)
    ensures Advances(h, pass, f, SubscribeFailed(f))
  {
    assert forall p | p in f.sent :: CursorOk(h, f, p);
  }

  /** The answer to a poll sent before the topic had a rev, arriving after it got one, with a visible event
      between the two. */
  ghost predicate SkipsEvents(h: History, pass: Filters, f: Follower, cursor: Option<int>, a: TopicAnswer) {
    cursor.None? && f.rev.Some? && f.rev.value < a.rev && Between(h, pass, f.rev.value, a.rev) != []
  }

  lemma EntryKeeps(h: History, pass: Filters, f: Follower, p: Poll, a: TopicAnswer, link: Link)
    requires Chain(h) && FollowerOk(h, pass, f) && CursorOk(h, f, p) && AnswerOk(h, pass, p.cursor, a)
    requires !SkipsEvents(h, pass, f, p.cursor, a)
    ensures var g := TakeEntry(f, p.cursor, Entry(a), link).0;
            Advances(h, pass, f, g) && g.rev.Some? && g.rev.value >= a.rev
  {
    var g := f.(behind := false);
    FlagsKeep(h, pass, f, g);
    var k := TakeEntry(f, p.cursor, Entry(a), link).0;
    if f.rev.None? {
      FollowKeeps(h, pass, g, a.rev, link);
      AdvancesTransitive(h, pass, f, g, k);
    } else {
      var r := ApplyAnswer(g, p.cursor, a).0;
      if p.cursor.Some? {
        AnswerKeeps(h, pass, g, p.cursor.value, a);
      } else {
        NullAnswerExactly(h, pass, g, a);
      }
      FinishKeeps(h, pass, r, link);
      AdvancesTransitive(h, pass, f, g, r);
      AdvancesTransitive(h, pass, f, r, k);
    }
  }

  lemma PollTakenKeeps(h: History, pass: Filters, f: Follower, p: Poll, entry: Entry, link: Link)
    requires Chain(h) && FollowerOk(h, pass, f) && CursorOk(h, f, p)
    requires entry.Entry? ==>
      AnswerOk(h, pass, p.cursor, entry.answer) && !SkipsEvents(h, pass, f, p.cursor, entry.answer)
    ensures var g := PollAnswerTaken(f, p, entry, link);
            Advances(h, pass, f, g) && (entry.Entry? ==> g.rev.Some? && g.rev.value >= entry.answer.rev)
  {
    if !p.gap {
      TakenKeeps(h, pass, f, p, entry, link);
    } else {
      var start := f.(gapInFlight := false);
      FlagsKeep(h, pass, f, start);
      var g := TakeEntry(start, p.cursor, entry, link).0;
      TakenKeeps(h, pass, start, p, entry, link);
      AdvancesTransitive(h, pass, f, start, g);
      if entry.Entry? {
        PollAgainKeeps(h, pass, g, link);
      } else {
        FlagsKeep(h, pass, g, DropBehind(g));
      }
      AdvancesTransitive(h, pass, f, g, PollAnswerTaken(f, p, entry, link));
    }
  }

  lemma TakenKeeps(h: History, pass: Filters, f: Follower, p: Poll, entry: Entry, link: Link)
    requires Chain(h) && FollowerOk(h, pass, f) && CursorOk(h, f, p)
    requires entry.Entry? ==>
      AnswerOk(h, pass, p.cursor, entry.answer) && !SkipsEvents(h, pass, f, p.cursor, entry.answer)
    ensures var g := TakeEntry(f, p.cursor, entry, link).0;
            Advances(h, pass, f, g) && (entry.Entry? ==> g.rev.Some? && g.rev.value >= entry.answer.rev)
  {
    if entry.Entry? {
      EntryKeeps(h, pass, f, p, entry.answer, link);
    } else {
      FlagsKeep(h, pass, f, f);
    }
  }

  lemma SendPollKeeps(h: History, pass: Filters, f: Follower)
    requires FollowerOk(h, pass, f)
    ensures Advances(h, pass, f, f.(sent := f.sent + [Poll(f.rev, false)]))
  {
    var g := f.(sent := f.sent + [Poll(f.rev, false)]);
    forall p | p in g.sent
      ensures CursorOk(h, g, p)
    {
      if p in f.sent {
        assert CursorOk(h, f, p);
      }
    }
  }

  // ---- the hypothesis is exact ------------------------------------------------------------------------

  /** Fewer events were delivered than are visible up to the held rev. */
  ghost predicate Short(h: History, pass: Filters, f: Follower) {
    && f.rev.Some? && BaseOf(f.notices) <= f.rev.value
    && |DeliveredSince(f.notices)| < |Between(h, pass, BaseOf(f.notices), f.rev.value)|
  }

  lemma DeliveryLeavesShort(h: History, pass: Filters, f: Follower, i: nat)
    requires Chain(h) && Short(h, pass, f) && i < |h| && pass(h[i]) && f.rev.Some? && f.rev.value == h[i].prev
    ensures Short(h, pass, ApplyTo(f, PushedForm(h[i])).0)
  {
    var base, g := BaseOf(f.notices), ApplyTo(f, PushedForm(h[i])).0;
    RevBounds(h, i);
    BetweenOne(h, pass, i);
    ChainIncreases(h);
    BetweenSplit(h, pass, base, h[i].prev, h[i].rev);
    assert g.notices[..|f.notices|] == f.notices;
    assert BaseOf(g.notices) == base && |DeliveredSince(g.notices)| == |DeliveredSince(f.notices)| + 1;
  }

  lemma PushLeavesShort(h: History, pass: Filters, f: Follower, a: WireEvent, link: Link)
    requires Chain(h) && Short(h, pass, f) && PushOf(h, pass, a)
    ensures Short(h, pass, ReceivePush(f, a, link))
  {
    if !f.refreshing && a.prev == f.rev.value {
      var i :| 0 <= i < |h| && pass(h[i]) && a == Wire(h[i].rev, h[i].prev, h[i].name, h[i].payload, h[i].version);
      DeliveryLeavesShort(h, pass, f, i);
    }
  }

  lemma {:induction false} ReplayLeavesShort(h: History, pass: Filters, f: Follower, arrivals: seq<WireEvent>, link: Link)
    requires Chain(h) && Short(h, pass, f) && AllPushes(h, pass, arrivals)
    ensures Short(h, pass, ReceiveAll(f, arrivals, link))
    decreases |arrivals|
  {
    if arrivals != [] {
      var n := |arrivals| - 1;
      ReplayLeavesShort(h, pass, f, arrivals[..n], link);
      PushLeavesShort(h, pass, ReceiveAll(f, arrivals[..n], link), arrivals[n], link);
    }
  }

  lemma RaiseIsShort(h: History, pass: Filters, f: Follower, rev: int)
    requires Chain(h) && Faithful(h, pass, f) && f.rev.Some? && f.rev.value < rev
    requires Between(h, pass, f.rev.value, rev) != []
    ensures Short(h, pass, f.(rev := Some(rev)))
  {
    ChainIncreases(h);
    BetweenSplit(h, pass, BaseOf(f.notices), f.rev.value, rev);
  }

  lemma FinishLeavesShort(h: History, pass: Filters, f: Follower, link: Link)
    requires Chain(h) && Short(h, pass, f) && AllPushes(h, pass, f.pending)
    ensures Short(h, pass, FinishRefresh(f, link))
  {
    if f.refreshing {
      ReplayLeavesShort(h, pass, f.(refreshing := false, pending := []), f.pending, link);
    }
  }

  lemma SkipLosesEvents(h: History, pass: Filters, f: Follower, p: Poll, a: TopicAnswer, link: Link)
    requires Chain(h) && FollowerOk(h, pass, f) && AnswerOk(h, pass, p.cursor, a)
    requires SkipsEvents(h, pass, f, p.cursor, a)
    ensures Short(h, pass, PollAnswerTaken(f, p, Entry(a), link))
  {
    var start := f.(gapInFlight := if p.gap then false else f.gapInFlight, behind := false);
    RaiseIsShort(h, pass, start, a.rev);
    var g := start.(rev := Some(a.rev));
    FinishLeavesShort(h, pass, g, link);
    PollAgainLeavesShort(h, pass, FinishRefresh(g, link), link);
    SkipTaken(f, p, a, link);
  }

  lemma PollAgainLeavesShort(h: History, pass: Filters, f: Follower, link: Link)
    requires Short(h, pass, f)
    ensures Short(h, pass, PollAgain(f, link))
  {
  }

  lemma SkipTaken(f: Follower, p: Poll, a: TopicAnswer, link: Link)
    requires f.rev.Some? && p.cursor.None? && f.rev.value < a.rev && a.events == Some([])
    ensures var g := f.(gapInFlight := if p.gap then false else f.gapInFlight, behind := false, rev := Some(a.rev));
            var k := FinishRefresh(g, link);
            PollAnswerTaken(f, p, Entry(a), link) == if p.gap then PollAgain(k, link) else k
  {
  }

  // ---- every run --------------------------------------------------------------------------------------

  /** The step delivers an answer that skips events. */
  ghost predicate Skips(pass: Filters, s: System, step: Step) {
    && step.PollArrives? && Enabled(pass, s, step)
    && SkipsEvents(s.hist, pass, s.client, s.client.sent[step.index].cursor, s.polls[step.index].answer)
  }

  lemma PollStepKeeps(pass: Filters, s: System, i: nat, entry: Entry, link: Link)
    requires Inv(pass, s) && i < |s.polls|
    requires entry.Entry? ==> s.polls[i] == Served(entry.answer) && !Skips(pass, s, PollArrives(i, link))
    ensures var g := PollAnswerTaken(s.client, s.client.sent[i], entry, link);
            && Advances(s.hist, pass, s.client, g) && Inv(pass, Sync(s.(polls := s.polls[i := Over]), g))
            && (entry.Entry? ==> g.rev.Some? && g.rev.value >= entry.answer.rev)
  {
    var p := s.client.sent[i];
    assert CursorOk(s.hist, s.client, p);
    assert PollOk(s.hist, pass, p, s.polls[i]);
    PollTakenKeeps(s.hist, pass, s.client, p, entry, link);
    SyncKeeps(pass, s.(polls := s.polls[i := Over]), PollAnswerTaken(s.client, p, entry, link));
  }

  lemma PushStepKeeps(pass: Filters, s: System, i: nat, link: Link)
    requires Inv(pass, s) && Enabled(pass, s, Push(i, link))
    ensures Advances(s.hist, pass, s.client, Next(pass, s, Push(i, link)).client)
    ensures Inv(pass, Next(pass, s, Push(i, link)))
  {
    PushKeeps(s.hist, pass, s.client, PushedForm(s.hist[i]), link);
    SyncKeeps(pass, s, ReceivePush(s.client, PushedForm(s.hist[i]), link));
  }

  lemma SubscribeStepKeeps(pass: Filters, s: System, step: Step)
    requires Inv(pass, s) && Enabled(pass, s, step)
    requires step.AskSubscribe? || step.Register? || step.ReadSubscribed? || step.SubscribeArrives? ||
             step.SubscribeFails? || step.Disconnect?
    ensures Inv(pass, Next(pass, s, step)) && Advances(s.hist, pass, s.client, Next(pass, s, step).client)
  {
    FlagsKeep(s.hist, pass, s.client, s.client);
    match step
    case SubscribeArrives(i, link) =>
      var rev := s.subscribes[i].rev;
      SubscribeKeeps(s.hist, pass, s.client, rev, link);
      SyncKeeps(pass, s.(subscribes := s.subscribes[i := Finished], covered := Some(rev)),
                SubscribeAnswered(s.client, rev, link));
    case SubscribeFails(i) =>
      SubscribeFailedKeeps(s.hist, pass, s.client);
      SyncKeeps(pass, s.(subscribes := s.subscribes[i := Finished]), SubscribeFailed(s.client));
    case ReadSubscribed(_) => LastIsKnown(s.hist);
    case _ =>
  }

  /** Every step keeps the invariant and only moves the held rev up, unless it delivers an answer that skips
      events; that one leaves the handlers short of events they are never told about. */
  lemma StepKeeps(pass: Filters, s: System, step: Step)
    requires Inv(pass, s) && Enabled(pass, s, step)
    ensures Skips(pass, s, step) ==> Short(s.hist, pass, Next(pass, s, step).client)
    ensures !Skips(pass, s, step) ==> Inv(pass, Next(pass, s, step))
    ensures !Skips(pass, s, step) && s.client.rev.Some? ==>
      var t := Next(pass, s, step).client;
      t.rev.Some? && s.client.rev.value <= t.rev.value && s.client.sent <= t.sent
  {
    match step
    case Append(e) => AppendKeeps(pass, s, e);
    case Push(i, link) => PushStepKeeps(pass, s, i, link);
    case Refresh(link) =>
      RefreshKeeps(s.hist, pass, s.client, link);
      SyncKeeps(pass, s, StartRefresh(s.client, link));
    case SendPoll =>
      SendPollKeeps(s.hist, pass, s.client);
      SyncKeeps(pass, s, s.client.(sent := s.client.sent + [Poll(s.client.rev, false)]));
    case ReadRev(i) => ReadKeeps(pass, s, i);
    case Serve(i, a) => ServeKeeps(pass, s, i, a);
    case PollArrives(i, link) => ArrivalKeeps(pass, s, i, link);
    case PollFails(i, link) => PollStepKeeps(pass, s, i, NoEntry, link);
    case Trim(_) =>
    case Publish(_) =>
    case _ => SubscribeStepKeeps(pass, s, step);
  }

  lemma ArrivalKeeps(pass: Filters, s: System, i: nat, link: Link)
    requires Inv(pass, s) && Enabled(pass, s, PollArrives(i, link))
    ensures var step := PollArrives(i, link);
            var t := Next(pass, s, step);
            if Skips(pass, s, step) then Short(s.hist, pass, t.client)
            else Inv(pass, t) && Advances(s.hist, pass, s.client, t.client)
                 && t.client.rev.Some? && t.client.rev.value >= s.polls[i].answer.rev
  {
    var p, a := s.client.sent[i], s.polls[i].answer;
    assert PollOk(s.hist, pass, p, s.polls[i]);
    if Skips(pass, s, PollArrives(i, link)) {
      SkipLosesEvents(s.hist, pass, s.client, p, a, link);
    } else {
      PollStepKeeps(pass, s, i, Entry(a), link);
    }
  }

  /** A run from the start: the states it goes through and the steps between them. */
  ghost predicate Run(pass: Filters, states: seq<System>, steps: seq<Step>) {
    && |states| == |steps| + 1 && states[0] == INITIAL
    && forall i {:trigger Moves(pass, states, steps[i], i)} | 0 <= i < |steps| :: Moves(pass, states, steps[i], i)
  }

  ghost predicate Moves(pass: Filters, states: seq<System>, step: Step, i: nat)
    requires i + 1 < |states|
  {
    Enabled(pass, states[i], step) && states[i + 1] == Next(pass, states[i], step)
  }

  /** None of the first `n` steps delivers an answer that skips events. */
  ghost predicate NoneSkips(pass: Filters, states: seq<System>, steps: seq<Step>, n: nat)
    requires n <= |steps| <= |states|
  {
    forall i {:trigger Skips(pass, states[i], steps[i])} | 0 <= i < n :: !Skips(pass, states[i], steps[i])
  }

  lemma {:induction false} RunKeeps(pass: Filters, states: seq<System>, steps: seq<Step>, n: nat)
    requires Run(pass, states, steps) && n <= |steps|
    requires NoneSkips(pass, states, steps, n)
    ensures Inv(pass, states[n])
  {
    if n == 0 {
      InitialInv(pass);
    } else {
      RunKeeps(pass, states, steps, n - 1);
      assert Moves(pass, states, steps[n - 1], n - 1);
      StepKeeps(pass, states[n - 1], steps[n - 1]);
    }
  }

  /** Over every run: as long as no answer skips events, the handlers were given exactly the visible events
      above the last follow or resync up to the held rev, and none twice or out of order over all resyncs. */
  lemma NothingSkippedOrRepeated(pass: Filters, states: seq<System>, steps: seq<Step>, n: nat)
    requires Run(pass, states, steps) && n <= |steps|
    requires NoneSkips(pass, states, steps, n)
    ensures Faithful(states[n].hist, pass, states[n].client) && NeverRepeats(states[n].client)
    ensures states[n].client.rev.Some? ==> Known(states[n].hist, states[n].client.rev.value)
  {
    RunKeeps(pass, states, steps, n);
  }

  ghost predicate HeldUpTo(f: Follower, g: Follower) {
    f.rev.Some? ==> g.rev.Some? && f.rev.value <= g.rev.value
  }

  lemma {:induction false} HeldNeverFalls(pass: Filters, states: seq<System>, steps: seq<Step>, m: nat, n: nat)
    requires Run(pass, states, steps) && m <= n <= |steps|
    requires NoneSkips(pass, states, steps, n)
    ensures HeldUpTo(states[m].client, states[n].client)
    decreases n
  {
    if m < n {
      HeldNeverFalls(pass, states, steps, m, n - 1);
      RunKeeps(pass, states, steps, n - 1);
      assert Moves(pass, states, steps[n - 1], n - 1);
      StepKeeps(pass, states[n - 1], steps[n - 1]);
    }
  }

  /** The first answer that skips events is the first step after which the handlers are short of events. */
  lemma SkippedExactly(pass: Filters, states: seq<System>, steps: seq<Step>, n: nat)
    requires Run(pass, states, steps) && n < |steps|
    requires NoneSkips(pass, states, steps, n)
    ensures Faithful(states[n + 1].hist, pass, states[n + 1].client) <==> !Skips(pass, states[n], steps[n])
  {
    RunKeeps(pass, states, steps, n);
    assert Moves(pass, states, steps[n], n);
    StepKeeps(pass, states[n], steps[n]);
  }

  /** A poll whose answer arrives brings the client up to every event its topic had when the poll was read. */
  lemma PollCatchesUp(pass: Filters, states: seq<System>, steps: seq<Step>, n: nat)
    requires Run(pass, states, steps) && n < |steps| && steps[n].PollArrives?
    requires NoneSkips(pass, states, steps, n + 1)
    ensures var s, f := states[n], states[n + 1].client;
            && steps[n].index < |s.polls| && s.polls[steps[n].index].Served? && f.rev.Some?
            && f.rev.value >= s.polls[steps[n].index].answer.rev
            && DeliveredSince(f.notices) == Between(s.hist, pass, BaseOf(f.notices), f.rev.value)
  {
    RunKeeps(pass, states, steps, n);
    RunKeeps(pass, states, steps, n + 1);
    assert Moves(pass, states, steps[n], n);
    ArrivalKeeps(pass, states[n], steps[n].index, steps[n].link);
  }

  // ---- subscribing registers first and reads the rev then ---------------------------------------------

  ghost predicate AtMost(revs: set<int>, bound: int) {
    forall r | r in revs :: r <= bound
  }

  ghost predicate Coverage(s: System) {
    && (forall r | r in s.published :: Known(s.hist, r)) && s.missed <= s.published
    && (forall i | 0 <= i < |s.subscribes| && (s.subscribes[i].Registered? || s.subscribes[i].RevSent?) :: s.registered)
    && (forall i | 0 <= i < |s.subscribes| && s.subscribes[i].RevSent? :: AtMost(s.missed, s.subscribes[i].rev))
    && (s.covered.Some? ==> s.registered && AtMost(s.missed, s.covered.value))
  }

  lemma CoverageKept(pass: Filters, s: System, step: Step)
    requires Chain(s.hist) && Coverage(s) && Enabled(pass, s, step)
    ensures Coverage(Next(pass, s, step))
  {
    match step
    case Append(e) =>
      forall r | r in s.published
        ensures Known(s.hist + [e], r)
      {
        KnownAppend(s.hist, e, r);
      }
    case ReadSubscribed(_) =>
      forall r | r in s.published
        ensures r <= LastRev(s.hist)
      {
        KnownBounds(s.hist, r);
      }
    case _ =>
  }

  lemma {:induction false} RunCovers(pass: Filters, states: seq<System>, steps: seq<Step>, n: nat)
    requires Run(pass, states, steps) && n <= |steps|
    ensures Chain(states[n].hist) && Coverage(states[n])
  {
    if n > 0 {
      RunCovers(pass, states, steps, n - 1);
      assert Moves(pass, states, steps[n - 1], n - 1);
      CoverageKept(pass, states[n - 1], steps[n - 1]);
      if steps[n - 1].Append? {
        ChainAppend(states[n - 1].hist, steps[n - 1].event);
      }
    }
  }

  /** While the socket stays open, no event above an answered rev is missed: once published it is pushed when
      the filters let it through. */
  lemma SubscribeMissesNothing(pass: Filters, states: seq<System>, steps: seq<Step>, n: nat, i: nat, link: Link)
    requires Run(pass, states, steps) && n <= |steps| && states[n].covered.Some?
    requires i < |states[n].hist| && states[n].hist[i].rev > states[n].covered.value
    requires states[n].hist[i].rev in states[n].published && pass(states[n].hist[i])
    ensures Enabled(pass, states[n], Push(i, link))
  {
    RunCovers(pass, states, steps, n);
  }

  // ---- the hypothesis is needed -----------------------------------------------------------------------

  const LOST := LoggedEvent(1, 0, "changed", "", 1)

  /** The client sends a poll before it has a rev, the subscribe is answered with rev 0, an event is appended
      and the poll is served then. */
  function LossSteps(link: Link): seq<Step> {
    [SendPoll, AskSubscribe, Register(0), ReadSubscribed(0), SubscribeArrives(0, link), Append(LOST), ReadRev(0),
     Serve(0, TopicAnswer(1, Some([]))), PollArrives(0, link)]
  }

  function LossState(i: nat): System
    requires i < 10
  {
    var f := NEW_FOLLOWER.(sent := [Poll(None, false)]);
    var g := f.(rev := Some(0), notices := [Followed(0)]);
    if i == 0 then INITIAL
    else if i < 5 then
      System([], 0, {}, {}, i >= 3, f, [Sent],
             if i == 1 then [] else if i == 2 then [Asked] else if i == 3 then [Registered] else [RevSent(0)], None)
    else
      System(if i == 5 then [] else [LOST], 0, {}, {}, true, if i == 9 then g.(rev := Some(1)) else g,
             [if i < 7 then Sent else if i == 7 then RevRead(1)
              else if i == 8 then Served(TopicAnswer(1, Some([]))) else Over], [Finished], Some(0))
  }

  lemma LossBegins(pass: Filters, link: Link, i: nat)
    requires i < 4
    ensures Enabled(pass, LossState(i), LossSteps(link)[i])
    ensures Next(pass, LossState(i), LossSteps(link)[i]) == LossState(i + 1)
  {
    var t := Next(pass, LossState(i), LossSteps(link)[i]);
    assert t.polls == [Sent];
    assert t.subscribes == LossState(i + 1).subscribes;
  }

  lemma LossSubscribes(pass: Filters, link: Link)
    ensures Enabled(pass, LossState(4), LossSteps(link)[4])
    ensures Next(pass, LossState(4), LossSteps(link)[4]) == LossState(5)
  {
    var t := Next(pass, LossState(4), LossSteps(link)[4]);
    assert t.polls == [Sent] && t.client.notices == [Followed(0)] && t.subscribes == [Finished];
  }

  lemma LossEnds(pass: Filters, link: Link, i: nat)
    requires 5 <= i < 9
    ensures Enabled(pass, LossState(i), LossSteps(link)[i])
    ensures Next(pass, LossState(i), LossSteps(link)[i]) == LossState(i + 1)
  {
    var t := Next(pass, LossState(i), LossSteps(link)[i]);
    assert t.polls == LossState(i + 1).polls;
    assert t.hist == [LOST];
  }

  lemma OnlyLost(pass: Filters)
    requires pass(LOST)
    ensures Between([LOST], pass, 0, 1) == [SeenOf(LOST)]
  {
    assert [LOST][..0] == [];
  }

  /** Such a run: the answer raises the held rev over the event, which no handler is told about. */
  lemma LateNullAnswerLosesAnEvent(pass: Filters, link: Link) returns (states: seq<System>)
    requires pass(LOST)
    ensures Run(pass, states, LossSteps(link)) && Skips(pass, states[8], PollArrives(0, link))
    ensures var f := states[9].client;
            && f.rev == Some(1) && f.notices == [Followed(0)] && f.pending == [] && !f.behind && !f.gapInFlight
            && Between(states[9].hist, pass, 0, 1) == [SeenOf(LOST)]
  {
    states := seq(10, i requires 0 <= i < 10 => LossState(i));
    var steps := LossSteps(link);
    forall i | 0 <= i < |steps|
      ensures Moves(pass, states, steps[i], i)
    {
      if i < 4 {
        LossBegins(pass, link, i);
      } else if i == 4 {
        LossSubscribes(pass, link);
      } else {
        LossEnds(pass, link, i);
      }
    }
    OnlyLost(pass);
    LossEnds(pass, link, 8);
  }
}
