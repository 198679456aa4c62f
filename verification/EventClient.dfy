/** The event client's rev rules for one followed topic under one scope key. */
module EventClient {
  import opened Basics
  import opened EventLog
  import opened EventPoll

  /** What the client calls on the topic's subscriptions. `prev` is the rev held before the event. */
  datatype Notice = Followed(rev: int) | Delivered(seen: Seen, prev: int) | Resynced(rev: int)

  /** A poll sent: the held rev it carries, and whether it answers a gap. */
  datatype Poll = Poll(cursor: Option<int>, gap: bool)

  /** The transports there are: an open peer, axios. */
  datatype Link = Link(peerOpen: bool, http: bool)

  /** What the client holds for the topic, what it has called, and the calls it has sent. */
  datatype Follower = Follower(
    rev: Option<int>, pending: seq<WireEvent>, gapInFlight: bool, gapRev: Option<int>, behind: bool,
    refreshing: bool, refreshOnAnswer: bool, notices: seq<Notice>, sent: seq<Poll>, subscribesSent: nat)

  const NEW_FOLLOWER := Follower(None, [], false, None, false, false, false, [], [], 0)

  datatype ApplyOutcome = Applied | Ignored | Gap

  datatype AnswerOutcome = Moved | Answered | Unanswered

  /** A topic's entry in a poll answer, or none: an error that does not refuse, no rev, no entry. */
  datatype Entry = NoEntry | Entry(answer: TopicAnswer)

  // ---- the rules as functions -----------------------------------------------------------------

  /** Applied when `prev` is the held rev, ignored at or below it, a gap otherwise. */
  function ApplyTo(f: Follower, a: WireEvent): (r: (Follower, ApplyOutcome))
    requires f.rev.Some? && a.Wire?
  {
    var held := f.rev.value;
    if a.prev == held then
      (f.(rev := Some(a.rev), notices := f.notices + [Delivered(Seen(a.rev, a.name, a.payload, a.version), a.prev)]),
       Applied)
    else (f, if a.rev <= held then Ignored else Gap)
  }

  /** The event with its `prev` raised to the held rev when it starts below and ends above it. */
  function Chained(a: WireEvent, held: int): WireEvent
    requires a.Wire?
  {
    if a.prev < held < a.rev then a.(prev := held) else a
  }

  function SendGapPoll(f: Follower, rev: int, link: Link): Follower {
    if f.gapInFlight then f.(gapRev := Some(if f.gapRev.Some? then Max(f.gapRev.value, rev) else rev))
    else if !link.peerOpen && !link.http then f
    else f.(gapInFlight := true, sent := f.sent + [Poll(f.rev, true)])
  }

  function StartRefresh(f: Follower, link: Link): Follower {
    if f.rev.None? then f.(refreshOnAnswer := true)
    else if link.peerOpen then f.(refreshing := true, subscribesSent := f.subscribesSent + 1)
    else f.(refreshing := true, behind := true)
  }

  function ReceivePush(f: Follower, a: WireEvent, link: Link): Follower {
    if a.Malformed? then f
    else if f.rev.None? || f.refreshing then f.(pending := f.pending + [a])
    else
      var (g, outcome) := ApplyTo(f, a);
      if outcome == Gap then SendGapPoll(g, a.rev, link) else g
  }

  function ReceiveAll(f: Follower, arrivals: seq<WireEvent>, link: Link): Follower
    decreases |arrivals|
  {
    if arrivals == [] then f
    else ReceivePush(ReceiveAll(f, arrivals[..|arrivals| - 1], link), arrivals[|arrivals| - 1], link)
  }

  function FollowFrom(f: Follower, rev: int, link: Link): Follower {
    var g := ReceiveAll(
      f.(rev := Some(rev), refreshing := false, pending := [], notices := f.notices + [Followed(rev)]), f.pending, link);
    var h := g.(refreshOnAnswer := false);
    if g.refreshOnAnswer && !g.refreshing then StartRefresh(h, link) else h
  }

  function ResyncTo(f: Follower, rev: int): Follower {
    f.(rev := Some(rev), pending := [], notices := f.notices + [Resynced(rev)])
  }

  function FinishRefresh(f: Follower, link: Link): Follower {
    if !f.refreshing then f else ReceiveAll(f.(refreshing := false, pending := []), f.pending, link)
  }

  /** The events of an answer applied in turn; whether all were applied or ignored. */
  function ApplyAll(f: Follower, events: seq<WireEvent>): (r: (Follower, bool))
    requires f.rev.Some?
    ensures r.0.rev.Some?
    decreases |events|
  {
    if events == [] then (f, true)
    else
      var (g, fine) := ApplyAll(f, events[..|events| - 1]);
      var e := events[|events| - 1];
      if !fine || e.Malformed? then (g, false)
      else
        var (h, outcome) := ApplyTo(g, Chained(e, g.rev.value));
        (h, outcome != Gap)
  }

  function ApplyAnswer(f: Follower, cursor: Option<int>, answer: TopicAnswer): (r: (Follower, AnswerOutcome))
    requires f.rev.Some?
    ensures r.0.rev.Some?
  {
    var held, rev := f.rev.value, answer.rev;
    if answer.events.None? then
      if f.rev != cursor && rev <= held then (f, Answered)
      else (ResyncTo(f, rev), if rev != held then Moved else Answered)
    else if cursor.Some? && rev < cursor.value then (ResyncTo(f, rev), Moved)
    else
      var (g, fine) := ApplyAll(f, answer.events.value);
      if !fine then (ResyncTo(g, rev), Moved)
      else
        var h := if rev > g.rev.value then g.(rev := Some(rev)) else g;
        (h, if h.rev != f.rev then Moved else Answered)
  }

  function TakeEntry(f: Follower, cursor: Option<int>, entry: Entry, link: Link): (r: (Follower, AnswerOutcome))
    ensures r.1 == Unanswered <==> entry.NoEntry?
  {
    if entry.NoEntry? then (f, Unanswered)
    else
      var g := f.(behind := false);
      if f.rev.None? then (FollowFrom(g, entry.answer.rev, link), Answered)
      else
        var (h, outcome) := ApplyAnswer(g, cursor, entry.answer);
        (FinishRefresh(h, link), outcome)
  }

  function DropBehind(f: Follower): Follower {
    f.(gapRev := None, behind := true)
  }

  function PollAgain(f: Follower, link: Link): Follower {
    var g := f.(gapRev := None);
    if f.gapRev.Some? && f.rev.Some? && f.rev.value < f.gapRev.value then SendGapPoll(g, f.gapRev.value, link) else g
  }

  /** The answer of a gap poll, or its failure without a refusal (no entry). */
  function GapPollAnswered(f: Follower, cursor: Option<int>, entry: Entry, link: Link): Follower {
    var (g, outcome) := TakeEntry(f.(gapInFlight := false), cursor, entry, link);
    if outcome == Unanswered then DropBehind(g) else PollAgain(g, link)
  }

  /** The answer of a `subscribe` call: the topic's first rev, or a check of the one held. */
  function SubscribeAnswered(f: Follower, rev: int, link: Link): Follower {
    if f.rev.None? then FollowFrom(f, rev, link)
    else FinishRefresh(if rev > f.rev.value then SendGapPoll(f, rev, link) else f.(behind := false), link)
  }

  /** A `subscribe` call that failed without refusing the topic. */
  function SubscribeFailed(f: Follower): Follower {
    if f.refreshing then f.(refreshing := false, pending := [], behind := true) else f
  }

  // ---- the client ---------------------------------------------------------------------------------

  /** The client's state of one topic. `notices` are the handler calls and `sent` the polls, in order. */
  class TopicState {
    var rev: Option<int>
    var pending: seq<WireEvent>
    var gapInFlight: bool
    var gapRev: Option<int>
    var behind: bool
    var refreshing: bool
    var refreshOnAnswer: bool
    var notices: seq<Notice>
    var sent: seq<Poll>
    var subscribesSent: nat

    function View(): Follower
      reads this
    {
      Follower(rev, pending, gapInFlight, gapRev, behind, refreshing, refreshOnAnswer, notices, sent, subscribesSent)
    }

    constructor ()
      ensures View() == NEW_FOLLOWER
    {
      rev, pending, gapInFlight, gapRev, behind := None, [], false, None, false;
      refreshing, refreshOnAnswer, notices, sent, subscribesSent := false, false, [], [], 0;
    }

    method Apply(arrival: WireEvent) returns (outcome: ApplyOutcome)
      requires rev.Some? && arrival.Wire?
      modifies this
      ensures (View(), outcome) == ApplyTo(old(View()), arrival)
    {
      var held := rev.value;
      if arrival.prev == held {
        rev := Some(arrival.rev);
        notices := notices +
          [Delivered(Seen(arrival.rev, arrival.name, arrival.payload, arrival.version), arrival.prev)];
        return Applied;
      }
      return if arrival.rev <= held then Ignored else Gap;
    }

    method GapPoll(wanted: int, link: Link)
      modifies this
      ensures View() == SendGapPoll(old(View()), wanted, link)
    {
      if gapInFlight {
        gapRev := Some(if gapRev.Some? then Max(gapRev.value, wanted) else wanted);
        return;
      }
      if !link.peerOpen && !link.http {
        return;
      }
      gapInFlight := true;
      sent := sent + [Poll(rev, true)];
    }

    /** `refresh()` of the topic. */
    method RefreshState(link: Link)
      modifies this
      ensures View() == StartRefresh(old(View()), link)
    {
      if rev.None? {
        refreshOnAnswer := true;
        return;
      }
      refreshing := true;
      if link.peerOpen {
        subscribesSent := subscribesSent + 1;
        return;
      }
      behind := true;
    }

    /** A pushed event. */
    method Receive(arrival: WireEvent, link: Link)
      modifies this
      ensures View() == ReceivePush(old(View()), arrival, link)
    {
      if arrival.Malformed? {
        return;
      }
      if rev.None? || refreshing {
        pending := pending + [arrival];
        return;
      }
      var outcome := Apply(arrival);
      if outcome == Gap {
        GapPoll(arrival.rev, link);
      }
    }

    method Replay(arrivals: seq<WireEvent>, link: Link)
      modifies this
      ensures View() == ReceiveAll(old(View()), arrivals, link)
    {
      for i := 0 to |arrivals|
        invariant View() == ReceiveAll(old(View()), arrivals[..i], link)
      {
        Receive(arrivals[i], link);
        assert arrivals[..i + 1][..i] == arrivals[..i];
      }
      assert arrivals[..|arrivals|] == arrivals;
    }

    method Follow(first: int, link: Link)
      modifies this
      ensures View() == FollowFrom(old(View()), first, link)
    {
      rev := Some(first);
      refreshing := false;
      var held := pending;
      pending := [];
      notices := notices + [Followed(first)];
      Replay(held, link);
      var refresh := refreshOnAnswer;
      refreshOnAnswer := false;
      if refresh && !refreshing {
        RefreshState(link);
      }
    }

    method Resync(to: int)
      modifies this
      ensures View() == ResyncTo(old(View()), to)
    {
      rev := Some(to);
      pending := [];
      notices := notices + [Resynced(to)];
    }

    method EndRefresh(link: Link)
      modifies this
      ensures View() == FinishRefresh(old(View()), link)
    {
      if !refreshing {
        return;
      }
      refreshing := false;
      var held := pending;
      pending := [];
      Replay(held, link);
    }

    method ApplyEvents(cursor: Option<int>, answer: TopicAnswer) returns (outcome: AnswerOutcome)
      requires rev.Some?
      modifies this
      ensures (View(), outcome) == ApplyAnswer(old(View()), cursor, answer)
    {
      var held := rev.value;
      if answer.events.None? {
        if rev != cursor && answer.rev <= held {
          return Answered;
        }
        Resync(answer.rev);
        return if answer.rev != held then Moved else Answered;
      }
      if cursor.Some? && answer.rev < cursor.value {
        Resync(answer.rev);
        return Moved;
      }
      var events := answer.events.value;
      for i := 0 to |events|
        invariant rev.Some? && (View(), true) == ApplyAll(old(View()), events[..i])
      {
        assert events[..i + 1][..i] == events[..i];
        assert !events[i].Malformed? ==>
          ApplyAll(old(View()), events[..i + 1]) ==
            (ApplyTo(View(), Chained(events[i], rev.value)).0, ApplyTo(View(), Chained(events[i], rev.value)).1 != Gap);
        ghost var before := View();
        var gap := events[i].Malformed?;
        if !gap {
          var applied := Apply(Chained(events[i], rev.value));
          gap := applied == Gap;
        }
        if gap {
          assert View() == before;
          ApplyAllStops(old(View()), events, i + 1);
          Resync(answer.rev);
          return Moved;
        }
      }
      assert events[..|events|] == events;
      if answer.rev > rev.value {
        rev := Some(answer.rev);
      }
      return if rev != Some(held) then Moved else Answered;
    }

    method ApplyTopicAnswer(cursor: Option<int>, entry: Entry, link: Link) returns (outcome: AnswerOutcome)
      modifies this
      ensures (View(), outcome) == TakeEntry(old(View()), cursor, entry, link)
    {
      if entry.NoEntry? {
        return Unanswered;
      }
      behind := false;
      if rev.None? {
        Follow(entry.answer.rev, link);
        return Answered;
      }
      outcome := ApplyEvents(cursor, entry.answer);
      EndRefresh(link);
    }

    method FallBehind()
      modifies this
      ensures View() == DropBehind(old(View()))
    {
      gapRev := None;
      behind := true;
    }

    method GapAgain(link: Link)
      modifies this
      ensures View() == PollAgain(old(View()), link)
    {
      var wanted := gapRev;
      gapRev := None;
      if wanted.Some? && rev.Some? && rev.value < wanted.value {
        GapPoll(wanted.value, link);
      }
    }

    /** The continuation of a gap poll's call. */
    method OnGapPoll(cursor: Option<int>, entry: Entry, link: Link)
      modifies this
      ensures View() == GapPollAnswered(old(View()), cursor, entry, link)
    {
      gapInFlight := false;
      var outcome := ApplyTopicAnswer(cursor, entry, link);
      if outcome != Unanswered {
        GapAgain(link);
      } else {
        FallBehind();
      }
    }

    /** The continuation of a `subscribe` call. */
    method OnSubscribe(answered: int, link: Link)
      modifies this
      ensures View() == SubscribeAnswered(old(View()), answered, link)
    {
      if rev.None? {
        Follow(answered, link);
        return;
      }
      if answered > rev.value {
        GapPoll(answered, link);
      } else {
        behind := false;
      }
      EndRefresh(link);
    }
  }

  /** Once an event of an answer is a gap, the rest is not looked at. */
  lemma {:induction false} ApplyAllStops(f: Follower, events: seq<WireEvent>, n: nat)
    requires f.rev.Some? && n <= |events| && !ApplyAll(f, events[..n]).1
    ensures ApplyAll(f, events) == ApplyAll(f, events[..n])
    decreases |events|
  {
    if n < |events| {
      var m := |events| - 1;
      assert events[..m][..n] == events[..n];
      ApplyAllStops(f, events[..m], n);
    } else {
      assert events[..n] == events;
    }
  }
}
