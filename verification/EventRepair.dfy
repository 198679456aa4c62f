/** Gaps are repaired: what a poll brings when its answer arrives, and that every gap leads to one. */
module EventRepair {
  import opened Basics
  import opened EventLog
  import opened EventPoll
  import opened EventClient
  import opened EventDelivery
  import opened EventProtocol

  /** However far the poll got, its answer covers every rev up to `rev`. */
  predicate Covers(call: PollCall, rev: int) {
    match call
    case RevRead(r) => rev <= r
    case Served(a) => rev <= a.rev
    case _ => true
  }

  /** Poll `i` covers `rev`, and the topic has come that far. */
  predicate Covering(s: System, i: nat, rev: int) {
    i < |s.polls| && Covers(s.polls[i], rev) && rev <= LastRev(s.hist)
  }

  lemma ServeCovers(pass: Filters, s: System, i: nat, a: TopicAnswer, rev: int)
    requires Inv(pass, s) && Enabled(pass, s, Serve(i, a)) && Covers(s.polls[i], rev)
    ensures rev <= a.rev
  {
  }

  lemma CoveringStays(pass: Filters, s: System, step: Step, i: nat, rev: int)
    requires Inv(pass, s) && Enabled(pass, s, step) && Covering(s, i, rev)
    ensures Covering(Next(pass, s, step), i, rev)
  {
    match step
    case Serve(j, a) =>
      if i == j {
        ServeCovers(pass, s, i, a, rev);
      }
    case _ =>
  }

  lemma {:induction false} CoveringUntil(
    pass: Filters, states: seq<System>, steps: seq<Step>, m: nat, n: nat, i: nat, rev: int)
    requires Run(pass, states, steps) && m <= n <= |steps| && Covering(states[m], i, rev)
    requires NoneSkips(pass, states, steps, n)
    ensures Covering(states[n], i, rev)
    decreases n
  {
    if m < n {
      CoveringUntil(pass, states, steps, m, n - 1, i, rev);
      RunKeeps(pass, states, steps, n - 1);
      assert Moves(pass, states, steps[n - 1], n - 1);
      CoveringStays(pass, states[n - 1], steps[n - 1], i, rev);
    }
  }

  /** When the answer of a poll arrives, the client holds at least every rev the topic had when the poll was sent,
      and its handlers have had every visible event up to there, or a resync. */
  lemma AnswerCoversWhatWasThere(
    pass: Filters, states: seq<System>, steps: seq<Step>, m: nat, n: nat, i: nat, link: Link)
    requires Run(pass, states, steps) && m <= n < |steps| && steps[n] == PollArrives(i, link)
    requires i < |states[m].polls| && states[m].polls[i] == Sent
    requires NoneSkips(pass, states, steps, n + 1)
    ensures var f := states[n + 1].client;
            && f.rev.Some? && LastRev(states[m].hist) <= f.rev.value
            && DeliveredSince(f.notices) == Between(states[n + 1].hist, pass, BaseOf(f.notices), f.rev.value)
  {
    CoveringUntil(pass, states, steps, m, n, i, LastRev(states[m].hist));
    RunKeeps(pass, states, steps, n);
    RunKeeps(pass, states, steps, n + 1);
    assert Moves(pass, states, steps[n], n);
    ArrivalKeeps(pass, states[n], i, link);
  }

  /** A push the client can neither apply nor ignore. */
  predicate IsGap(f: Follower, a: WireEvent) {
    f.rev.Some? && !f.refreshing && a.Wire? && a.prev != f.rev.value && a.rev > f.rev.value
  }

  predicate Usable(link: Link) {
    link.peerOpen || link.http
  }

  /** A gap with no gap poll in flight sends one, and once its answer arrives the client is past the gap. */
  lemma GapIsRepaired(
    pass: Filters, states: seq<System>, steps: seq<Step>, m: nat, n: nat, link: Link, later: Link)
    requires Run(pass, states, steps) && m < n < |steps| && steps[m].Push? && steps[m].link == link && Usable(link)
    requires Enabled(pass, states[m], steps[m])
    requires IsGap(states[m].client, PushedForm(states[m].hist[steps[m].index])) && !states[m].client.gapInFlight
    requires steps[n] == PollArrives(|states[m].polls|, later)
    requires NoneSkips(pass, states, steps, n + 1)
    ensures var f := states[n + 1].client;
            f.rev.Some? && states[m].hist[steps[m].index].rev <= f.rev.value
  {
    RunKeeps(pass, states, steps, m);
    assert Moves(pass, states, steps[m], m);
    GapSendsPoll(pass, states[m], steps[m].index, link);
    RevBounds(states[m].hist, steps[m].index);
    AnswerCoversWhatWasThere(pass, states, steps, m + 1, n, |states[m].polls|, later);
  }

  lemma GapSendsPoll(pass: Filters, s: System, index: nat, link: Link)
    requires Inv(pass, s) && Enabled(pass, s, Push(index, link)) && Usable(link)
    requires IsGap(s.client, PushedForm(s.hist[index])) && !s.client.gapInFlight
    ensures var t := Next(pass, s, Push(index, link));
            && t.polls == s.polls + [Sent] && t.client.sent == s.client.sent + [Poll(s.client.rev, true)]
            && t.client.gapInFlight && t.hist == s.hist
  {
    var t := Next(pass, s, Push(index, link));
    assert t.client.sent == s.client.sent + [Poll(s.client.rev, true)];
  }

  /** A gap that comes while a gap poll is in flight is remembered; when that poll is answered the client is past
      it, or a further gap poll is in flight. */
  lemma GapInFlightIsPolledAgain(h: History, pass: Filters, f: Follower, p: Poll, a: TopicAnswer, link: Link)
    requires Chain(h) && FollowerOk(h, pass, f) && CursorOk(h, f, p) && AnswerOk(h, pass, p.cursor, a)
    requires p.gap && !SkipsEvents(h, pass, f, p.cursor, a) && Usable(link) && f.gapRev.Some?
    ensures var g := PollAnswerTaken(f, p, Entry(a), link);
            g.rev.Some? && (f.gapRev.value <= g.rev.value || g.gapInFlight)
  {
    var start := f.(gapInFlight := false);
    FlagsKeep(h, pass, f, start);
    EntryKeeps(h, pass, start, p, a, link);
    GapRevStays(start, p.cursor, a, link);
    RememberedIsPolled(TakeEntry(start, p.cursor, Entry(a), link).0, link);
  }

  /** After a gap poll a remembered gap is behind, or is polled for. */
  lemma RememberedIsPolled(f: Follower, link: Link)
    requires f.rev.Some? && f.gapRev.Some? && Usable(link)
    ensures var g := PollAgain(f, link);
            g.rev == f.rev && (f.gapRev.value <= f.rev.value || g.gapInFlight)
  {
  }

  /** Applying an answer forgets no remembered gap, and remembers more only while a gap poll is in flight. */
  lemma GapRevStays(f: Follower, cursor: Option<int>, a: TopicAnswer, link: Link)
    requires f.gapRev.Some?
    ensures var g := TakeEntry(f, cursor, Entry(a), link).0;
            g.gapRev.Some? && g.gapRev.value >= f.gapRev.value
  {
    var start := f.(behind := false);
    if f.rev.None? {
      var g := start.(rev := Some(a.rev), refreshing := false, pending := [], notices := f.notices + [Followed(a.rev)]);
      ReplayKeepsGapRev(g, f.pending, link);
    } else {
      var g := ApplyAnswer(start, cursor, a).0;
      if a.events.Some? {
        ApplyAllKeepsGapRev(start, a.events.value);
      }
      if g.refreshing {
        ReplayKeepsGapRev(g.(refreshing := false, pending := []), g.pending, link);
      }
    }
  }

  lemma {:induction false} ReplayKeepsGapRev(f: Follower, arrivals: seq<WireEvent>, link: Link)
    requires f.gapRev.Some?
    ensures var g := ReceiveAll(f, arrivals, link);
            g.gapRev.Some? && g.gapRev.value >= f.gapRev.value
    decreases |arrivals|
  {
    if arrivals != [] {
      ReplayKeepsGapRev(f, arrivals[..|arrivals| - 1], link);
    }
  }

  lemma {:induction false} ApplyAllKeepsGapRev(f: Follower, events: seq<WireEvent>)
    requires f.rev.Some?
    ensures ApplyAll(f, events).0.gapRev == f.gapRev && ApplyAll(f, events).0.gapInFlight == f.gapInFlight
    decreases |events|
  {
    if events != [] {
      ApplyAllKeepsGapRev(f, events[..|events| - 1]);
    }
  }
}
