/** What a poll answers for one topic: the events since the cursor that pass the delivery filters,
    chained anew, and a rev that covers the ones left out. */
module EventPoll {
  import opened Basics
  import opened EventLog

  /** An event as it travels, pushed or in a poll answer. */
  datatype WireEvent = Malformed | Wire(rev: int, prev: int, name: string, payload: string, version: int)

  /** `events` is None when the log cannot answer the cursor. */
  datatype TopicAnswer = TopicAnswer(rev: int, events: Option<seq<WireEvent>>)

  /** The verdict of the delivery filters on an event. */
  type Filters = LoggedEvent -> bool

  /** What a subscriber sees of an event. */
  datatype Seen = Seen(rev: int, name: string, payload: string, version: int)

  function SeenOf(e: LoggedEvent): Seen {
    Seen(e.rev, e.name, e.payload, e.version)
  }

  /** The visible events with a rev above `lo` and up to `hi`. */
  function Between(h: History, pass: Filters, lo: int, hi: int): (r: seq<Seen>)
    ensures forall s | s in r :: lo < s.rev <= hi
    decreases |h|
  {
    if h == [] then []
    else
      var e := h[|h| - 1];
      Between(h[..|h| - 1], pass, lo, hi) + if lo < e.rev <= hi && pass(e) then [SeenOf(e)] else []
  }

  /** The answer's events: each names the rev of the one before it, the first the cursor. */
  ghost predicate ChainedFrom(cursor: int, events: seq<WireEvent>)
    decreases |events|
  {
    events == [] || (events[0].Wire? && events[0].prev == cursor < events[0].rev && ChainedFrom(events[0].rev, events[1..]))
  }

  function SeenAll(events: seq<WireEvent>): seq<Seen>
    requires forall e | e in events :: e.Wire?
  {
    if events == [] then []
    else [Seen(events[0].rev, events[0].name, events[0].payload, events[0].version)] + SeenAll(events[1..])
  }

  ghost predicate AllWire(events: seq<WireEvent>) {
    forall e | e in events :: e.Wire?
  }

  /** The rev the chain of events ends at. */
  function EndRev(cursor: int, events: seq<WireEvent>): int
    requires AllWire(events)
  {
    if events == [] then cursor else events[|events| - 1].rev
  }

  lemma {:induction false} ChainedAppend(cursor: int, events: seq<WireEvent>, e: WireEvent)
    requires AllWire(events) && ChainedFrom(cursor, events)
    requires e.Wire? && e.prev == EndRev(cursor, events) < e.rev
    ensures ChainedFrom(cursor, events + [e])
    ensures AllWire(events + [e]) && SeenAll(events + [e]) == SeenAll(events) + [Seen(e.rev, e.name, e.payload, e.version)]
    decreases |events|
  {
    if events != [] {
      assert (events + [e])[1..] == events[1..] + [e];
      ChainedAppend(events[0].rev, events[1..], e);
    }
  }

  lemma {:induction false} BetweenEmpty(h: History, pass: Filters, lo: int, hi: int)
    requires hi <= lo
    ensures Between(h, pass, lo, hi) == []
    decreases |h|
  {
    if h != [] {
      BetweenEmpty(h[..|h| - 1], pass, lo, hi);
    }
  }

  /** A later event does not change what was visible up to an earlier rev. */
  lemma BetweenAppend(h: History, pass: Filters, e: LoggedEvent, lo: int, hi: int)
    requires hi < e.rev
    ensures Between(h + [e], pass, lo, hi) == Between(h, pass, lo, hi)
  {
    assert (h + [e])[..|h|] == h;
  }

  lemma {:induction false} BetweenNone(h: History, pass: Filters, lo: int, hi: int)
    requires forall e | e in h :: e.rev <= lo
    ensures Between(h, pass, lo, hi) == []
    decreases |h|
  {
    if h != [] {
      BetweenNone(h[..|h| - 1], pass, lo, hi);
    }
  }

  /** Later events have larger revs. */
  ghost predicate Increasing(h: History) {
    forall i, j | 0 <= i < j < |h| :: h[i].rev < h[j].rev
  }

  lemma ChainIncreases(h: History)
    requires Chain(h)
    ensures Increasing(h)
  {
    forall i, j | 0 <= i < j < |h|
      ensures h[i].rev < h[j].rev
    {
      RevsIncrease(h, i, j);
    }
  }

  lemma LastIsLargest(h: History)
    requires Increasing(h) && h != []
    ensures forall e | e in h :: e.rev <= h[|h| - 1].rev
    ensures Increasing(h[..|h| - 1])
  {
  }

  lemma Regroup(a: seq<Seen>, b: seq<Seen>, c: seq<Seen>)
    ensures a + b + c == a + (b + c)
    ensures c == [] ==> a + c == a && c + a == a
  {
  }

  /** The newest event's part of `Between`. */
  function LastPart(h: History, pass: Filters, lo: int, hi: int): seq<Seen>
    requires h != []
  {
    var e := h[|h| - 1];
    if lo < e.rev <= hi && pass(e) then [SeenOf(e)] else []
  }

  lemma BetweenLast(h: History, pass: Filters, lo: int, hi: int)
    requires h != []
    ensures Between(h, pass, lo, hi) == Between(h[..|h| - 1], pass, lo, hi) + LastPart(h, pass, lo, hi)
  {
  }

  lemma {:induction false} BetweenSplit(h: History, pass: Filters, lo: int, mid: int, hi: int)
    requires Increasing(h) && lo <= mid <= hi
    ensures Between(h, pass, lo, hi) == Between(h, pass, lo, mid) + Between(h, pass, mid, hi)
    decreases |h|
  {
    if h != [] {
      LastIsLargest(h);
      var rest := h[..|h| - 1];
      BetweenSplit(rest, pass, lo, mid, hi);
      BetweenLast(h, pass, lo, hi);
      BetweenLast(h, pass, lo, mid);
      BetweenLast(h, pass, mid, hi);
      if h[|h| - 1].rev <= mid {
        BetweenNone(rest, pass, mid, hi);
      }
      Regroup(Between(rest, pass, lo, mid), Between(rest, pass, mid, hi), LastPart(h, pass, lo, hi));
    }
  }

  lemma {:induction false} BetweenConcat(a: History, b: History, pass: Filters, lo: int, hi: int)
    ensures Between(a + b, pass, lo, hi) == Between(a, pass, lo, hi) + Between(b, pass, lo, hi)
    decreases |b|
  {
    if b == [] {
      assert a + b == a;
    } else {
      var n := |b| - 1;
      assert (a + b)[..|a + b| - 1] == a + b[..n];
      BetweenConcat(a, b[..n], pass, lo, hi);
    }
  }

  lemma {:induction false} BetweenBeyond(h: History, pass: Filters, lo: int, hi: int)
    requires forall e | e in h :: e.rev > hi
    ensures Between(h, pass, lo, hi) == []
    decreases |h|
  {
    if h != [] {
      BetweenBeyond(h[..|h| - 1], pass, lo, hi);
    }
  }

  /** Between an event's `prev` and its rev lies the event alone. */
  lemma BetweenOne(h: History, pass: Filters, i: nat)
    requires Chain(h) && i < |h| && pass(h[i])
    ensures Between(h, pass, h[i].prev, h[i].rev) == [SeenOf(h[i])]
  {
    SplitAround(h, i);
    BetweenMiddle(h[..i], h[i], h[i + 1..], pass, h[i].prev);
  }

  lemma SplitAround(h: History, i: nat)
    requires Chain(h) && i < |h|
    ensures h == h[..i] + [h[i]] + h[i + 1..] && h[i].prev < h[i].rev
    ensures (forall e | e in h[..i] :: e.rev <= h[i].prev) && (forall e | e in h[i + 1..] :: e.rev > h[i].rev)
  {
    BelowPrev(h, i);
    RevBounds(h, i);
    AboveRev(h, i);
  }

  lemma AboveRev(h: History, i: nat)
    requires Chain(h) && i < |h|
    ensures forall e | e in h[i + 1..] :: e.rev > h[i].rev
  {
    forall e | e in h[i + 1..]
      ensures e.rev > h[i].rev
    {
      var k :| i < k < |h| && h[k] == e;
      RevsIncrease(h, i, k);
    }
  }

  lemma BetweenMiddle(a: History, e: LoggedEvent, b: History, pass: Filters, lo: int)
    requires pass(e) && lo < e.rev
    requires (forall x | x in a :: x.rev <= lo) && (forall x | x in b :: x.rev > e.rev)
    ensures Between(a + [e] + b, pass, lo, e.rev) == [SeenOf(e)]
  {
    BetweenConcat(a + [e], b, pass, lo, e.rev);
    BetweenConcat(a, [e], pass, lo, e.rev);
    BetweenNone(a, pass, lo, e.rev);
    BetweenBeyond(b, pass, lo, e.rev);
    assert [e][..0] == [];
  }

  // ---- the answer -----------------------------------------------------------------------------

  /** `a` answers the cursor: `rev` is what was read first, `logged` what the store then says about the
      events since the cursor. Nothing for no cursor and for the current rev; no events when the log does
      not reach back; otherwise the visible ones, chained from the cursor, and a rev covering all of them. */
  ghost predicate Answers(cursor: Option<int>, rev: int, logged: Option<History>, pass: Filters, a: TopicAnswer) {
    if cursor.None? || cursor.value == rev then a == TopicAnswer(rev, Some([]))
    else if logged.None? then a == TopicAnswer(rev, None)
    else
      && a.rev == Covered(rev, logged.value)
      && a.events.Some? && AllWire(a.events.value) && ChainedFrom(cursor.value, a.events.value)
      && SeenAll(a.events.value) == Between(logged.value, pass, cursor.value, a.rev)
  }

  /** The rev that covers `rev` and every event of `logged`. */
  function Covered(rev: int, logged: History): int {
    if logged == [] then rev else Max(rev, logged[|logged| - 1].rev)
  }

  /** The answer for an admitted topic under the caller's scope. */
  method AnswerTopic(cursor: Option<int>, rev: int, logged: Option<History>, pass: Filters) returns (a: TopicAnswer)
    requires cursor.Some? && logged.Some? ==> Linked(cursor.value, logged.value)
    ensures Answers(cursor, rev, logged, pass, a)
  {
    if cursor.None? || cursor.value == rev {
      return TopicAnswer(rev, Some([]));
    }
    if logged.None? {
      return TopicAnswer(rev, None);
    }
    var events: seq<WireEvent> := [];
    var prev := cursor.value;
    var covered := rev;
    ghost var end := Covered(rev, logged.value);
    for i := 0 to |logged.value|
      invariant AllWire(events) && ChainedFrom(cursor.value, events)
      invariant prev == EndRev(cursor.value, events) <= LastOr(cursor.value, logged.value[..i])
      invariant covered == Covered(rev, logged.value[..i])
      invariant SeenAll(events) == Between(logged.value[..i], pass, cursor.value, end)
    {
      var e := logged.value[i];
      LinkedAt(cursor.value, logged.value, i);
      assert logged.value[..i + 1][..i] == logged.value[..i];
      if pass(e) {
        var wire := Wire(e.rev, prev, e.name, e.payload, e.version);
        ChainedAppend(cursor.value, events, wire);
        events := events + [wire];
        prev := e.rev;
      }
      covered := Max(covered, e.rev);
    }
    assert logged.value[..|logged.value|] == logged.value;
    a := TopicAnswer(covered, Some(events));
  }

  function LastOr(cursor: int, h: History): int {
    if h == [] then cursor else h[|h| - 1].rev
  }

  /** Events that follow one another from the rev `cursor` on. */
  ghost predicate Linked(cursor: int, h: History) {
    && (forall e | e in h :: cursor <= e.prev < e.rev)
    && (forall i, j | 0 <= i < j < |h| :: h[i].rev <= h[j].prev)
  }

  /** An answer from the log leaves nothing out: its rev covers the rev read first and every logged event, and its
      events are exactly those the filters let through, in order. */
  lemma AnswerLeavesNothingOut(cursor: int, rev: int, logged: History, pass: Filters, a: TopicAnswer)
    requires Linked(cursor, logged) && cursor != rev && Answers(Some(cursor), rev, Some(logged), pass, a)
    ensures rev <= a.rev && (forall e | e in logged :: e.rev <= a.rev)
    ensures a.rev == rev || exists e | e in logged :: e.rev == a.rev
    ensures a.events.Some? && AllWire(a.events.value) && SeenAll(a.events.value) == Visible(logged, pass)
  {
    forall e | e in logged
      ensures cursor < e.rev <= a.rev
    {
      var i :| 0 <= i < |logged| && logged[i] == e;
      LinkedAt(cursor, logged, i);
    }
    if a.rev != rev {
      assert logged[|logged| - 1] in logged;
    }
    AllVisible(logged, pass, cursor, a.rev);
  }

  /** What the filters let through. */
  function Visible(h: History, pass: Filters): seq<Seen> {
    if h == [] then []
    else Visible(h[..|h| - 1], pass) + if pass(h[|h| - 1]) then [SeenOf(h[|h| - 1])] else []
  }

  lemma {:induction false} AllVisible(h: History, pass: Filters, lo: int, hi: int)
    requires forall e | e in h :: lo < e.rev <= hi
    ensures Between(h, pass, lo, hi) == Visible(h, pass)
    decreases |h|
  {
    if h != [] {
      AllVisible(h[..|h| - 1], pass, lo, hi);
      assert h[|h| - 1] in h;
    }
  }

  /** What a store answers about a rev the topic had is linked from it. */
  lemma SinceIsLinked(h: History, kept: nat, after: int)
    requires Chain(h) && SinceAnswer(h, kept, after).Some?
    ensures Linked(after, SinceAnswer(h, kept, after).value)
  {
    if after != LastRev(h) {
      var i :| kept <= i < |h| && h[i].prev == after;
      AfterIsSuffix(h, i);
      SuffixIsLinked(h, i);
    }
  }

  lemma SuffixIsLinked(h: History, i: nat)
    requires Chain(h) && i < |h|
    ensures Linked(h[i].prev, h[i..])
  {
    forall e | e in h[i..]
      ensures h[i].prev <= e.prev < e.rev
    {
      var k :| i <= k < |h| && h[k] == e;
      NotBelow(h, i, k);
    }
    forall k, m | 0 <= k < m < |h[i..]|
      ensures h[i..][k].rev <= h[i..][m].prev
    {
      RevsIncrease(h, i + k, i + m);
    }
  }

  lemma NotBelow(h: History, i: nat, k: nat)
    requires Chain(h) && i <= k < |h|
    ensures h[i].prev <= h[k].prev < h[k].rev
  {
    RevBounds(h, i);
    RevBounds(h, k);
    if k > i {
      RevsIncrease(h, i, k);
    }
  }

  lemma LinkedAt(cursor: int, h: History, i: nat)
    requires Linked(cursor, h) && i < |h|
    ensures LastOr(cursor, h[..i]) < h[i].rev <= LastOr(cursor, h)
    ensures cursor < h[i].rev
  {
    assert h[i] in h;
    assert h[|h| - 1] in h;
    if i > 0 {
      assert h[..i][i - 1] == h[i - 1];
    }
  }
}
