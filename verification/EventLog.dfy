/** The chain of one topic's events: every event names the rev before it, and revs increase. */
module EventLog {
  import opened Basics

  /** Exclusive bound of every rev. */
  const MAX_REV := 0x20_0000_0000_0000

  datatype LoggedEvent = LoggedEvent(rev: int, prev: int, name: string, payload: string, version: int)

  type History = seq<LoggedEvent>

  function LastRev(h: History): int {
    if h == [] then 0 else h[|h| - 1].rev
  }

  /** Every event follows the one before it, the first follows rev 0, and revs stay below the bound. */
  ghost predicate Chain(h: History) {
    && (h != [] ==> h[0].prev == 0)
    && (forall i, j | 0 <= i < j < |h| && j == i + 1 :: h[j].prev == h[i].rev)
    && (forall e | e in h :: e.prev < e.rev < MAX_REV)
  }

  /** A rev a topic has had: 0, or an event's. */
  ghost predicate Known(h: History, rev: int) {
    rev == 0 || exists i | 0 <= i < |h| :: h[i].rev == rev
  }

  /** The events with a rev above `after`. */
  function After(h: History, after: int): History {
    if h == [] then []
    else After(h[..|h| - 1], after) + if h[|h| - 1].rev > after then [h[|h| - 1]] else []
  }

  lemma {:induction false} RevsIncrease(h: History, i: nat, j: nat)
    requires Chain(h) && i < j < |h|
    ensures h[i].rev <= h[j].prev < h[j].rev
    decreases j
  {
    var k := j - 1;
    assert h[j].prev == h[k].rev;
    assert h[j] in h;
    if i < k {
      RevsIncrease(h, i, k);
    }
  }

  lemma RevBounds(h: History, i: nat)
    requires Chain(h) && i < |h|
    ensures 0 <= h[i].prev < h[i].rev <= LastRev(h)
  {
    assert h[i] in h && h[0] in h;
    if i > 0 {
      RevsIncrease(h, 0, i);
    }
    if i < |h| - 1 {
      RevsIncrease(h, i, |h| - 1);
    }
  }

  lemma KnownBounds(h: History, rev: int)
    requires Chain(h) && Known(h, rev)
    ensures 0 <= rev <= LastRev(h)
  {
    if rev != 0 {
      var i :| 0 <= i < |h| && h[i].rev == rev;
      RevBounds(h, i);
    } else if h != [] {
      RevBounds(h, |h| - 1);
    }
  }

  lemma LastIsKnown(h: History)
    ensures Known(h, LastRev(h))
  {
  }

  lemma ChainPrefix(h: History, n: nat)
    requires Chain(h) && n <= |h|
    ensures Chain(h[..n])
  {
  }

  lemma ChainAppend(h: History, e: LoggedEvent)
    requires Chain(h) && e.prev == LastRev(h) && e.prev < e.rev < MAX_REV
    ensures Chain(h + [e])
  {
    var all := h + [e];
    forall i, j | 0 <= i < j < |all| && j == i + 1
      ensures all[j].prev == all[i].rev
    {
      if j == |h| {
        assert all[i] == h[|h| - 1];
      } else {
        assert all[i] == h[i] && all[j] == h[j];
      }
    }
  }

  lemma {:induction false} AfterConcat(a: History, b: History, after: int)
    ensures After(a + b, after) == After(a, after) + After(b, after)
    decreases |b|
  {
    if b == [] {
      assert a + b == a;
    } else {
      var n := |b| - 1;
      assert (a + b)[..|a + b| - 1] == a + b[..n];
      AfterConcat(a, b[..n], after);
    }
  }

  lemma {:induction false} NoneAfter(h: History, after: int)
    requires forall e | e in h :: e.rev <= after
    ensures After(h, after) == []
    decreases |h|
  {
    if h != [] {
      NoneAfter(h[..|h| - 1], after);
    }
  }

  lemma {:induction false} AllAfter(h: History, after: int)
    requires forall e | e in h :: e.rev > after
    ensures After(h, after) == h
    decreases |h|
  {
    if h != [] {
      AllAfter(h[..|h| - 1], after);
      assert h == h[..|h| - 1] + [h[|h| - 1]];
    }
  }

  lemma BelowPrev(h: History, i: nat)
    requires Chain(h) && i < |h|
    ensures forall e | e in h[..i] :: e.rev <= h[i].prev
    ensures forall e | e in h[i..] :: e.rev > h[i].prev
  {
    forall e | e in h[..i]
      ensures e.rev <= h[i].prev
    {
      var k :| 0 <= k < i && h[k] == e;
      RevsIncrease(h, k, i);
    }
    forall e | e in h[i..]
      ensures e.rev > h[i].prev
    {
      var k :| i <= k < |h| && h[k] == e;
      RevBounds(h, i);
      if k > i {
        RevsIncrease(h, i, k);
      }
    }
  }

  lemma AfterSplit(older: History, newer: History, after: int)
    requires forall e | e in older :: e.rev <= after
    requires forall e | e in newer :: e.rev > after
    ensures After(older + newer, after) == newer
  {
    AfterConcat(older, newer, after);
    NoneAfter(older, after);
    AllAfter(newer, after);
  }

  /** The events above an event's `prev` are that event and all newer ones. */
  lemma AfterIsSuffix(h: History, i: nat)
    requires Chain(h) && i < |h|
    ensures After(h, h[i].prev) == h[i..]
  {
    BelowPrev(h, i);
    AfterSplit(h[..i], h[i..], h[i].prev);
    Rejoin(h, i);
  }

  /** What a topic whose log holds its events from `kept` on answers to "events since `after`": none for
      the current rev, the whole rest of the history when the log reaches back to it, and nothing
      otherwise. */
  ghost function SinceAnswer(h: History, kept: nat, after: int): Option<History> {
    if after == LastRev(h) then Some([])
    else if exists i | kept <= i < |h| :: h[i].prev == after then Some(After(h, after))
    else None
  }
}
