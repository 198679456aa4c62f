/** The in-process event store. */
module EventStore {
  import opened Basics
  import opened EventLog

  /** A topic's current rev, its kept log and when that log empties. */
  datatype Topic = Topic(rev: int, log: History, logExpiresMs: int)

  datatype Appended = Appended(rev: int, prev: int) | Overflow

  /** The rev of the event after `prev`: the clock, or one more when the clock is not ahead. */
  function NextRev(prev: int, nowMs: int): (r: Option<int>)
    ensures r.Some? ==> prev < r.value < MAX_REV && nowMs <= r.value
    ensures r.Some? ==> r.value == nowMs || r.value == prev + 1
    ensures r.None? <==> prev + 1 >= MAX_REV || nowMs >= MAX_REV
  {
    var rev := Max(prev + 1, nowMs);
    if rev >= MAX_REV then None else Some(rev)
  }

  /** The log at `nowMs`: an expired one is empty. */
  function Live(topic: Topic, nowMs: int): History {
    if topic.log != [] && nowMs >= topic.logExpiresMs then [] else topic.log
  }

  /** `log` is the end of `h`. */
  ghost predicate EndOf(log: History, h: History) {
    |log| <= |h| && forall i | 0 <= i < |log| :: log[i] == h[|h| - |log| + i]
  }

  /** The topic's rev and log are those of its history. */
  ghost predicate Holds(topic: Topic, h: History) {
    && Chain(h) && h != []
    && topic.rev == LastRev(h)
    && EndOf(topic.log, h)
  }

  lemma FoundInLog(h: History, log: History, i: nat)
    requires Chain(h) && EndOf(log, h) && i < |log|
    ensures log[i].prev != LastRev(h)
    ensures SinceAnswer(h, |h| - |log|, log[i].prev) == Some(log[i..])
  {
    var k := |h| - |log| + i;
    assert log[i] == h[k];
    RevBounds(h, k);
    AfterIsSuffix(h, k);
    assert log[i..] == h[k..];
  }

  lemma MissingInLog(h: History, log: History, after: int)
    requires EndOf(log, h) && after != LastRev(h)
    requires forall k | 0 <= k < |log| :: log[k].prev != after
    ensures SinceAnswer(h, |h| - |log|, after) == None
  {
    var kept := |h| - |log|;
    forall k | kept <= k < |h|
      ensures h[k].prev != after
    {
      assert h[k] == log[k - kept];
    }
  }

  /** What reading the log down to the event after the cursor finds is the history's answer. */
  lemma LogAnswers(h: History, log: History, after: int, read: Option<History>)
    requires Chain(h) && EndOf(log, h) && after != LastRev(h)
    requires read.None? ==> forall k | 0 <= k < |log| :: log[k].prev != after
    requires read.Some? ==>
      1 <= |read.value| <= |log| && read.value == log[|log| - |read.value|..] && read.value[0].prev == after
    ensures read == SinceAnswer(h, |h| - |log|, after)
  {
    if read.Some? {
      FoundInLog(h, log, |log| - |read.value|);
    } else {
      MissingInLog(h, log, after);
    }
  }

  // ---- what is kept -----------------------------------------------------------------------------------

  /** An event of the log follows the rev. */
  ghost predicate Follows(log: History, after: int) {
    exists k | 0 <= k < |log| :: log[k].prev == after
  }

  lemma LogReaches(h: History, log: History, after: int)
    requires Chain(h) && EndOf(log, h) && after != LastRev(h)
    ensures SinceAnswer(h, |h| - |log|, after) ==
            if Follows(log, after) then Some(After(h, after)) else None
  {
    if Follows(log, after) {
      var k :| 0 <= k < |log| && log[k].prev == after;
      assert h[|h| - |log| + k].prev == after;
    } else {
      MissingInLog(h, log, after);
    }
  }

  /** The topic's log has not expired and holds the event that follows `after`. */
  ghost predicate Reaches(topic: Topic, after: int, nowMs: int) {
    nowMs < topic.logExpiresMs && Follows(topic.log, after)
  }

  /** What an append leaves of a topic: the event after what its log held, unless that had expired, cut to the newest
      `logSize`, and a new expiry. */
  ghost predicate Extends(
    before: Option<Topic>, after: Topic, event: LoggedEvent, nowMs: int, logSize: int, ttlMs: int)
  {
    && after.rev == event.rev && after.logExpiresMs == nowMs + ttlMs
    && after.log ==
         LastN((if before.Some? && nowMs < before.value.logExpiresMs then before.value.log else []) + [event], logSize)
  }

  /** The topic after each of a run of appends, every one before the log it found had expired. */
  ghost predicate AppendsInTime(
    first: Topic, topics: seq<Topic>, events: History, nowMs: seq<int>, logSize: int, ttlMs: int)
  {
    && |topics| == |events| + 1 == |nowMs| + 1 && topics[0] == first
    && forall i | 0 <= i < |events| :: AppendInTime(topics, events, nowMs, logSize, ttlMs, i)
  }

  ghost predicate AppendInTime(
    topics: seq<Topic>, events: History, nowMs: seq<int>, logSize: int, ttlMs: int, i: nat)
    requires |topics| == |events| + 1 == |nowMs| + 1 && i < |events|
  {
    nowMs[i] < topics[i].logExpiresMs && Extends(Some(topics[i]), topics[i + 1], events[i], nowMs[i], logSize, ttlMs)
  }

  lemma TrimTwice(a: History, e: LoggedEvent, n: int)
    ensures LastN(LastN(a, n) + [e], n) == LastN(a + [e], n)
  {
  }

  /** After k appends in time the log is the newest `logSize` of what it was and the k events: none of them goes
      while there is room. */
  lemma {:induction false} AppendsAreKept(
    first: Topic, topics: seq<Topic>, events: History, nowMs: seq<int>, logSize: int, ttlMs: int, k: nat)
    requires AppendsInTime(first, topics, events, nowMs, logSize, ttlMs) && k <= |events|
    requires first.log == LastN(first.log, logSize)
    ensures topics[k].log == LastN(first.log + events[..k], logSize)
  {
    if k > 0 {
      AppendsAreKept(first, topics, events, nowMs, logSize, ttlMs, k - 1);
      assert AppendInTime(topics, events, nowMs, logSize, ttlMs, k - 1);
      TrimTwice(first.log + events[..k - 1], events[k - 1], logSize);
      TakeNext(events, k - 1);
      assert first.log + events[..k - 1] + [events[k - 1]] == first.log + events[..k];
    } else {
      assert first.log + events[..0] == first.log;
    }
  }

  lemma NewestKept(log: History, events: History, logSize: int, j: nat)
    requires j < |events| && |events| - j <= logSize
    ensures Follows(LastN(log + events, logSize), events[j].prev)
  {
    var kept := LastN(log + events, logSize);
    assert kept[|kept| - |events| + j] == events[j];
  }

  /** So a cursor that is no more than `logSize` events behind is answered until the log expires. */
  lemma NewestAreReached(
    first: Topic, topics: seq<Topic>, events: History, nowMs: seq<int>, logSize: int, ttlMs: int, j: nat, now: int)
    requires AppendsInTime(first, topics, events, nowMs, logSize, ttlMs) && first.log == LastN(first.log, logSize)
    requires j < |events| && |events| - j <= logSize && now < nowMs[|events| - 1] + ttlMs
    ensures Reaches(topics[|events|], events[j].prev, now)
  {
    AppendsAreKept(first, topics, events, nowMs, logSize, ttlMs, |events|);
    LastExpiry(first, topics, events, nowMs, logSize, ttlMs);
    assert events[..|events|] == events;
    NewestKept(first.log, events, logSize, j);
  }

  lemma LastExpiry(first: Topic, topics: seq<Topic>, events: History, nowMs: seq<int>, logSize: int, ttlMs: int)
    requires AppendsInTime(first, topics, events, nowMs, logSize, ttlMs) && events != []
    ensures topics[|events|].logExpiresMs == nowMs[|events| - 1] + ttlMs
  {
    assert AppendInTime(topics, events, nowMs, logSize, ttlMs, |events| - 1);
  }

  lemma ExtendsIs(before: Option<Topic>, event: LoggedEvent, nowMs: int, logSize: int, ttlMs: int)
    ensures var kept := if before.Some? then Live(before.value, nowMs) else [];
            Extends(before, Topic(event.rev, LastN(kept + [event], logSize), nowMs + ttlMs), event, nowMs, logSize, ttlMs)
  {
  }

  lemma EndAppend(log: History, h: History, e: LoggedEvent)
    requires EndOf(log, h)
    ensures EndOf(log + [e], h + [e])
  {
  }

  lemma LastNEnd(log: History, h: History, n: int)
    requires EndOf(log, h)
    ensures EndOf(LastN(log, n), h)
  {
  }

  lemma AppendHolds(log: History, h: History, e: LoggedEvent, logSize: int, expiresMs: int)
    requires Chain(h) && EndOf(log, h) && e.prev == LastRev(h) && e.prev < e.rev < MAX_REV
    ensures Holds(Topic(e.rev, LastN(log + [e], logSize), expiresMs), h + [e])
  {
    ChainAppend(h, e);
    EndAppend(log, h, e);
    LastNEnd(log + [e], h + [e], logSize);
  }

  /** Pops events off the old end until at most `size` remain. */
  method TrimLog(log: History, size: int) returns (r: History)
    ensures r == LastN(log, size)
  {
    r := log;
    while |r| > Max(size, 0)
      invariant r == LastN(log, Max(|r|, Max(size, 0)))
    {
      r := r[1..];
    }
  }

  /** Reads the log from its newest event down to the one that follows `after`; the events read, oldest
      first, or None when no event follows it. */
  method ChainSince(log: History, after: int) returns (r: Option<History>)
    ensures r.None? ==> forall k | 0 <= k < |log| :: log[k].prev != after
    ensures r.Some? ==> 1 <= |r.value| <= |log| && r.value == log[|log| - |r.value|..] && r.value[0].prev == after
  {
    var chain: History := [];
    var i := |log|;
    while i > 0
      invariant 0 <= i <= |log| && |chain| == |log| - i
      invariant forall k | 0 <= k < |chain| :: chain[k] == log[|log| - 1 - k]
      invariant forall k | i <= k < |log| :: log[k].prev != after
    {
      i := i - 1;
      chain := chain + [log[i]];
      if log[i].prev == after {
        return Some(Reverse(chain));
      }
    }
    return None;
  }

  class MemoryEventStore {
    var topics: map<string, Topic>
    /** Every event appended to a topic since its last drop. */
    ghost var history: map<string, History>

    ghost predicate Valid()
      reads this
    {
      && topics.Keys == history.Keys
      && forall t | t in topics :: Holds(topics[t], history[t])
    }

    ghost function HistoryOf(topic: string): History
      reads this
    {
      if topic in history then history[topic] else []
    }

    constructor ()
      ensures Valid() && history == map[]
    {
      topics, history := map[], map[];
    }

    /** Gives the event the topic's next rev and keeps it; a rev that would reach the bound changes nothing. */
    method Append(topic: string, name: string, payload: string, version: int, nowMs: int, logSize: int, ttlMs: int)
      returns (r: Appended)
      requires Valid()
      modifies this
      ensures Valid()
      ensures r.Overflow? <==> NextRev(LastRev(old(HistoryOf(topic))), nowMs).None?
      ensures r.Overflow? ==> history == old(history) && topics == old(topics)
      ensures r.Appended? ==>
        && r.prev == LastRev(old(HistoryOf(topic))) && NextRev(r.prev, nowMs) == Some(r.rev)
        && var event := LoggedEvent(r.rev, r.prev, name, payload, version);
           && history == old(history)[topic := old(HistoryOf(topic)) + [event]]
           && topic in topics && topics == old(topics)[topic := topics[topic]]
           && Extends(if topic in old(topics) then Some(old(topics)[topic]) else None, topics[topic], event, nowMs, logSize,
                      ttlMs)
    {
      ghost var before := HistoryOf(topic);
      var prev := if topic in topics then topics[topic].rev else 0;
      var next := NextRev(prev, nowMs);
      if next.None? {
        return Overflow;
      }
      var rev := next.value;
      var kept := KeptAt(topics, topic, nowMs);
      var event := LoggedEvent(rev, prev, name, payload, version);
      assert EndOf(kept, before) && Chain(before) && prev == LastRev(before);
      AppendHolds(kept, before, event, logSize, nowMs + ttlMs);
      ExtendsIs(if topic in topics then Some(topics[topic]) else None, event, nowMs, logSize, ttlMs);
      var log := TrimLog(kept + [event], logSize);
      topics := topics[topic := Topic(rev, log, nowMs + ttlMs)];
      history := history[topic := before + [event]];
      r := Appended(rev, prev);
    }

    /** The current rev of each topic. */
    method Revs(names: seq<string>) returns (r: map<string, int>)
      requires Valid()
      ensures r.Keys == (set n | n in names)
      ensures forall n | n in names :: r[n] == LastRev(HistoryOf(n))
    {
      r := map n | n in names :: if n in topics then topics[n].rev else 0;
    }

    /** The events since `after`: none for the current rev, the whole rest of the history as long as the log has not
        expired and holds the event that follows `after`, and no answer otherwise. */
    method Since(topic: string, after: int, nowMs: int) returns (r: Option<History>)
      requires Valid()
      modifies this
      ensures Valid() && history == old(history)
      ensures r == if after == LastRev(HistoryOf(topic)) then Some([])
                   else if topic in old(topics) && Reaches(old(topics)[topic], after, nowMs) then
                     Some(After(HistoryOf(topic), after))
                   else None
      ensures exists kept: nat :: r == SinceAnswer(HistoryOf(topic), kept, after)
      ensures topics == old(topics) ||
        (topic in old(topics) && topics == old(topics)[topic := old(topics)[topic].(log :=
           if nowMs < old(topics)[topic].logExpiresMs then old(topics)[topic].log else [])])
    {
      ghost var h := HistoryOf(topic);
      var rev := if topic in topics then topics[topic].rev else 0;
      assert after == rev ==> SinceAnswer(h, 0, after) == Some([]);
      if after == rev {
        return Some([]);
      }
      if topic !in topics {
        assert SinceAnswer(h, 0, after) == None;
        return None;
      }
      var log := Live(topics[topic], nowMs);
      topics := topics[topic := topics[topic].(log := log)];
      r := ChainSince(log, after);
      LogAnswers(h, log, after, r);
      LogReaches(h, log, after);
    }

    method Drop(topic: string)
      requires Valid()
      modifies this
      ensures Valid()
      ensures topics == old(topics) - {topic} && history == old(history) - {topic}
    {
      topics := topics - {topic};
      history := history - {topic};
    }
  }

  function KeptAt(topics: map<string, Topic>, topic: string, nowMs: int): History {
    if topic in topics then Live(topics[topic], nowMs) else []
  }
}
