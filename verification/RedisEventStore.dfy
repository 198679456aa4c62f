/** The event store in Redis: one topic's counter and log keys, the append script, and `since`, which reads
    the two keys one after the other. */
module RedisEventStore {
  import opened Basics
  import opened EventLog
  import opened EventStore

  /** The counter and the list, newest event first, are those of the history. */
  ghost predicate KeysHold(counter: Option<int>, list: History, h: History) {
    && Chain(h)
    && (if h == [] then counter == None && list == [] else counter == Some(LastRev(h)))
    && EndOf(Reverse(list), h)
  }

  class RedisTopic {
    /** The counter key, absent before the first event. */
    var counter: Option<int>
    /** The log key's list, newest event first, and its expiry on the Redis clock. */
    var list: History
    var listExpiresMs: int
    ghost var history: History

    ghost predicate Valid()
      reads this
    {
      KeysHold(counter, list, history)
    }

    /** The list as Redis reads it: an expired key is gone. */
    function LRange(redisMs: int): (r: History)
      reads this
      ensures redisMs < listExpiresMs ==> r == list
      ensures redisMs >= listExpiresMs ==> r == []
    {
      if redisMs >= listExpiresMs then [] else list
    }

    /** The topic as the in-process store would hold it. */
    ghost function AsTopic(): Topic
      reads this
    {
      Topic(LastRev(history), Reverse(list), listExpiresMs)
    }

    constructor ()
      ensures Valid() && history == []
    {
      counter, list, listExpiresMs, history := None, [], 0, [];
    }

    /** The append script, run atomically: the rev counts up, the event is pushed to the head of the list and
        the list trimmed; a rev that would reach the bound changes nothing. */
    method AppendScript(
      nowMs: int, redisMs: int, name: string, payload: string, version: int, logSize: int, logTtlMs: int)
      returns (r: Appended)
      requires Valid() && logTtlMs >= 1
      modifies this
      ensures Valid()
      ensures r.Overflow? <==> NextRev(LastRev(old(history)), nowMs).None?
      ensures r.Overflow? ==> unchanged(this)
      ensures r.Appended? ==>
        && r.prev == LastRev(old(history)) && r.rev == Max(r.prev + 1, nowMs)
        && var event := LoggedEvent(r.rev, r.prev, name, payload, version);
           && history == old(history) + [event]
           && (logSize > 0 ==> Extends(Some(old(AsTopic())), AsTopic(), event, redisMs, logSize, logTtlMs))
           && (logSize <= 0 ==> list == [])
    {
      var prev := if counter.Some? then counter.value else 0;
      var rev := Max(prev + 1, nowMs);
      if rev >= MAX_REV {
        return Overflow;
      }
      var event := LoggedEvent(rev, prev, name, payload, version);
      var live := LRange(redisMs);
      PushHolds(counter, list, live, history, event, logSize);
      TrimIsLastN(live, event, logSize);
      assert Reverse<LoggedEvent>([]) == [];
      counter := Some(rev);
      if logSize > 0 {
        list := LTrim([event] + live, logSize);
        listExpiresMs := redisMs + logTtlMs;
      } else {
        list := [];
      }
      history := history + [event];
      r := Appended(rev, prev);
    }
  }

  /** The list's first `n` entries. */
  function LTrim(list: History, n: int): History {
    if n <= 0 then [] else if |list| > n then list[..n] else list
  }

  lemma PushHolds(counter: Option<int>, list: History, live: History, h: History, e: LoggedEvent, n: int)
    requires KeysHold(counter, list, h) && (live == list || live == [])
    requires e.prev == LastRev(h) && e.prev < e.rev < MAX_REV
    ensures KeysHold(Some(e.rev), LTrim([e] + live, n), h + [e])
  {
    ChainAppend(h, e);
    EndAppend(Reverse(live), h, e);
    LastNEnd(Reverse(live) + [e], h + [e], n);
    TrimIsLastN(live, e, n);
  }

  /** Trimming the list keeps the newest events of the log. */
  lemma TrimIsLastN(live: History, e: LoggedEvent, n: int)
    ensures Reverse(LTrim([e] + live, n)) == LastN(Reverse(live) + [e], n)
  {
    assert Reverse([e] + live) == Reverse(live) + [e];
    assert Reverse(LTrim([e] + live, n)) == LastN(Reverse([e] + live), n);
  }

  /** `since` over its two reads: the counter when the history was `atRev`, the list when it had grown to
      `atLog`. It answers what one read at `atLog` would, so a chain it returns holds every event up to the
      counter it read first, and more when appends fell between. */
  method Since(
    counter: Option<int>, list: History, after: int, ghost atRev: History, ghost atLog: History)
    returns (r: Option<History>)
    requires Chain(atLog) && atRev <= atLog && EndOf(Reverse(list), atLog)
    requires counter == if atRev == [] then None else Some(LastRev(atRev))
    ensures after == LastRev(atRev) ==> r == Some([])
    ensures after < LastRev(atRev) ==> r == SinceAnswer(atLog, |atLog| - |list|, after)
    ensures after < LastRev(atRev) ==>
      r == if Follows(list, after) then Some(After(atLog, after)) else None
    ensures r.Some? ==> forall e | e in atRev && e.rev > after :: e in r.value
    ensures r.Some? && after != LastRev(atRev) ==> r.value == After(atLog, after)
  {
    var rev := if counter.Some? then counter.value else 0;
    if after == rev {
      RevsReadBefore(atRev, atLog);
      return Some([]);
    }
    r := ScanList(list, after);
    ReverseReaches(list, after);
    if r.Some? {
      ScanFound(list, after, r.value, atRev, atLog);
    } else if after < rev {
      RevsReadBefore(atRev, atLog);
      MissingInLog(atLog, Reverse(list), after);
    }
  }

  lemma ReverseReaches(list: History, after: int)
    ensures Follows(Reverse(list), after) <==> Follows(list, after)
  {
    if Follows(list, after) {
      var k :| 0 <= k < |list| && list[k].prev == after;
      assert Reverse(list)[|list| - 1 - k].prev == after;
    }
    if Follows(Reverse(list), after) {
      var k :| 0 <= k < |list| && Reverse(list)[k].prev == after;
      assert list[|list| - 1 - k].prev == after;
    }
  }

  lemma ScanFound(list: History, after: int, chain: History, atRev: History, atLog: History)
    requires Chain(atLog) && atRev <= atLog && EndOf(Reverse(list), atLog)
    requires 1 <= |chain| <= |list| && chain == Reverse(list)[|list| - |chain|..] && chain[0].prev == after
    ensures SinceAnswer(atLog, |atLog| - |list|, after) == Some(chain) && chain == After(atLog, after)
    ensures forall e | e in atRev && e.rev > after :: e in chain
  {
    FoundInLog(atLog, Reverse(list), |list| - |chain|);
    AfterHolds(atLog, after);
    RevsReadBefore(atRev, atLog);
  }

  lemma RevsReadBefore(atRev: History, atLog: History)
    requires Chain(atLog) && atRev <= atLog
    ensures LastRev(atRev) <= LastRev(atLog)
    ensures forall e | e in atRev :: e in atLog && e.rev <= LastRev(atRev)
  {
    ChainPrefix(atLog, |atRev|);
    assert atLog[..|atRev|] == atRev;
    if atRev != [] {
      RevBounds(atLog, |atRev| - 1);
    } else {
      LastIsKnown(atLog);
      KnownBounds(atLog, LastRev(atLog));
    }
    forall e | e in atRev
      ensures e in atLog && e.rev <= LastRev(atRev)
    {
      var i :| 0 <= i < |atRev| && atRev[i] == e;
      assert atLog[i] == e;
      RevBounds(atRev, i);
    }
  }

  /** Reads the list from its head until the event that follows `after`; the events read, oldest first. */
  method ScanList(list: History, after: int) returns (r: Option<History>)
    ensures r.None? ==> forall k | 0 <= k < |list| :: Reverse(list)[k].prev != after
    ensures r.Some? ==>
      1 <= |r.value| <= |list| && r.value == Reverse(list)[|list| - |r.value|..] && r.value[0].prev == after
  {
    var chain: History := [];
    for i := 0 to |list|
      invariant chain == list[..i]
      invariant forall k | 0 <= k < i :: list[k].prev != after
    {
      chain := chain + [list[i]];
      if list[i].prev == after {
        return Some(Reverse(chain));
      }
    }
    return None;
  }

  lemma {:induction false} AfterHolds(h: History, after: int)
    ensures forall e :: e in After(h, after) <==> e in h && e.rev > after
    decreases |h|
  {
    if h != [] {
      var n := |h| - 1;
      AfterHolds(h[..n], after);
      assert h == h[..n] + [h[n]];
    }
  }
}
