/** The in-process idempotency store: the records, the runs of this process, and the operations on them. */
module IdempotencyMemory {
  import opened Basics

  /** What a call answered: its result or error, whether it sets a cookie and whether its body is kept in
      memory (a streamed one is not). */
  datatype Outcome = Outcome(answer: string, setsCookie: bool, buffered: bool)

  /** How a call ended; `Cancelled` also stands for a dispatch error. */
  datatype Ending = Cancelled | Ended(outcome: Outcome)

  datatype Mode = Never | Attached | Always

  /** A key's record: of the running call, or of its outcome. */
  datatype Record =
    | Running(fingerprint: string, owner: int, expiresAt: int)
    | Final(fingerprint: string, outcome: Outcome, expiresAt: int)

  /** A call this process runs; `done` is its future. */
  datatype Run = Run(attached: bool, done: Option<Option<Outcome>>)

  datatype Settings = Settings(ttl: int, lockTtl: int)

  datatype Memory = Memory(records: map<string, Record>, runs: map<string, int>, calls: map<int, Run>, nextPrune: int)

  datatype Claimed = Mine(owner: int) | Held(record: Record)

  /** What a repeat does next: claims the key again, waits on, or answers. */
  datatype Woken = ClaimAgain | KeepWaiting | Replay(outcome: Outcome)

  function Storable(ending: Ending): bool {
    ending.Ended? && !ending.outcome.setsCookie && ending.outcome.buffered
  }

  /** What in-process repeats get. */
  function Kept(ending: Ending): Option<Outcome> {
    if Storable(ending) then Some(ending.outcome) else None
  }

  function ModeOf(ending: Ending, safe: bool): Mode {
    if !Storable(ending) then Never else if safe then Attached else Always
  }

  // ---- the operations as functions --------------------------------------------------------------------

  function Pruned(m: Memory, s: Settings, now: int): Memory {
    if now < m.nextPrune then m
    else m.(records := map k | k in m.records && m.records[k].expiresAt > now :: m.records[k],
            nextPrune := now + if s.ttl < s.lockTtl then s.ttl else s.lockTtl)
  }

  /** The key's unexpired record, or a new running one with its run. */
  function Claiming(m: Memory, s: Settings, key: string, fingerprint: string, owner: int, now: int): (Memory, Claimed) {
    var p := Pruned(m, s, now);
    if key in p.records && p.records[key].expiresAt > now then (p, Held(p.records[key]))
    else
      (p.(records := p.records[key := Running(fingerprint, owner, now + s.lockTtl)],
          runs := p.runs[key := owner],
          calls := p.calls[owner := Run(false, None)]),
       Mine(owner))
  }

  predicate Holds(m: Memory, key: string, owner: int) {
    key in m.records && m.records[key].Running? && m.records[key].owner == owner
  }

  function Renewing(m: Memory, s: Settings, key: string, owner: int, now: int): (Memory, bool) {
    if !Holds(m, key, owner) then (m, false)
    else (m.(records := m.records[key := Running(m.records[key].fingerprint, owner, now + s.lockTtl)]), true)
  }

  function Recording(m: Memory, s: Settings, key: string, owner: int, outcome: Option<Outcome>, mode: Mode, now: int): Memory
    requires owner in m.calls && (mode != Never ==> outcome.Some?)
  {
    if !Holds(m, key, owner) then m
    else if mode == Always || (mode == Attached && m.calls[owner].attached) then
      m.(records := m.records[key := Final(m.records[key].fingerprint, outcome.value, now + s.ttl)])
    else m.(records := m.records - {key})
  }

  /** The record stored or deleted, the run forgotten and its future resolved. */
  function Finishing(m: Memory, s: Settings, key: string, owner: int, ending: Ending, safe: bool, now: int): Memory
    requires owner in m.calls && m.calls[owner].done.None?
  {
    var r := Recording(m, s, key, owner, Kept(ending), ModeOf(ending, safe), now);
    r.(runs := if key in r.runs && r.runs[key] == owner then r.runs - {key} else r.runs,
       calls := r.calls[owner := r.calls[owner].(done := Some(Kept(ending)))])
  }

  /** A repeat of a running call: it marks this process's run and waits on it; a running record without one
      is removed. */
  function Attaching(m: Memory, key: string): (Memory, Option<int>)
    requires key in m.runs ==> m.runs[key] in m.calls
  {
    if key in m.runs then
      (m.(calls := m.calls[m.runs[key] := m.calls[m.runs[key]].(attached := true)]), Some(m.runs[key]))
    else (m.(records := m.records - {key}), None)
  }

  /** A waiting repeat looks: at the run's future, then at the lock of the key's record. */
  function Looking(m: Memory, key: string, owner: int, now: int): Woken
    requires owner in m.calls
  {
    var done := m.calls[owner].done;
    if done.Some? then (if done.value.Some? then Replay(done.value.value) else ClaimAgain)
    else if key in m.records && m.records[key].expiresAt > now then KeepWaiting
    else ClaimAgain
  }

  // ---- the store ----------------------------------------------------------------------------------------

  class Idempotency {
    const settings: Settings
    var records: map<string, Record>
    var runs: map<string, int>
    var calls: map<int, Run>
    var nextPrune: int

    function View(): Memory
      reads this
    {
      Memory(records, runs, calls, nextPrune)
    }

    constructor (settings: Settings)
      ensures View() == Memory(map[], map[], map[], 0) && this.settings == settings
    {
      this.settings := settings;
      records, runs, calls, nextPrune := map[], map[], map[], 0;
    }

    method Prune(now: int)
      modifies this
      ensures View() == Pruned(old(View()), settings, now)
    {
      if now < nextPrune {
        return;
      }
      records := map k | k in records && records[k].expiresAt > now :: records[k];
      nextPrune := now + if settings.ttl < settings.lockTtl then settings.ttl else settings.lockTtl;
    }

    method Claim(key: string, fingerprint: string, owner: int, now: int) returns (r: Claimed)
      modifies this
      ensures (View(), r) == Claiming(old(View()), settings, key, fingerprint, owner, now)
    {
      Prune(now);
      if key in records && records[key].expiresAt > now {
        return Held(records[key]);
      }
      records := records[key := Running(fingerprint, owner, now + settings.lockTtl)];
      runs := runs[key := owner];
      calls := calls[owner := Run(false, None)];
      r := Mine(owner);
    }

    method Renew(key: string, owner: int, now: int) returns (renewed: bool)
      modifies this
      ensures (View(), renewed) == Renewing(old(View()), settings, key, owner, now)
    {
      if key !in records || !records[key].Running? || records[key].owner != owner {
        return false;
      }
      records := records[key := Running(records[key].fingerprint, owner, now + settings.lockTtl)];
      renewed := true;
    }

    method FinishRecord(key: string, owner: int, outcome: Option<Outcome>, mode: Mode, now: int)
      requires owner in calls && (mode != Never ==> outcome.Some?)
      modifies this
      ensures View() == Recording(old(View()), settings, key, owner, outcome, mode, now)
    {
      if key !in records || !records[key].Running? || records[key].owner != owner {
        return;
      }
      if mode == Always || (mode == Attached && calls[owner].attached) {
        records := records[key := Final(records[key].fingerprint, outcome.value, now + settings.ttl)];
      } else {
        records := records - {key};
      }
    }

    method Finish(key: string, owner: int, ending: Ending, safe: bool, now: int)
      requires owner in calls && calls[owner].done.None?
      modifies this
      ensures View() == Finishing(old(View()), settings, key, owner, ending, safe, now)
    {
      var outcome := None;
      var mode := Never;
      if ending.Ended? && !ending.outcome.setsCookie && ending.outcome.buffered {
        outcome := Some(ending.outcome);
        mode := if safe then Attached else Always;
      }
      FinishRecord(key, owner, outcome, mode, now);
      if key in runs && runs[key] == owner {
        runs := runs - {key};
      }
      calls := calls[owner := calls[owner].(done := Some(outcome))];
    }

    method Attach(key: string) returns (waitsFor: Option<int>)
      requires key in runs ==> runs[key] in calls
      modifies this
      ensures (View(), waitsFor) == Attaching(old(View()), key)
    {
      if key in runs {
        var owner := runs[key];
        calls := calls[owner := calls[owner].(attached := true)];
        return Some(owner);
      }
      records := records - {key};
      waitsFor := None;
    }

    method Look(key: string, owner: int, now: int) returns (r: Woken)
      requires owner in calls
      ensures r == Looking(View(), key, owner, now)
    {
      var done := calls[owner].done;
      if done.Some? {
        return if done.value.Some? then Replay(done.value.value) else ClaimAgain;
      }
      var remaining := if key in records then records[key].expiresAt - now else 0;
      r := if remaining <= 0 then ClaimAgain else KeepWaiting;
    }
  }
}
