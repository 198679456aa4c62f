/** Exactly once: one key, repeated while its record has not expired. */
module IdempotencyOnce {
  import opened Basics
  import opened IdempotencyMemory
  import opened IdempotencyRuns

  /** The key's record, if any, has not expired: renewals were in time, and so are the repeats. */
  predicate Timely(s: System, key: string) {
    key in s.memory.records ==> s.memory.records[key].expiresAt > s.now
  }

  /** Requests under the key are one request, of a method whose outcome is stored, and end with an outcome that
      can be. */
  predicate SameRequest(s: System, step: Step, key: string, fingerprint: string) {
    match step
    case Arrive(k, f, safe) => k == key ==> f == fingerprint && !safe
    case End(c, ending) => c < |s.callers| && s.callers[c].key == key ==> Storable(ending)
    case _ => true
  }

  /** The outcome an answer carries. */
  function OutcomeOf(a: Answer): Option<Outcome> {
    match a
    case Executed(Ended(outcome)) => Some(outcome)
    case Replayed(outcome) => Some(outcome)
    case _ => None
  }

  predicate CallerOnce(s: System, caller: Caller, key: string, fingerprint: string, first: Option<int>) {
    caller.key == key ==>
      && caller.fingerprint == fingerprint && !caller.safe
      && match caller.phase
         case Trying => true
         case Executing(o) => first == Some(o)
         case Waiting(o) => first == Some(o)
         case Answered(answer) =>
           first.Some? && first.value in s.memory.calls && OutcomeOf(answer).Some?
           && s.memory.calls[first.value].done == Some(OutcomeOf(answer))
  }

  /** The record of the key tells how far its one run is. */
  predicate RecordOnce(m: Memory, key: string, fingerprint: string, first: Option<int>) {
    if first.None? then key !in m.records
    else
      && first.value in m.calls && key in m.records && m.records[key].fingerprint == fingerprint
      && (if m.records[key].Running? then m.records[key].owner == first.value && m.calls[first.value].done.None?
          else m.calls[first.value].done == Some(Some(m.records[key].outcome)))
  }

  /** `first` is the only run ever claimed under the key. */
  ghost predicate Once(s: System, key: string, fingerprint: string, first: Option<int>) {
    && RecordOnce(s.memory, key, fingerprint, first)
    && (forall o | o in s.claims && s.claims[o].key == key :: first == Some(o))
    && (forall i | 0 <= i < |s.callers| :: CallerOnce(s, s.callers[i], key, fingerprint, first))
  }

  lemma PruneLeaves(m: Memory, cfg: Settings, now: int, key: string)
    requires key in m.records ==> m.records[key].expiresAt > now
    ensures var p := Pruned(m, cfg, now);
            && p.runs == m.runs && p.calls == m.calls && (key in p.records <==> key in m.records)
            && (key in m.records ==> p.records[key] == m.records[key])
  {
  }

  lemma TryOther(s: System, cfg: Settings, c: nat, owner: int, key: string, fingerprint: string, first: Option<int>)
    requires Inv(s) && Enabled(s, Try(c, owner)) && Timely(s, key) && Once(s, key, fingerprint, first)
    requires s.callers[c].key != key
    ensures Once(Tried(s, cfg, c, owner), key, fingerprint, first)
  {
    var t := Tried(s, cfg, c, owner);
    OthersKeepRecord(s, cfg, c, owner, key);
    TriedCallers(s, cfg, c, owner);
    forall i | 0 <= i < |t.callers|
      ensures CallerOnce(t, t.callers[i], key, fingerprint, first)
    {
      assert CallerOnce(s, s.callers[i], key, fingerprint, first);
    }
  }

  lemma TriedCallers(s: System, cfg: Settings, c: nat, owner: int)
    requires Enabled(s, Try(c, owner))
    ensures var t := Tried(s, cfg, c, owner);
            && |t.callers| == |s.callers| && t.callers[c].key == s.callers[c].key
            && forall i | 0 <= i < |s.callers| && i != c :: t.callers[i] == s.callers[i]
  {
  }

  lemma OthersKeepRecord(s: System, cfg: Settings, c: nat, owner: int, key: string)
    requires Inv(s) && Enabled(s, Try(c, owner)) && Timely(s, key) && s.callers[c].key != key
    ensures var t := Tried(s, cfg, c, owner);
            && (key in t.memory.records <==> key in s.memory.records)
            && (key in s.memory.records ==> t.memory.records[key] == s.memory.records[key])
            && (forall o | o in s.memory.calls :: o in t.memory.calls && t.memory.calls[o].done == s.memory.calls[o].done)
            && (forall o | o in t.claims && t.claims[o].key == key :: o in s.claims && s.claims[o].key == key)
  {
    PruneLeaves(s.memory, cfg, s.now, key);
    PruneKeeps(s, cfg);
    var p := s.(memory := Pruned(s.memory, cfg, s.now));
    if s.callers[c].key in p.memory.records {
      HeldKeeps(p, c);
    }
  }

  lemma TryFirst(s: System, cfg: Settings, c: nat, owner: int, key: string, fingerprint: string)
    requires Inv(s) && Enabled(s, Try(c, owner)) && Once(s, key, fingerprint, None) && s.callers[c].key == key
    ensures Once(Tried(s, cfg, c, owner), key, fingerprint, Some(owner))
  {
    PruneLeaves(s.memory, cfg, s.now, key);
    var t := Tried(s, cfg, c, owner);
    assert CallerOnce(s, s.callers[c], key, fingerprint, None);
    forall i | 0 <= i < |t.callers|
      ensures CallerOnce(t, t.callers[i], key, fingerprint, Some(owner))
    {
      assert CallerOnce(s, s.callers[i], key, fingerprint, None);
    }
  }

  /** A repeat while the record is there waits on its run or gets its outcome. */
  lemma TryRepeat(s: System, cfg: Settings, c: nat, owner: int, key: string, fingerprint: string, o: int)
    requires Inv(s) && Enabled(s, Try(c, owner)) && Timely(s, key) && Once(s, key, fingerprint, Some(o))
    requires s.callers[c].key == key
    ensures Once(Tried(s, cfg, c, owner), key, fingerprint, Some(o))
  {
    PruneLeaves(s.memory, cfg, s.now, key);
    PruneKeeps(s, cfg);
    HeldKeeps(s.(memory := Pruned(s.memory, cfg, s.now)), c);
    var t := Tried(s, cfg, c, owner);
    assert CallerOnce(s, s.callers[c], key, fingerprint, Some(o));
    forall i | 0 <= i < |t.callers|
      ensures CallerOnce(t, t.callers[i], key, fingerprint, Some(o))
    {
      assert CallerOnce(s, s.callers[i], key, fingerprint, Some(o));
    }
  }

  lemma EndOnce(s: System, cfg: Settings, c: nat, ending: Ending, key: string, fingerprint: string, first: Option<int>)
    requires Inv(s) && Enabled(s, End(c, ending)) && Once(s, key, fingerprint, first)
    requires SameRequest(s, End(c, ending), key, fingerprint)
    ensures Once(Next(s, cfg, End(c, ending)), key, fingerprint, first)
  {
    var t, owner := Next(s, cfg, End(c, ending)), s.callers[c].phase.owner;
    assert CallerOk(s, s.callers[c]);
    assert CallerOnce(s, s.callers[c], key, fingerprint, first);
    assert first.Some? && key in s.memory.records ==> RecordOk(s, key);
    forall i | 0 <= i < |t.callers|
      ensures CallerOnce(t, t.callers[i], key, fingerprint, first)
    {
      assert CallerOnce(s, s.callers[i], key, fingerprint, first);
    }
  }

  lemma LookOnce(s: System, cfg: Settings, c: nat, key: string, fingerprint: string, first: Option<int>)
    requires Inv(s) && Enabled(s, Look(c)) && Once(s, key, fingerprint, first)
    ensures Once(Next(s, cfg, Look(c)), key, fingerprint, first)
  {
    var t := Next(s, cfg, Look(c));
    assert CallerOnce(s, s.callers[c], key, fingerprint, first);
    forall i | 0 <= i < |t.callers|
      ensures CallerOnce(t, t.callers[i], key, fingerprint, first)
    {
      assert CallerOnce(s, s.callers[i], key, fingerprint, first);
    }
  }

  lemma QuietOnce(s: System, cfg: Settings, step: Step, key: string, fingerprint: string, first: Option<int>)
    requires Inv(s) && Enabled(s, step) && Once(s, key, fingerprint, first) && SameRequest(s, step, key, fingerprint)
    requires step.Arrive? || step.Tick? || step.Renew?
    ensures Once(Next(s, cfg, step), key, fingerprint, first)
  {
    var t := Next(s, cfg, step);
    forall i | 0 <= i < |t.callers|
      ensures CallerOnce(t, t.callers[i], key, fingerprint, first)
    {
      assert i < |s.callers| ==> CallerOnce(s, s.callers[i], key, fingerprint, first);
    }
  }

  lemma StepOnce(s: System, cfg: Settings, step: Step, key: string, fingerprint: string, first: Option<int>)
    returns (next: Option<int>)
    requires Inv(s) && Enabled(s, step) && Timely(s, key)
    requires Once(s, key, fingerprint, first) && SameRequest(s, step, key, fingerprint)
    ensures Once(Next(s, cfg, step), key, fingerprint, next) && (first.Some? ==> next == first)
  {
    next := first;
    match step
    case Try(c, owner) =>
      if s.callers[c].key != key {
        TryOther(s, cfg, c, owner, key, fingerprint, first);
      } else if first.None? {
        TryFirst(s, cfg, c, owner, key, fingerprint);
        next := Some(owner);
      } else {
        TryRepeat(s, cfg, c, owner, key, fingerprint, first.value);
      }
    case Look(c) => LookOnce(s, cfg, c, key, fingerprint, first);
    case End(c, ending) => EndOnce(s, cfg, c, ending, key, fingerprint, first);
    case _ => QuietOnce(s, cfg, step, key, fingerprint, first);
  }

  lemma {:induction false} ExecutionOnce(
    cfg: Settings, states: seq<System>, steps: seq<Step>, n: nat, key: string, fingerprint: string)
    returns (first: Option<int>)
    requires Execution(cfg, states, steps) && n <= |steps|
    requires forall i | 0 <= i < n :: Timely(states[i], key) && SameRequest(states[i], steps[i], key, fingerprint)
    ensures Once(states[n], key, fingerprint, first)
  {
    if n == 0 {
      first := None;
    } else {
      first := ExecutionOnce(cfg, states, steps, n - 1, key, fingerprint);
      ExecutionKeeps(cfg, states, steps, n - 1);
      assert Moves(cfg, states, steps[n - 1], n - 1);
      first := StepOnce(states[n - 1], cfg, steps[n - 1], key, fingerprint, first);
    }
  }

  /** Repeats of one request under one key, while its record has not expired: the action runs once, and every
      answer carries its outcome. */
  lemma RunsOnceAnswersAlike(
    cfg: Settings, states: seq<System>, steps: seq<Step>, n: nat, key: string, fingerprint: string)
    requires Execution(cfg, states, steps) && n <= |steps|
    requires forall i | 0 <= i < n :: Timely(states[i], key) && SameRequest(states[i], steps[i], key, fingerprint)
    ensures forall a, b | a in states[n].claims && b in states[n].claims
                          && states[n].claims[a].key == key && states[n].claims[b].key == key :: a == b
    ensures forall i, j | 0 <= i < |states[n].callers| && 0 <= j < |states[n].callers|
                          && AnsweredUnder(states[n].callers[i], key) && AnsweredUnder(states[n].callers[j], key) ::
              OutcomeOf(states[n].callers[i].phase.answer).Some?
              && OutcomeOf(states[n].callers[i].phase.answer) == OutcomeOf(states[n].callers[j].phase.answer)
  {
    var first := ExecutionOnce(cfg, states, steps, n, key, fingerprint);
    forall i | 0 <= i < |states[n].callers| && AnsweredUnder(states[n].callers[i], key)
      ensures first.Some? && OutcomeOf(states[n].callers[i].phase.answer).Some?
      ensures first.value in states[n].memory.calls
              && states[n].memory.calls[first.value].done == Some(OutcomeOf(states[n].callers[i].phase.answer))
    {
      assert CallerOnce(states[n], states[n].callers[i], key, fingerprint, first);
    }
  }

  predicate AnsweredUnder(caller: Caller, key: string) {
    caller.key == key && caller.phase.Answered?
  }
}
