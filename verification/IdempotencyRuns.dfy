/** Requests of one process through the in-process idempotency store, in any interleaving. */
module IdempotencyRuns {
  import opened Basics
  import opened IdempotencyMemory

  /** A claim that succeeded, and how long its lock lasts by its own last claim or renewal. */
  datatype Claim = Claim(key: string, fingerprint: string, lockUntil: int)

  datatype Answer = Executed(ending: Ending) | Replayed(outcome: Outcome) | Reused

  datatype Phase = Trying | Executing(owner: int) | Waiting(owner: int) | Answered(answer: Answer)

  /** A request with an `Idempotency-Key`. */
  datatype Caller = Caller(key: string, fingerprint: string, safe: bool, phase: Phase)

  datatype System = System(memory: Memory, now: int, claims: map<int, Claim>, callers: seq<Caller>)

  datatype Step =
    | Arrive(key: string, fingerprint: string, safe: bool)
    | Try(caller: nat, owner: int)
    | Look(caller: nat)
    | Renew(caller: nat)
    | End(caller: nat, ending: Ending)
    | Tick(ms: nat)

  function Initial(now: int): System {
    System(Memory(map[], map[], map[], 0), now, map[], [])
  }

  /** What may happen next. Owners are fresh; that a run has its call is kept by every step. */
  predicate Enabled(s: System, step: Step) {
    match step
    case Arrive(_, _, _) => true
    case Tick(_) => true
    case Try(c, owner) =>
      && c < |s.callers| && s.callers[c].phase.Trying? && owner !in s.claims && owner !in s.memory.calls
      && (s.callers[c].key in s.memory.runs ==> s.memory.runs[s.callers[c].key] in s.memory.calls)
    case Look(c) => c < |s.callers| && s.callers[c].phase.Waiting? && s.callers[c].phase.owner in s.memory.calls
    case Renew(c) => c < |s.callers| && s.callers[c].phase.Executing? && s.callers[c].phase.owner in s.claims
    case End(c, _) =>
      && c < |s.callers| && s.callers[c].phase.Executing?
      && s.callers[c].phase.owner in s.memory.calls && s.memory.calls[s.callers[c].phase.owner].done.None?
  }

  function Moved(s: System, c: nat, phase: Phase): System
    requires c < |s.callers|
  {
    s.(callers := s.callers[c := s.callers[c].(phase := phase)])
  }

  /** One pass of the loop: claim, or attach to the running call, or answer. */
  function Tried(s: System, cfg: Settings, c: nat, owner: int): System
    requires Enabled(s, Try(c, owner))
  {
    var caller := s.callers[c];
    var (m, claimed) := Claiming(s.memory, cfg, caller.key, caller.fingerprint, owner, s.now);
    match claimed
    case Mine(_) =>
      Moved(s.(memory := m,
               claims := s.claims[owner := Claim(caller.key, caller.fingerprint, s.now + cfg.lockTtl)]),
            c, Executing(owner))
    case Held(record) =>
      if record.fingerprint != caller.fingerprint then Moved(s.(memory := m), c, Answered(Reused))
      else if record.Final? then Moved(s.(memory := m), c, Answered(Replayed(record.outcome)))
      else
        var (n, run) := Attaching(m, caller.key);
        Moved(s.(memory := n), c, if run.Some? then Waiting(run.value) else Trying)
  }

  function Next(s: System, cfg: Settings, step: Step): System
    requires Enabled(s, step)
  {
    match step
    case Arrive(key, fingerprint, safe) => s.(callers := s.callers + [Caller(key, fingerprint, safe, Trying)])
    case Tick(ms) => s.(now := s.now + ms)
    case Try(c, owner) => Tried(s, cfg, c, owner)
    case Look(c) =>
      (match Looking(s.memory, s.callers[c].key, s.callers[c].phase.owner, s.now)
       case ClaimAgain => Moved(s, c, Trying)
       case KeepWaiting => s
       case Replay(outcome) => Moved(s, c, Answered(Replayed(outcome))))
    case Renew(c) =>
      var owner := s.callers[c].phase.owner;
      var (m, renewed) := Renewing(s.memory, cfg, s.callers[c].key, owner, s.now);
      if renewed then s.(memory := m, claims := s.claims[owner := s.claims[owner].(lockUntil := s.now + cfg.lockTtl)])
      else s
    case End(c, ending) =>
      var owner := s.callers[c].phase.owner;
      Moved(s.(memory := Finishing(s.memory, cfg, s.callers[c].key, owner, ending, s.callers[c].safe, s.now)),
            c, Answered(Executed(ending)))
  }

  // ---- the invariant ------------------------------------------------------------------------------------

  predicate Live(m: Memory, owner: int) {
    owner in m.calls && m.calls[owner].done.None?
  }

  /** Some run claimed under the key with the fingerprint ended with the outcome. */
  ghost predicate Produced(s: System, key: string, fingerprint: string, outcome: Outcome) {
    exists o | o in s.claims :: EndedWith(s, o, key, fingerprint, outcome)
  }

  predicate EndedWith(s: System, o: int, key: string, fingerprint: string, outcome: Outcome) {
    && o in s.claims && s.claims[o].key == key && s.claims[o].fingerprint == fingerprint
    && o in s.memory.calls && s.memory.calls[o].done == Some(Some(outcome))
  }

  predicate ClaimedAs(s: System, o: int, key: string, fingerprint: string) {
    o in s.claims && o in s.memory.calls && s.claims[o].key == key && s.claims[o].fingerprint == fingerprint
  }

  /** A running record is of a live run of this process and expires when its lock does. */
  ghost predicate RecordOk(s: System, key: string)
    requires key in s.memory.records
  {
    match s.memory.records[key]
    case Running(fingerprint, o, expiresAt) =>
      && ClaimedAs(s, o, key, fingerprint) && s.claims[o].lockUntil == expiresAt
      && Live(s.memory, o) && key in s.memory.runs && s.memory.runs[key] == o
    case Final(fingerprint, outcome, _) => Produced(s, key, fingerprint, outcome)
  }

  /** A live run whose lock has not expired holds the key's record. */
  predicate ClaimOk(s: System, o: int)
    requires o in s.claims
  {
    && o in s.memory.calls
    && (Live(s.memory, o) && s.claims[o].lockUntil > s.now ==> Holds(s.memory, s.claims[o].key, o))
  }

  predicate RunOk(s: System, key: string)
    requires key in s.memory.runs
  {
    var o := s.memory.runs[key];
    o in s.claims && s.claims[o].key == key && Live(s.memory, o)
  }

  ghost predicate CallerOk(s: System, caller: Caller) {
    match caller.phase
    case Trying => true
    case Executing(o) => ClaimedAs(s, o, caller.key, caller.fingerprint) && Live(s.memory, o)
    case Waiting(o) => ClaimedAs(s, o, caller.key, caller.fingerprint) && s.memory.calls[o].attached
    case Answered(Replayed(outcome)) => Produced(s, caller.key, caller.fingerprint, outcome)
    case Answered(_) => true
  }

  ghost predicate RecordsOk(s: System) {
    forall k | k in s.memory.records :: RecordOk(s, k)
  }

  ghost predicate ClaimsOk(s: System) {
    forall o | o in s.claims :: ClaimOk(s, o)
  }

  ghost predicate RunsOk(s: System) {
    forall k | k in s.memory.runs :: RunOk(s, k)
  }

  ghost predicate CallersOk(s: System) {
    forall i | 0 <= i < |s.callers| :: CallerOk(s, s.callers[i])
  }

  /** Each run is executed by one caller. */
  ghost predicate OwnersDiffer(s: System) {
    forall i, j | 0 <= i < j < |s.callers| && s.callers[i].phase.Executing? && s.callers[j].phase.Executing? ::
      s.callers[i].phase.owner != s.callers[j].phase.owner
  }

  ghost predicate Inv(s: System) {
    RecordsOk(s) && ClaimsOk(s) && RunsOk(s) && CallersOk(s) && OwnersDiffer(s)
  }

  // ---- every step keeps it ----------------------------------------------------------------------------------

  /** Claims keep their key and fingerprint, and an outcome once known stays. */
  ghost predicate Grows(s: System, t: System) {
    && (forall o | o in s.claims ::
          o in t.claims && t.claims[o].key == s.claims[o].key && t.claims[o].fingerprint == s.claims[o].fingerprint)
    && (forall o | o in s.memory.calls ::
          && o in t.memory.calls && (s.memory.calls[o].attached ==> t.memory.calls[o].attached)
          && (s.memory.calls[o].done.Some? ==> t.memory.calls[o].done == s.memory.calls[o].done))
  }

  lemma ProducedStays(s: System, t: System, key: string, fingerprint: string, outcome: Outcome)
    requires Grows(s, t) && Produced(s, key, fingerprint, outcome)
    ensures Produced(t, key, fingerprint, outcome)
  {
    var o :| o in s.claims && EndedWith(s, o, key, fingerprint, outcome);
    assert EndedWith(t, o, key, fingerprint, outcome);
  }

  /** No call ended between the two states. */
  ghost predicate NoneEnded(s: System, t: System) {
    forall o | Live(s.memory, o) :: Live(t.memory, o)
  }

  lemma CallerStays(s: System, t: System, caller: Caller)
    requires Grows(s, t) && CallerOk(s, caller)
    requires caller.phase.Executing? && Live(s.memory, caller.phase.owner) ==> Live(t.memory, caller.phase.owner)
    ensures CallerOk(t, caller)
  {
    match caller.phase
    case Answered(Replayed(outcome)) => ProducedStays(s, t, caller.key, caller.fingerprint, outcome);
    case _ =>
  }

  lemma CallersStay(s: System, t: System)
    requires Grows(s, t) && CallersOk(s) && NoneEnded(s, t) && t.callers == s.callers
    ensures CallersOk(t)
  {
    forall i | 0 <= i < |t.callers|
      ensures CallerOk(t, t.callers[i])
    {
      CallerStays(s, t, s.callers[i]);
    }
  }

  /** A record that a step leaves as it is. */
  lemma RecordStays(s: System, t: System, key: string)
    requires key in s.memory.records && key in t.memory.records && RecordOk(s, key)
    requires t.memory.records[key] == s.memory.records[key] && Grows(s, t)
    requires var r := s.memory.records[key];
             r.Running? ==>
               && Live(t.memory, r.owner) && t.claims[r.owner].lockUntil == r.expiresAt
               && key in t.memory.runs && t.memory.runs[key] == r.owner
    ensures RecordOk(t, key)
  {
    match s.memory.records[key]
    case Running(_, _, _) =>
    case Final(fingerprint, outcome, _) => ProducedStays(s, t, key, fingerprint, outcome);
  }

  // a claim

  lemma PruneKeeps(s: System, cfg: Settings)
    requires Inv(s)
    ensures Inv(s.(memory := Pruned(s.memory, cfg, s.now)))
  {
    var t := s.(memory := Pruned(s.memory, cfg, s.now));
    forall k | k in t.memory.records
      ensures RecordOk(t, k)
    {
      RecordStays(s, t, k);
    }
    forall o | o in t.claims
      ensures ClaimOk(t, o)
    {
      assert ClaimOk(s, o);
      if Live(s.memory, o) && s.claims[o].lockUntil > s.now {
        assert RecordOk(s, s.claims[o].key);
      }
    }
    assert forall k | k in t.memory.runs :: RunOk(s, k);
    CallersStay(s, t);
  }

  /** The state after a new record replaces no record or an expired one. */
  function Taken(s: System, cfg: Settings, c: nat, owner: int): System
    requires c < |s.callers|
  {
    var caller := s.callers[c];
    Moved(s.(memory := s.memory.(
               records := s.memory.records[caller.key := Running(caller.fingerprint, owner, s.now + cfg.lockTtl)],
               runs := s.memory.runs[caller.key := owner],
               calls := s.memory.calls[owner := Run(false, None)]),
             claims := s.claims[owner := Claim(caller.key, caller.fingerprint, s.now + cfg.lockTtl)]),
          c, Executing(owner))
  }

  lemma TakenGrows(s: System, cfg: Settings, c: nat, owner: int)
    requires c < |s.callers| && owner !in s.claims && owner !in s.memory.calls
    ensures Grows(s, Taken(s, cfg, c, owner))
    ensures forall o | Live(s.memory, o) :: Live(Taken(s, cfg, c, owner).memory, o)
  {
  }

  lemma TakenRecords(s: System, cfg: Settings, c: nat, owner: int)
    requires Inv(s) && c < |s.callers| && owner !in s.claims && owner !in s.memory.calls
    ensures RecordsOk(Taken(s, cfg, c, owner)) && RunsOk(Taken(s, cfg, c, owner))
  {
    var t, key := Taken(s, cfg, c, owner), s.callers[c].key;
    TakenGrows(s, cfg, c, owner);
    forall k | k in t.memory.records
      ensures RecordOk(t, k)
    {
      if k != key {
        assert RecordOk(s, k);
        RecordStays(s, t, k);
      }
    }
    forall k | k in t.memory.runs
      ensures RunOk(t, k)
    {
      assert k != key ==> RunOk(s, k);
    }
  }

  /** A claim succeeds only once the lock of every other run of the key that has not ended has expired. */
  lemma ClaimMeansExpired(s: System, key: string, o: int)
    requires Inv(s) && o in s.claims && s.claims[o].key == key && Live(s.memory, o)
    requires key in s.memory.records ==> s.memory.records[key].expiresAt <= s.now
    ensures s.claims[o].lockUntil <= s.now
  {
    assert ClaimOk(s, o);
    assert key in s.memory.records ==> RecordOk(s, key);
  }

  lemma TakenClaims(s: System, cfg: Settings, c: nat, owner: int)
    requires Inv(s) && c < |s.callers| && owner !in s.claims && owner !in s.memory.calls
    requires s.callers[c].key in s.memory.records ==> s.memory.records[s.callers[c].key].expiresAt <= s.now
    ensures ClaimsOk(Taken(s, cfg, c, owner))
  {
    var t, key := Taken(s, cfg, c, owner), s.callers[c].key;
    forall o | o in t.claims
      ensures ClaimOk(t, o)
    {
      if o != owner {
        assert ClaimOk(s, o);
        if Live(s.memory, o) && s.claims[o].key == key {
          ClaimMeansExpired(s, key, o);
        }
      }
    }
  }

  lemma TakenCallers(s: System, cfg: Settings, c: nat, owner: int)
    requires Inv(s) && c < |s.callers| && owner !in s.claims && owner !in s.memory.calls
    ensures CallersOk(Taken(s, cfg, c, owner)) && OwnersDiffer(Taken(s, cfg, c, owner))
  {
    var t := Taken(s, cfg, c, owner);
    TakenGrows(s, cfg, c, owner);
    forall i | 0 <= i < |t.callers|
      ensures CallerOk(t, t.callers[i])
      ensures i != c && t.callers[i].phase.Executing? ==> t.callers[i].phase.owner != owner
    {
      if i != c {
        assert CallerOk(s, s.callers[i]);
        CallerStays(s, t, s.callers[i]);
      }
    }
  }

  /** One caller moves on and nothing else changes. */
  lemma MoveKeeps(s: System, c: nat, phase: Phase)
    requires Inv(s) && c < |s.callers| && !phase.Executing?
    requires CallerOk(s, s.callers[c].(phase := phase))
    ensures Inv(Moved(s, c, phase))
  {
    var t := Moved(s, c, phase);
    forall k | k in t.memory.records
      ensures RecordOk(t, k)
    {
      RecordStays(s, t, k);
    }
    assert forall o | o in t.claims :: ClaimOk(s, o);
    assert forall k | k in t.memory.runs :: RunOk(s, k);
    forall i | 0 <= i < |t.callers|
      ensures CallerOk(t, t.callers[i])
    {
      CallerStays(s, t, t.callers[i]);
    }
  }

  lemma AttachKeeps(s: System, key: string)
    requires Inv(s) && key in s.memory.runs
    ensures Attaching(s.memory, key).1 == Some(s.memory.runs[key])
    ensures Inv(s.(memory := Attaching(s.memory, key).0))
  {
    assert RunOk(s, key);
    var t := s.(memory := Attaching(s.memory, key).0);
    forall k | k in t.memory.records
      ensures RecordOk(t, k)
    {
      assert RecordOk(s, k);
      RecordStays(s, t, k);
    }
    forall o | o in t.claims
      ensures ClaimOk(t, o)
    {
      assert ClaimOk(s, o);
    }
    assert forall k | k in t.memory.runs :: RunOk(s, k);
    CallersStay(s, t);
  }

  lemma HeldKeeps(s: System, c: nat)
    requires Inv(s) && c < |s.callers| && s.callers[c].key in s.memory.records
    ensures var caller, record := s.callers[c], s.memory.records[s.callers[c].key];
            if record.fingerprint != caller.fingerprint then Inv(Moved(s, c, Answered(Reused)))
            else if record.Final? then Inv(Moved(s, c, Answered(Replayed(record.outcome))))
            else
              && caller.key in s.memory.runs && s.memory.runs[caller.key] in s.memory.calls
              && var (m, run) := Attaching(s.memory, caller.key);
                 run == Some(record.owner) && Inv(Moved(s.(memory := m), c, Waiting(record.owner)))
  {
    var caller, record := s.callers[c], s.memory.records[s.callers[c].key];
    assert RecordOk(s, caller.key);
    if record.fingerprint != caller.fingerprint {
      MoveKeeps(s, c, Answered(Reused));
    } else if record.Final? {
      MoveKeeps(s, c, Answered(Replayed(record.outcome)));
    } else {
      AttachKeeps(s, caller.key);
      MoveKeeps(s.(memory := Attaching(s.memory, caller.key).0), c, Waiting(record.owner));
    }
  }

  lemma TakenKeeps(s: System, cfg: Settings, c: nat, owner: int)
    requires Inv(s) && c < |s.callers| && owner !in s.claims && owner !in s.memory.calls
    requires s.callers[c].key in s.memory.records ==> s.memory.records[s.callers[c].key].expiresAt <= s.now
    ensures Inv(Taken(s, cfg, c, owner))
  {
    TakenRecords(s, cfg, c, owner);
    TakenClaims(s, cfg, c, owner);
    TakenCallers(s, cfg, c, owner);
  }

  lemma TryKeeps(s: System, cfg: Settings, c: nat, owner: int)
    requires Inv(s) && Enabled(s, Try(c, owner))
    ensures Inv(Tried(s, cfg, c, owner))
  {
    PruneKeeps(s, cfg);
    var p := s.(memory := Pruned(s.memory, cfg, s.now));
    var caller := s.callers[c];
    if Claiming(s.memory, cfg, caller.key, caller.fingerprint, owner, s.now).1.Mine? {
      TakenKeeps(p, cfg, c, owner);
      assert Tried(s, cfg, c, owner) == Taken(p, cfg, c, owner);
    } else {
      HeldKeeps(p, c);
    }
  }

  // a renewal

  lemma RenewKeeps(s: System, cfg: Settings, c: nat)
    requires Inv(s) && Enabled(s, Renew(c))
    ensures Inv(Next(s, cfg, Renew(c)))
  {
    var t, key, owner := Next(s, cfg, Renew(c)), s.callers[c].key, s.callers[c].phase.owner;
    if Holds(s.memory, key, owner) {
      assert CallerOk(s, s.callers[c]);
      assert RecordOk(s, key);
      forall k | k in t.memory.records
        ensures RecordOk(t, k)
      {
        assert RecordOk(s, k);
        if k != key {
          RecordStays(s, t, k);
        }
      }
      forall o | o in t.claims
        ensures ClaimOk(t, o)
      {
        assert ClaimOk(s, o);
      }
      assert forall k | k in t.memory.runs :: RunOk(s, k);
      CallersStay(s, t);
    }
  }

  // an end

  lemma EndGrows(s: System, cfg: Settings, c: nat, ending: Ending)
    requires Inv(s) && Enabled(s, End(c, ending))
    ensures var t, owner := Next(s, cfg, End(c, ending)), s.callers[c].phase.owner;
            && Grows(s, t) && t.claims == s.claims && t.memory.calls[owner].done == Some(Kept(ending))
            && (forall o | o != owner && Live(s.memory, o) :: Live(t.memory, o))
  {
  }

  lemma EndRecords(s: System, cfg: Settings, c: nat, ending: Ending)
    requires Inv(s) && Enabled(s, End(c, ending))
    ensures RecordsOk(Next(s, cfg, End(c, ending)))
  {
    var t, key, owner := Next(s, cfg, End(c, ending)), s.callers[c].key, s.callers[c].phase.owner;
    EndGrows(s, cfg, c, ending);
    assert CallerOk(s, s.callers[c]);
    forall k | k in t.memory.records
      ensures RecordOk(t, k)
    {
      assert RecordOk(s, k);
      if t.memory.records[k] != s.memory.records[k] {
        assert EndedWith(t, owner, key, s.claims[owner].fingerprint, ending.outcome);
      } else if s.memory.records[k].Final? || s.memory.records[k].owner != owner {
        RecordStays(s, t, k);
      }
    }
  }

  lemma EndClaims(s: System, cfg: Settings, c: nat, ending: Ending)
    requires Inv(s) && Enabled(s, End(c, ending))
    ensures ClaimsOk(Next(s, cfg, End(c, ending))) && RunsOk(Next(s, cfg, End(c, ending)))
  {
    var t, owner := Next(s, cfg, End(c, ending)), s.callers[c].phase.owner;
    EndGrows(s, cfg, c, ending);
    assert CallerOk(s, s.callers[c]);
    forall o | o in t.claims
      ensures ClaimOk(t, o)
    {
      assert ClaimOk(s, o);
    }
    forall k | k in t.memory.runs
      ensures RunOk(t, k)
    {
      assert RunOk(s, k);
    }
  }

  lemma EndCallers(s: System, cfg: Settings, c: nat, ending: Ending)
    requires Inv(s) && Enabled(s, End(c, ending))
    ensures CallersOk(Next(s, cfg, End(c, ending))) && OwnersDiffer(Next(s, cfg, End(c, ending)))
  {
    var t := Next(s, cfg, End(c, ending));
    EndGrows(s, cfg, c, ending);
    forall i | 0 <= i < |t.callers|
      ensures CallerOk(t, t.callers[i])
    {
      if i != c {
        assert CallerOk(s, s.callers[i]);
        assert s.callers[i].phase.Executing? ==> s.callers[i].phase.owner != s.callers[c].phase.owner;
        CallerStays(s, t, s.callers[i]);
      }
    }
  }

  lemma TickKeeps(s: System, ms: nat)
    requires Inv(s)
    ensures Inv(s.(now := s.now + ms))
  {
    var t := s.(now := s.now + ms);
    forall k | k in t.memory.records
      ensures RecordOk(t, k)
    {
      RecordStays(s, t, k);
    }
    assert forall o | o in t.claims :: ClaimOk(s, o);
    assert forall k | k in t.memory.runs :: RunOk(s, k);
    CallersStay(s, t);
  }

  lemma ArriveKeeps(s: System, caller: Caller)
    requires Inv(s) && caller.phase.Trying?
    ensures Inv(s.(callers := s.callers + [caller]))
  {
    var t := s.(callers := s.callers + [caller]);
    forall k | k in t.memory.records
      ensures RecordOk(t, k)
    {
      RecordStays(s, t, k);
    }
    assert forall o | o in t.claims :: ClaimOk(s, o);
    assert forall k | k in t.memory.runs :: RunOk(s, k);
    forall i | 0 <= i < |t.callers|
      ensures CallerOk(t, t.callers[i])
    {
      CallerStays(s, t, t.callers[i]);
    }
  }

  lemma LookKeeps(s: System, cfg: Settings, c: nat)
    requires Inv(s) && Enabled(s, Look(c))
    ensures Inv(Next(s, cfg, Look(c)))
  {
    assert CallerOk(s, s.callers[c]);
    match Looking(s.memory, s.callers[c].key, s.callers[c].phase.owner, s.now)
    case ClaimAgain => MoveKeeps(s, c, Trying);
    case KeepWaiting =>
    case Replay(outcome) =>
      assert EndedWith(s, s.callers[c].phase.owner, s.callers[c].key, s.callers[c].fingerprint, outcome);
      MoveKeeps(s, c, Answered(Replayed(outcome)));
  }

  lemma StepKeeps(s: System, cfg: Settings, step: Step)
    requires Inv(s) && Enabled(s, step)
    ensures Inv(Next(s, cfg, step))
  {
    match step
    case Arrive(key, fingerprint, safe) => ArriveKeeps(s, Caller(key, fingerprint, safe, Trying));
    case Tick(ms) => TickKeeps(s, ms);
    case Try(c, owner) => TryKeeps(s, cfg, c, owner);
    case Look(c) => LookKeeps(s, cfg, c);
    case Renew(c) => RenewKeeps(s, cfg, c);
    case End(c, ending) =>
      EndRecords(s, cfg, c, ending);
      EndClaims(s, cfg, c, ending);
      EndCallers(s, cfg, c, ending);
  }

  /** No step is shut out but by how far its request is. */
  lemma OnlyPhasesGuard(s: System, c: nat, owner: int, ending: Ending)
    requires Inv(s) && c < |s.callers|
    ensures s.callers[c].phase.Trying? && owner !in s.claims && owner !in s.memory.calls ==> Enabled(s, Try(c, owner))
    ensures s.callers[c].phase.Waiting? ==> Enabled(s, Look(c))
    ensures s.callers[c].phase.Executing? ==> Enabled(s, Renew(c)) && Enabled(s, End(c, ending))
  {
    assert CallerOk(s, s.callers[c]);
    if s.callers[c].key in s.memory.runs {
      assert RunOk(s, s.callers[c].key);
    }
  }

  // ---- every run ----------------------------------------------------------------------------------------

  ghost predicate Moves(cfg: Settings, states: seq<System>, step: Step, i: nat)
    requires i + 1 < |states|
  {
    Enabled(states[i], step) && states[i + 1] == Next(states[i], cfg, step)
  }

  ghost predicate Execution(cfg: Settings, states: seq<System>, steps: seq<Step>) {
    && |states| == |steps| + 1 && states[0] == Initial(states[0].now)
    && forall i {:trigger Moves(cfg, states, steps[i], i)} | 0 <= i < |steps| :: Moves(cfg, states, steps[i], i)
  }

  lemma {:induction false} ExecutionKeeps(cfg: Settings, states: seq<System>, steps: seq<Step>, n: nat)
    requires Execution(cfg, states, steps) && n <= |steps|
    ensures Inv(states[n])
  {
    if n > 0 {
      ExecutionKeeps(cfg, states, steps, n - 1);
      assert Moves(cfg, states, steps[n - 1], n - 1);
      StepKeeps(states[n - 1], cfg, steps[n - 1]);
    }
  }

  /** A running record is of the run the process keeps for its key, so a repeat that finds one has a run to wait
      on and the removal of an ownerless record is never reached. */
  lemma RunningRecordHasItsRun(cfg: Settings, states: seq<System>, steps: seq<Step>, n: nat, key: string)
    requires Execution(cfg, states, steps) && n <= |steps|
    requires var r := states[n].memory.records; key in r && r[key].Running?
    ensures var m := states[n].memory;
            && key in m.runs && m.runs[key] == m.records[key].owner
            && Live(m, m.runs[key]) && Attaching(m, key).1 == Some(m.runs[key])
  {
    ExecutionKeeps(cfg, states, steps, n);
    assert RecordOk(states[n], key);
  }

  /** At most one run of a key has an unexpired lock. */
  lemma OneLockHolder(cfg: Settings, states: seq<System>, steps: seq<Step>, n: nat, a: int, b: int)
    requires Execution(cfg, states, steps) && n <= |steps|
    requires a in states[n].claims && b in states[n].claims && states[n].claims[a].key == states[n].claims[b].key
    requires Live(states[n].memory, a) && states[n].claims[a].lockUntil > states[n].now
    requires Live(states[n].memory, b) && states[n].claims[b].lockUntil > states[n].now
    ensures a == b
  {
    ExecutionKeeps(cfg, states, steps, n);
    assert ClaimOk(states[n], a) && ClaimOk(states[n], b);
  }

  /** A second run of a key starts only once the lock of every run of it that has not ended has expired. */
  lemma OverlapOnlyAfterExpiry(cfg: Settings, states: seq<System>, steps: seq<Step>, n: nat, o: int)
    requires Execution(cfg, states, steps) && n < |steps| && steps[n].Try? && Enabled(states[n], steps[n])
    requires steps[n].caller < |states[n + 1].callers| && states[n + 1].callers[steps[n].caller].phase.Executing?
    requires o in states[n].claims && states[n].claims[o].key == states[n].callers[steps[n].caller].key
    requires Live(states[n].memory, o)
    ensures states[n].claims[o].lockUntil <= states[n].now
  {
    var s, c := states[n], steps[n].caller;
    ExecutionKeeps(cfg, states, steps, n);
    assert Moves(cfg, states, steps[n], n);
    PruneKeeps(s, cfg);
    var p := s.(memory := Pruned(s.memory, cfg, s.now));
    HeldNeverExecutes(s, cfg, c, steps[n].owner);
    ClaimMeansExpired(p, s.callers[c].key, o);
  }

  lemma HeldNeverExecutes(s: System, cfg: Settings, c: nat, owner: int)
    requires Enabled(s, Try(c, owner)) && Tried(s, cfg, c, owner).callers[c].phase.Executing?
    ensures var m := Pruned(s.memory, cfg, s.now);
            s.callers[c].key in m.records ==> m.records[s.callers[c].key].expiresAt <= s.now
  {
  }

  /** A replay is the outcome of a run claimed under the same key with the same fingerprint. */
  lemma ReplayIsOfTheSameRequest(cfg: Settings, states: seq<System>, steps: seq<Step>, n: nat, i: nat, outcome: Outcome)
    requires Execution(cfg, states, steps) && n <= |steps| && i < |states[n].callers|
    requires states[n].callers[i].phase == Answered(Replayed(outcome))
    ensures Produced(states[n], states[n].callers[i].key, states[n].callers[i].fingerprint, outcome)
  {
    ExecutionKeeps(cfg, states, steps, n);
    assert CallerOk(states[n], states[n].callers[i]);
  }

  /** A run changes no record but its own: not another key's, and not its key's once another run took it. */
  lemma LostRunChangesNothing(cfg: Settings, states: seq<System>, steps: seq<Step>, n: nat, key: string)
    requires Execution(cfg, states, steps) && n < |steps| && (steps[n].Renew? || steps[n].End?)
    requires Enabled(states[n], steps[n])
    requires !Holds(states[n].memory, key, states[n].callers[steps[n].caller].phase.owner)
    ensures var a, b := states[n].memory, states[n + 1].memory;
            && (key in a.records <==> key in b.records)
            && (key in a.records ==> a.records[key] == b.records[key])
            && (key in a.runs && a.runs[key] != states[n].callers[steps[n].caller].phase.owner ==>
                  key in b.runs && b.runs[key] == a.runs[key])
  {
    assert Moves(cfg, states, steps[n], n);
  }

  /** A run that ends while a repeat waits on it has its storable outcome kept, whatever the method. */
  lemma AttachedOutcomeIsKept(
    cfg: Settings, states: seq<System>, steps: seq<Step>, n: nat, waiter: nat, owner: int)
    requires Execution(cfg, states, steps) && n < |steps| && waiter < |states[n].callers|
    requires states[n].callers[waiter].phase == Waiting(owner)
    requires steps[n].End? && Enabled(states[n], steps[n]) && Storable(steps[n].ending)
    requires states[n].callers[steps[n].caller].phase == Executing(owner)
    requires Holds(states[n].memory, states[n].callers[waiter].key, owner)
    ensures var key := states[n].callers[waiter].key;
            && key in states[n + 1].memory.records
            && states[n + 1].memory.records[key] ==
                 Final(states[n].callers[waiter].fingerprint, steps[n].ending.outcome, states[n].now + cfg.ttl)
  {
    ExecutionKeeps(cfg, states, steps, n);
    assert Moves(cfg, states, steps[n], n);
    assert CallerOk(states[n], states[n].callers[waiter]) && CallerOk(states[n], states[n].callers[steps[n].caller]);
    assert RecordOk(states[n], states[n].callers[waiter].key);
  }
}
