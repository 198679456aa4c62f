/** Which endings are kept for repeats in one process: over every run, in terms of the outcome and of who attached. */
module IdempotencyStored {
  import opened Basics
  import opened IdempotencyMemory
  import opened IdempotencyRuns

  // ---- no outcome that must not be repeated is ever kept ---------------------------------------------------

  /** Futures carry only outcomes that set no cookie and were kept whole. */
  ghost predicate FuturesOk(m: Memory) {
    forall o | o in m.calls && m.calls[o].done.Some? && m.calls[o].done.value.Some? ::
      !m.calls[o].done.value.value.setsCookie && m.calls[o].done.value.value.buffered
  }

  lemma StepFutures(s: System, cfg: Settings, step: Step)
    requires FuturesOk(s.memory) && Enabled(s, step)
    ensures FuturesOk(Next(s, cfg, step).memory)
  {
  }

  lemma {:induction false} ExecutionFutures(cfg: Settings, states: seq<System>, steps: seq<Step>, n: nat)
    requires Execution(cfg, states, steps) && n <= |steps|
    ensures FuturesOk(states[n].memory)
  {
    if n > 0 {
      ExecutionFutures(cfg, states, steps, n - 1);
      assert Moves(cfg, states, steps[n - 1], n - 1);
      StepFutures(states[n - 1], cfg, steps[n - 1]);
    }
  }

  lemma ProducedIsRepeatable(s: System, key: string, fingerprint: string, outcome: Outcome)
    requires FuturesOk(s.memory) && Produced(s, key, fingerprint, outcome)
    ensures !outcome.setsCookie && outcome.buffered
  {
    var o :| o in s.claims && EndedWith(s, o, key, fingerprint, outcome);
  }

  /** Over every run: no record, no future and no replay carries an outcome that sets a cookie or was streamed. */
  lemma OnlyRepeatableIsKept(cfg: Settings, states: seq<System>, steps: seq<Step>, n: nat)
    requires Execution(cfg, states, steps) && n <= |steps|
    ensures var s := states[n];
            && (forall key | key in s.memory.records && s.memory.records[key].Final? ::
                  !s.memory.records[key].outcome.setsCookie && s.memory.records[key].outcome.buffered)
            && (forall o | o in s.memory.calls && s.memory.calls[o].done.Some? && s.memory.calls[o].done.value.Some? ::
                  !s.memory.calls[o].done.value.value.setsCookie && s.memory.calls[o].done.value.value.buffered)
            && (forall i | 0 <= i < |s.callers| && s.callers[i].phase.Answered? && s.callers[i].phase.answer.Replayed? ::
                  !s.callers[i].phase.answer.outcome.setsCookie && s.callers[i].phase.answer.outcome.buffered)
  {
    var s := states[n];
    ExecutionKeeps(cfg, states, steps, n);
    ExecutionFutures(cfg, states, steps, n);
    forall key | key in s.memory.records && s.memory.records[key].Final?
      ensures !s.memory.records[key].outcome.setsCookie && s.memory.records[key].outcome.buffered
    {
      assert RecordOk(s, key);
      ProducedIsRepeatable(s, key, s.memory.records[key].fingerprint, s.memory.records[key].outcome);
    }
    forall i | 0 <= i < |s.callers| && s.callers[i].phase.Answered? && s.callers[i].phase.answer.Replayed?
      ensures !s.callers[i].phase.answer.outcome.setsCookie && s.callers[i].phase.answer.outcome.buffered
    {
      assert CallerOk(s, s.callers[i]);
      ProducedIsRepeatable(s, s.callers[i].key, s.callers[i].fingerprint, s.callers[i].phase.answer.outcome);
    }
  }

  // ---- who attached -------------------------------------------------------------------------------------------

  /** By this step a repeat comes to wait on the run. */
  predicate Attaches(t: System, step: Step, o: int) {
    step.Try? && step.caller < |t.callers| && t.callers[step.caller].phase == Waiting(o)
  }

  /** A repeat came to wait on the run before the n-th step. */
  ghost predicate RepeatAttached(states: seq<System>, steps: seq<Step>, n: nat, o: int)
    requires n <= |steps| < |states|
  {
    exists m | 0 <= m < n :: Attaches(states[m + 1], steps[m], o)
  }

  lemma RepeatAttachedNext(states: seq<System>, steps: seq<Step>, n: nat, o: int)
    requires n < |steps| < |states|
    ensures RepeatAttached(states, steps, n + 1, o) <==>
            RepeatAttached(states, steps, n, o) || Attaches(states[n + 1], steps[n], o)
  {
  }

  predicate MarkedAttached(m: Memory, o: int) {
    o in m.calls && m.calls[o].attached
  }

  lemma TryAttaches(s: System, cfg: Settings, c: nat, owner: int, o: int)
    requires Inv(s) && Enabled(s, Try(c, owner))
    ensures var t := Tried(s, cfg, c, owner);
            MarkedAttached(t.memory, o) <==> MarkedAttached(s.memory, o) || Attaches(t, Try(c, owner), o)
  {
  }

  lemma StepAttaches(s: System, cfg: Settings, step: Step, o: int)
    requires Inv(s) && Enabled(s, step)
    ensures var t := Next(s, cfg, step);
            MarkedAttached(t.memory, o) <==> MarkedAttached(s.memory, o) || Attaches(t, step, o)
  {
    if step.Try? {
      TryAttaches(s, cfg, step.caller, step.owner, o);
    }
  }

  /** Over every run, a run is marked attached exactly when some repeat has come to wait on it. */
  lemma {:induction false} AttachedExactly(cfg: Settings, states: seq<System>, steps: seq<Step>, n: nat, o: int)
    requires Execution(cfg, states, steps) && n <= |steps|
    ensures MarkedAttached(states[n].memory, o) <==> RepeatAttached(states, steps, n, o)
  {
    if n > 0 {
      AttachedExactly(cfg, states, steps, n - 1, o);
      ExecutionKeeps(cfg, states, steps, n - 1);
      assert Moves(cfg, states, steps[n - 1], n - 1);
      StepAttaches(states[n - 1], cfg, steps[n - 1], o);
      RepeatAttachedNext(states, steps, n - 1, o);
    }
  }

  // ---- what an end leaves ---------------------------------------------------------------------------------------

  /** The outcome may be given to repeats, and is: that of a safe method only when a repeat attached. */
  predicate Repeated(ending: Ending, safe: bool, attached: bool) {
    ending.Ended? && !ending.outcome.setsCookie && ending.outcome.buffered && (safe ==> attached)
  }

  lemma EndLeaves(s: System, cfg: Settings, c: nat, ending: Ending)
    requires Inv(s) && Enabled(s, End(c, ending)) && Holds(s.memory, s.callers[c].key, s.callers[c].phase.owner)
    ensures var t, caller, o := Next(s, cfg, End(c, ending)), s.callers[c], s.callers[c].phase.owner;
            && caller.key !in t.memory.runs && o in t.memory.calls
            && (if Repeated(ending, caller.safe, MarkedAttached(s.memory, o)) then
                  caller.key in t.memory.records
                  && t.memory.records[caller.key] == Final(caller.fingerprint, ending.outcome, s.now + cfg.ttl)
                else caller.key !in t.memory.records)
            && t.memory.calls[o].done == Some(
                 if ending.Ended? && !ending.outcome.setsCookie && ending.outcome.buffered then Some(ending.outcome) else None)
  {
    assert CallerOk(s, s.callers[c]) && RecordOk(s, s.callers[c].key);
  }

  /** Over every run, what the end of a call leaves of the record it holds: the outcome for the TTL exactly when the
      call ended with one that sets no cookie and was not streamed and, for a safe method, some repeat has waited on
      it; otherwise no record, and the next request under the key claims it. */
  lemma EndKeepsExactly(cfg: Settings, states: seq<System>, steps: seq<Step>, n: nat)
    requires Execution(cfg, states, steps) && n < |steps| && steps[n].End? && Enabled(states[n], steps[n])
    requires var caller := states[n].callers[steps[n].caller]; Holds(states[n].memory, caller.key, caller.phase.owner)
    ensures var caller, ending, records := states[n].callers[steps[n].caller], steps[n].ending, states[n + 1].memory.records;
            && (caller.key in records <==>
                  && ending.Ended? && !ending.outcome.setsCookie && ending.outcome.buffered
                  && (caller.safe ==> RepeatAttached(states, steps, n, caller.phase.owner)))
            && (caller.key in records ==>
                  records[caller.key] == Final(caller.fingerprint, ending.outcome, states[n].now + cfg.ttl))
  {
    ExecutionKeeps(cfg, states, steps, n);
    assert Moves(cfg, states, steps[n], n);
    EndLeaves(states[n], cfg, steps[n].caller, steps[n].ending);
    AttachedExactly(cfg, states, steps, n, states[n].callers[steps[n].caller].phase.owner);
  }

  lemma DoneStays(s: System, cfg: Settings, step: Step, o: int)
    requires Enabled(s, step) && o in s.memory.calls && s.memory.calls[o].done.Some?
    ensures var t := Next(s, cfg, step); o in t.memory.calls && t.memory.calls[o].done == s.memory.calls[o].done
  {
    if step.Try? {
      TryKeepsDone(s, cfg, step.caller, step.owner, o);
    }
  }

  lemma TryKeepsDone(s: System, cfg: Settings, c: nat, owner: int, o: int)
    requires Enabled(s, Try(c, owner)) && o in s.memory.calls
    ensures var t := Tried(s, cfg, c, owner); o in t.memory.calls && t.memory.calls[o].done == s.memory.calls[o].done
  {
  }

  lemma {:induction false} DoneUntil(cfg: Settings, states: seq<System>, steps: seq<Step>, m: nat, n: nat, o: int)
    requires Execution(cfg, states, steps) && m <= n <= |steps|
    requires o in states[m].memory.calls && states[m].memory.calls[o].done.Some?
    ensures o in states[n].memory.calls && states[n].memory.calls[o].done == states[m].memory.calls[o].done
    decreases n
  {
    if m < n {
      DoneUntil(cfg, states, steps, m, n - 1, o);
      assert Moves(cfg, states, steps[n - 1], n - 1);
      DoneStays(states[n - 1], cfg, steps[n - 1], o);
    }
  }

  lemma EndResolves(s: System, cfg: Settings, c: nat, ending: Ending)
    requires Enabled(s, End(c, ending))
    ensures var t, o := Next(s, cfg, End(c, ending)), s.callers[c].phase.owner;
            && o in t.memory.calls
            && t.memory.calls[o].done == Some(
                 if ending.Ended? && !ending.outcome.setsCookie && ending.outcome.buffered then Some(ending.outcome) else None)
  {
  }

  /** Over every run, what a repeat that waits on a call gets once that has ended, whenever it looks: the outcome, or,
      after a cancelled call or an outcome that is not to be repeated, another try. */
  lemma WaiterGets(
    cfg: Settings, states: seq<System>, steps: seq<Step>, m: nat, n: nat, waiter: nat, owner: int)
    requires Execution(cfg, states, steps) && m < n <= |steps|
    requires steps[m].End? && Enabled(states[m], steps[m]) && states[m].callers[steps[m].caller].phase == Executing(owner)
    requires waiter < |states[n].callers| && states[n].callers[waiter].phase == Waiting(owner)
    ensures Enabled(states[n], Look(waiter))
    ensures var ending := steps[m].ending;
            Next(states[n], cfg, Look(waiter)).callers[waiter].phase ==
              if ending.Ended? && !ending.outcome.setsCookie && ending.outcome.buffered then Answered(Replayed(ending.outcome))
              else Trying
  {
    assert Moves(cfg, states, steps[m], m);
    EndResolves(states[m], cfg, steps[m].caller, steps[m].ending);
    DoneUntil(cfg, states, steps, m + 1, n, owner);
  }

  // ---- renewals ---------------------------------------------------------------------------------------------------

  /** A renewal by the record's owner answers true and the record lasts a whole lock TTL from then on. */
  lemma RenewalLasts(m: Memory, cfg: Settings, key: string, owner: int, now: int)
    requires Holds(m, key, owner)
    ensures var (after, renewed) := Renewing(m, cfg, key, owner, now);
            && renewed && Holds(after, key, owner) && after.records[key].fingerprint == m.records[key].fingerprint
            && after.records[key].expiresAt == now + cfg.lockTtl
            && (forall k | k != key :: (k in after.records <==> k in m.records)
                                       && (k in m.records ==> after.records[k] == m.records[k]))
  {
  }

  /** The i-th step takes or renews the run's lock. */
  predicate Locks(states: seq<System>, steps: seq<Step>, i: nat, o: int)
    requires i < |steps| < |states|
  {
    var s, step := states[i], steps[i];
    o in states[i + 1].claims &&
    (|| (step.Try? && step.owner == o)
     || (step.Renew? && step.caller < |s.callers| && s.callers[step.caller].phase == Executing(o)))
  }

  /** The run's lock was taken or renewed less than a lock TTL ago. */
  ghost predicate LockedLately(cfg: Settings, states: seq<System>, steps: seq<Step>, n: nat, o: int)
    requires n <= |steps| < |states|
  {
    exists i | 0 <= i < n :: Locks(states, steps, i, o) && states[n].now < states[i].now + cfg.lockTtl
  }

  /** So it was all the time since its claim: its renewals are in time. */
  ghost predicate RenewedInTime(cfg: Settings, states: seq<System>, steps: seq<Step>, n: nat, o: int)
    requires n <= |steps| < |states|
  {
    forall k {:trigger LockedLately(cfg, states, steps, k, o)} | 0 <= k <= n && o in states[k].claims ::
      LockedLately(cfg, states, steps, k, o)
  }

  /** The run holds its key's record, which lasts a lock TTL from every time the lock was taken or renewed. */
  ghost predicate Locked(cfg: Settings, states: seq<System>, steps: seq<Step>, n: nat, o: int)
    requires n <= |steps| < |states|
  {
    && o in states[n].claims && Holds(states[n].memory, states[n].claims[o].key, o)
    && forall i | 0 <= i < n :: Locks(states, steps, i, o) ==> states[i].now + cfg.lockTtl <= ExpiryOf(states[n], o)
  }

  function ExpiryOf(s: System, o: int): int
    requires o in s.claims && Holds(s.memory, s.claims[o].key, o)
  {
    s.memory.records[s.claims[o].key].expiresAt
  }

  /** The run keeps the record: with the expiry it had, or a lock TTL from now. */
  ghost predicate KeepsLock(cfg: Settings, s: System, t: System, o: int, renewed: bool)
    requires o in s.claims && Holds(s.memory, s.claims[o].key, o)
  {
    && o in t.claims && t.claims[o].key == s.claims[o].key && Holds(t.memory, s.claims[o].key, o)
    && s.now <= t.now && ExpiryOf(t, o) == if renewed then s.now + cfg.lockTtl else ExpiryOf(s, o)
  }

  lemma TryLocks(s: System, cfg: Settings, c: nat, owner: int, o: int)
    requires Inv(s) && Enabled(s, Try(c, owner)) && o in s.claims && Holds(s.memory, s.claims[o].key, o)
    requires s.now < ExpiryOf(s, o)
    ensures var t := Tried(s, cfg, c, owner);
            && KeepsLock(cfg, s, t, o, false)
            && (s.callers[c].key == s.claims[o].key ==> !t.callers[c].phase.Executing? && t.claims == s.claims)
  {
    assert RecordOk(s, s.claims[o].key);
  }

  lemma StepLocks(s: System, cfg: Settings, step: Step, o: int)
    requires Inv(s) && Enabled(s, step) && o in s.claims && Holds(s.memory, s.claims[o].key, o) && s.now < ExpiryOf(s, o)
    requires Live(Next(s, cfg, step).memory, o)
    ensures KeepsLock(cfg, s, Next(s, cfg, step), o, step.Renew? && s.callers[step.caller].phase == Executing(o))
  {
    match step
    case Try(c, owner) => TryLocks(s, cfg, c, owner, o);
    case Renew(c) => assert CallerOk(s, s.callers[c]);
    case End(c, ending) => assert CallerOk(s, s.callers[c]);
    case _ =>
  }

  lemma ClaimLocks(s: System, cfg: Settings, step: Step, o: int)
    requires Enabled(s, step) && o !in s.claims && o in Next(s, cfg, step).claims
    ensures var t := Next(s, cfg, step);
            && step.Try? && step.owner == o && Holds(t.memory, t.claims[o].key, o) && ExpiryOf(t, o) == s.now + cfg.lockTtl
  {
  }

  lemma LiveBefore(s: System, cfg: Settings, step: Step, o: int)
    requires Inv(s) && Enabled(s, step) && o in s.claims && Live(Next(s, cfg, step).memory, o)
    ensures Live(s.memory, o)
  {
    assert ClaimOk(s, o);
    if !Live(s.memory, o) {
      DoneStays(s, cfg, step, o);
    }
  }

  lemma MoveLive(cfg: Settings, states: seq<System>, steps: seq<Step>, i: nat, o: int)
    requires Execution(cfg, states, steps) && i < |steps| && o in states[i].claims && Live(states[i + 1].memory, o)
    ensures Live(states[i].memory, o)
  {
    ExecutionKeeps(cfg, states, steps, i);
    assert Moves(cfg, states, steps[i], i);
    LiveBefore(states[i], cfg, steps[i], o);
  }

  lemma MoveLocks(cfg: Settings, states: seq<System>, steps: seq<Step>, i: nat, o: int)
    requires Execution(cfg, states, steps) && i < |steps| && o in states[i].claims && Live(states[i + 1].memory, o)
    requires Holds(states[i].memory, states[i].claims[o].key, o) && states[i].now < ExpiryOf(states[i], o)
    ensures KeepsLock(cfg, states[i], states[i + 1], o, Locks(states, steps, i, o))
  {
    ExecutionKeeps(cfg, states, steps, i);
    assert Moves(cfg, states, steps[i], i);
    StepLocks(states[i], cfg, steps[i], o);
  }

  lemma ClaimsGrow(s: System, cfg: Settings, step: Step, o: int)
    requires Enabled(s, step) && o in s.claims
    ensures o in Next(s, cfg, step).claims
  {
  }

  lemma {:induction false} ClaimsStay(
    cfg: Settings, states: seq<System>, steps: seq<Step>, m: nat, n: nat, o: int)
    requires Execution(cfg, states, steps) && m <= n <= |steps| && o in states[m].claims
    ensures o in states[n].claims
    decreases n
  {
    if m < n {
      ClaimsStay(cfg, states, steps, m, n - 1, o);
      assert Moves(cfg, states, steps[n - 1], n - 1);
      ClaimsGrow(states[n - 1], cfg, steps[n - 1], o);
    }
  }

  lemma ClaimIsLocked(cfg: Settings, states: seq<System>, steps: seq<Step>, n: nat, o: int)
    requires Execution(cfg, states, steps) && n < |steps| && o !in states[n].claims && o in states[n + 1].claims
    ensures Locked(cfg, states, steps, n + 1, o)
  {
    assert Moves(cfg, states, steps[n], n);
    ClaimLocks(states[n], cfg, steps[n], o);
    forall i | 0 <= i < n
      ensures !Locks(states, steps, i, o)
    {
      if Locks(states, steps, i, o) {
        ClaimsStay(cfg, states, steps, i + 1, n, o);
      }
    }
  }

  lemma LockedNext(cfg: Settings, states: seq<System>, steps: seq<Step>, n: nat, o: int)
    requires n < |steps| < |states| && Locked(cfg, states, steps, n, o)
    requires KeepsLock(cfg, states[n], states[n + 1], o, Locks(states, steps, n, o))
    requires states[n].now < ExpiryOf(states[n], o)
    requires LaterThan(states, n)
    ensures Locked(cfg, states, steps, n + 1, o)
  {
    forall i | 0 <= i < n + 1 && Locks(states, steps, i, o)
      ensures states[i].now + cfg.lockTtl <= ExpiryOf(states[n + 1], o)
    {
    }
  }

  predicate LaterThan(states: seq<System>, n: nat)
    requires n < |states|
  {
    forall i | 0 <= i < n :: states[i].now <= states[n].now
  }

  lemma {:induction false} TimePasses(cfg: Settings, states: seq<System>, steps: seq<Step>, n: nat)
    requires Execution(cfg, states, steps) && n <= |steps|
    ensures LaterThan(states, n)
  {
    if n > 0 {
      TimePasses(cfg, states, steps, n - 1);
      assert Moves(cfg, states, steps[n - 1], n - 1);
      ClockRuns(states[n - 1], cfg, steps[n - 1]);
    }
  }

  lemma ClockRuns(s: System, cfg: Settings, step: Step)
    requires Enabled(s, step)
    ensures s.now <= Next(s, cfg, step).now
  {
  }

  lemma LockedIsUnexpired(cfg: Settings, states: seq<System>, steps: seq<Step>, n: nat, o: int)
    requires n <= |steps| < |states| && Locked(cfg, states, steps, n, o) && RenewedInTime(cfg, states, steps, n, o)
    ensures states[n].now < ExpiryOf(states[n], o)
  {
    assert LockedLately(cfg, states, steps, n, o);
  }

  lemma RenewedBefore(cfg: Settings, states: seq<System>, steps: seq<Step>, n: nat, o: int)
    requires n < |steps| < |states| && RenewedInTime(cfg, states, steps, n + 1, o)
    ensures RenewedInTime(cfg, states, steps, n, o)
  {
  }

  /** Over every run: a call whose renewals are in time holds its key's record, unexpired, until it ends. */
  lemma {:induction false} RenewedKeepsTheKey(cfg: Settings, states: seq<System>, steps: seq<Step>, n: nat, o: int)
    requires Execution(cfg, states, steps) && n <= |steps|
    requires o in states[n].claims && Live(states[n].memory, o) && RenewedInTime(cfg, states, steps, n, o)
    ensures Locked(cfg, states, steps, n, o) && states[n].now < ExpiryOf(states[n], o)
  {
    if n > 0 {
      if o in states[n - 1].claims {
        MoveLive(cfg, states, steps, n - 1, o);
        RenewedBefore(cfg, states, steps, n - 1, o);
        RenewedKeepsTheKey(cfg, states, steps, n - 1, o);
        MoveLocks(cfg, states, steps, n - 1, o);
        TimePasses(cfg, states, steps, n - 1);
        LockedNext(cfg, states, steps, n - 1, o);
      } else {
        ClaimIsLocked(cfg, states, steps, n - 1, o);
      }
      LockedIsUnexpired(cfg, states, steps, n, o);
    }
  }

  /** And no other request executes under the key meanwhile: however often it tries, it waits, replays or is refused. */
  lemma RenewedIsNeverOverlapped(cfg: Settings, states: seq<System>, steps: seq<Step>, n: nat, o: int)
    requires Execution(cfg, states, steps) && n < |steps| && steps[n].Try? && Enabled(states[n], steps[n])
    requires o in states[n].claims && Live(states[n].memory, o) && RenewedInTime(cfg, states, steps, n, o)
    requires states[n].callers[steps[n].caller].key == states[n].claims[o].key
    ensures steps[n].caller < |states[n + 1].callers| && !states[n + 1].callers[steps[n].caller].phase.Executing?
    ensures states[n + 1].claims == states[n].claims
    ensures Holds(states[n + 1].memory, states[n].claims[o].key, o)
  {
    ExecutionKeeps(cfg, states, steps, n);
    assert Moves(cfg, states, steps[n], n);
    RenewedKeepsTheKey(cfg, states, steps, n, o);
    TryLocks(states[n], cfg, steps[n].caller, steps[n].owner, o);
  }

  // ---- what a request does next -----------------------------------------------------------------------------------

  /** Pruning removes exactly the expired records, and not again before the shorter TTL has passed. */
  lemma PruneRemovesExpired(m: Memory, cfg: Settings, now: int, later: int)
    ensures var p := Pruned(m, cfg, now);
            && p.runs == m.runs && p.calls == m.calls
            && (now < m.nextPrune ==> p == m)
            && (m.nextPrune <= now ==>
                  && (forall k :: k in p.records <==> k in m.records && now < m.records[k].expiresAt)
                  && (forall k | k in p.records :: p.records[k] == m.records[k])
                  && (now <= later < now + Min(cfg.ttl, cfg.lockTtl) ==> Pruned(p, cfg, later) == p)
                  && p.nextPrune == now + Min(cfg.ttl, cfg.lockTtl))
  {
  }

  /** The key's record that has not expired. */
  function Unexpired(m: Memory, key: string, now: int): Option<Record> {
    if key in m.records && now < m.records[key].expiresAt then Some(m.records[key]) else None
  }

  /** What a try finds and does: with no unexpired record the request executes and holds the key for the lock TTL;
      another request's record refuses it; an outcome is replayed; and a running call is waited on. */
  lemma TryExactly(s: System, cfg: Settings, c: nat, owner: int)
    requires Inv(s) && Enabled(s, Try(c, owner))
    ensures var t, caller := Next(s, cfg, Try(c, owner)), s.callers[c];
            var record := Unexpired(s.memory, caller.key, s.now);
            c < |t.callers| && t.callers[c] == caller.(phase := t.callers[c].phase) &&
            (if record.None? then
               && t.callers[c].phase == Executing(owner) && Holds(t.memory, caller.key, owner)
               && t.memory.records[caller.key] == Running(caller.fingerprint, owner, s.now + cfg.lockTtl)
               && t.claims == s.claims[owner := Claim(caller.key, caller.fingerprint, s.now + cfg.lockTtl)]
             else
               && t.claims == s.claims && Unexpired(t.memory, caller.key, s.now) == record
               && t.callers[c].phase ==
                    if record.value.fingerprint != caller.fingerprint then Answered(Reused)
                    else if record.value.Final? then Answered(Replayed(record.value.outcome))
                    else Waiting(record.value.owner))
  {
    if s.callers[c].key in s.memory.records {
      assert RecordOk(s, s.callers[c].key);
    }
  }

  /** A repeat that looks before the call it waits on has ended goes on waiting exactly as long as the key has an
      unexpired record, and tries again then. */
  lemma LookExactly(s: System, cfg: Settings, c: nat)
    requires Inv(s) && Enabled(s, Look(c)) && Live(s.memory, s.callers[c].phase.owner)
    ensures var t := Next(s, cfg, Look(c));
            if Unexpired(s.memory, s.callers[c].key, s.now).Some? then t == s
            else t == s.(callers := s.callers[c := s.callers[c].(phase := Trying)])
  {
  }
}
