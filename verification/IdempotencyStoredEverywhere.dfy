/** Which endings are kept for repeats in Redis, and how long a call keeps its key: over every run of any processes. */
module IdempotencyStoredEverywhere {
  import opened Basics
  import opened IdempotencyMemory
  import opened IdempotencyRedis
  import opened IdempotencyProcesses
  import opened IdempotencyCauses

  // ---- no outcome that must not be repeated is ever kept ---------------------------------------------------

  /** Calls end for their repeats only with outcomes that set no cookie and were kept whole, and so do replays. */
  ghost predicate EndingsOk(s: System) {
    && (forall o | o in s.calls && s.calls[o].ended.Some? && s.calls[o].ended.value.Some? ::
          !s.calls[o].ended.value.value.setsCookie && s.calls[o].ended.value.value.buffered)
    && (forall i | 0 <= i < |s.callers| :: ReplayOk(s.callers[i]))
  }

  predicate ReplayOk(caller: Caller) {
    caller.phase.Answered? && caller.phase.answer.Replayed? ==>
      !caller.phase.answer.outcome.setsCookie && caller.phase.answer.outcome.buffered
  }

  lemma ProducedIsRepeatable(s: System, fingerprint: string, outcome: Outcome)
    requires EndingsOk(s) && Produced(s, fingerprint, outcome)
    ensures !outcome.setsCookie && outcome.buffered
  {
    var o :| o in s.claims && EndedWith(s, o, fingerprint, outcome);
  }

  lemma AnsweringIsOk(s: System, value: Option<Value>, caller: Caller)
    requires EndingsOk(s) && (value.Some? ==> ValueOk(s, value.value))
    ensures var phase := Answering(value, caller.fingerprint);
            phase.Some? ==> ReplayOk(caller.(phase := phase.value))
  {
    if value.Some? && value.value.DoneValue? {
      ProducedIsRepeatable(s, value.value.fingerprint, value.value.outcome);
    }
  }

  lemma StepCalls(s: System, cfg: Settings, step: Step)
    requires EndingsOk(s) && Enabled(s, step)
    ensures var t := Next(s, cfg, step);
            forall o | o in t.calls && t.calls[o].ended.Some? && t.calls[o].ended.value.Some? ::
              !t.calls[o].ended.value.value.setsCookie && t.calls[o].ended.value.value.buffered
  {
  }

  lemma MoverReplays(s: System, cfg: Settings, step: Step)
    requires Inv(s) && EndingsOk(s) && Enabled(s, step) && !step.Arrive? && !step.Tick?
    ensures step.caller < |Next(s, cfg, step).callers| && ReplayOk(Next(s, cfg, step).callers[step.caller])
  {
    var caller := s.callers[step.caller];
    assert PhaseOk(s, caller) && ReplayOk(caller);
    if step.Decide? {
      AnsweringIsOk(s, caller.phase.value, caller);
    } else if step.RemoteFetch? || step.RemoteLook? {
      AnsweringIsOk(s, Alive(s.slot.record, s.now), caller);
    }
  }

  lemma StepEndings(s: System, cfg: Settings, step: Step)
    requires Inv(s) && EndingsOk(s) && Enabled(s, step)
    ensures EndingsOk(Next(s, cfg, step))
  {
    var t := Next(s, cfg, step);
    StepCalls(s, cfg, step);
    forall i | 0 <= i < |t.callers|
      ensures ReplayOk(t.callers[i])
    {
      if step.Arrive? && i == |s.callers| {
        assert t.callers[i].phase == Trying;
      } else if step.Arrive? || step.Tick? || step.caller != i {
        StepMovesOne(s, cfg, step, i);
      } else {
        MoverReplays(s, cfg, step);
      }
    }
  }

  lemma {:induction false} ExecutionEndings(cfg: Settings, states: seq<System>, steps: seq<Step>, n: nat)
    requires Execution(cfg, states, steps) && n <= |steps|
    ensures EndingsOk(states[n])
  {
    if n > 0 {
      ExecutionEndings(cfg, states, steps, n - 1);
      ExecutionKeeps(cfg, states, steps, n - 1);
      assert Moves(cfg, states, steps[n - 1], n - 1);
      StepEndings(states[n - 1], cfg, steps[n - 1]);
    }
  }

  /** Over every run: neither the record in Redis, nor a call's future, nor a replay carries an outcome that sets a
      cookie or was streamed. */
  lemma OnlyRepeatableIsKept(cfg: Settings, states: seq<System>, steps: seq<Step>, n: nat)
    requires Execution(cfg, states, steps) && n <= |steps|
    ensures var s := states[n];
            && (s.slot.record.Some? && s.slot.record.value.value.DoneValue? ==>
                  !s.slot.record.value.value.outcome.setsCookie && s.slot.record.value.value.outcome.buffered)
            && (forall o | o in s.calls && s.calls[o].ended.Some? && s.calls[o].ended.value.Some? ::
                  !s.calls[o].ended.value.value.setsCookie && s.calls[o].ended.value.value.buffered)
            && (forall i | 0 <= i < |s.callers| && s.callers[i].phase.Answered? && s.callers[i].phase.answer.Replayed? ::
                  !s.callers[i].phase.answer.outcome.setsCookie && s.callers[i].phase.answer.outcome.buffered)
  {
    var s := states[n];
    ExecutionKeeps(cfg, states, steps, n);
    ExecutionEndings(cfg, states, steps, n);
    if s.slot.record.Some? && s.slot.record.value.value.DoneValue? {
      ProducedIsRepeatable(s, s.slot.record.value.value.fingerprint, s.slot.record.value.value.outcome);
    }
    assert forall i | 0 <= i < |s.callers| :: ReplayOk(s.callers[i]);
  }

  lemma ClaimsGrow(s: System, cfg: Settings, step: Step, o: int)
    requires Enabled(s, step) && o in s.claims
    ensures o in Next(s, cfg, step).claims
  {
  }

  lemma {:induction false} ClaimsStay(
    cfg: Settings, states: seq<System>, steps: seq<Step>, m: nat, n: nat, o: int)
    requires Execution(cfg, states, steps) && m <= n <= |steps| && o in states[m].claims
    ensures o in states[n].claims
    decreases n
  {
    if m < n {
      ClaimsStay(cfg, states, steps, m, n - 1, o);
      assert Moves(cfg, states, steps[n - 1], n - 1);
      ClaimsGrow(states[n - 1], cfg, steps[n - 1], o);
    }
  }

  // ---- who attached -------------------------------------------------------------------------------------------

  /** By this step a repeat in the call's process comes to wait on it. */
  predicate AttachesHere(t: System, step: Step, o: int) {
    step.Decide? && step.caller < |t.callers| && t.callers[step.caller].phase == WaitsHere(o)
  }

  /** By this step a repeat elsewhere marks the running record that it read and that is still there. */
  predicate MarksElsewhere(s: System, step: Step, running: Value) {
    && step.Mark? && step.caller < |s.callers| && s.callers[step.caller].phase == RemoteRead(running)
    && Alive(s.slot.record, s.now) == Some(running)
  }

  ghost predicate RepeatHere(states: seq<System>, steps: seq<Step>, n: nat, o: int)
    requires n <= |steps| < |states|
  {
    exists m | 0 <= m < n :: AttachesHere(states[m + 1], steps[m], o)
  }

  ghost predicate RepeatElsewhere(states: seq<System>, steps: seq<Step>, n: nat, running: Value)
    requires n <= |steps| < |states|
  {
    exists m | 0 <= m < n :: MarksElsewhere(states[m], steps[m], running)
  }

  lemma RepeatNext(states: seq<System>, steps: seq<Step>, n: nat, o: int, running: Value)
    requires n < |steps| < |states|
    ensures RepeatHere(states, steps, n + 1, o) <==>
            RepeatHere(states, steps, n, o) || AttachesHere(states[n + 1], steps[n], o)
    ensures RepeatElsewhere(states, steps, n + 1, running) <==>
            RepeatElsewhere(states, steps, n, running) || MarksElsewhere(states[n], steps[n], running)
  {
  }

  predicate MarkedAttached(s: System, o: int) {
    o in s.calls && s.calls[o].attached
  }

  lemma StepAttaches(s: System, cfg: Settings, step: Step, o: int)
    requires Inv(s) && Enabled(s, step)
    ensures var t := Next(s, cfg, step);
            MarkedAttached(t, o) <==> MarkedAttached(s, o) || AttachesHere(t, step, o)
  {
  }

  /** Over every run, a call is marked attached in its process exactly when a repeat there has come to wait on it. */
  lemma {:induction false} AttachedExactly(cfg: Settings, states: seq<System>, steps: seq<Step>, n: nat, o: int)
    requires Execution(cfg, states, steps) && n <= |steps|
    ensures MarkedAttached(states[n], o) <==> RepeatHere(states, steps, n, o)
  {
    if n > 0 {
      AttachedExactly(cfg, states, steps, n - 1, o);
      ExecutionKeeps(cfg, states, steps, n - 1);
      assert Moves(cfg, states, steps[n - 1], n - 1);
      StepAttaches(states[n - 1], cfg, steps[n - 1], o);
      RepeatNext(states, steps, n - 1, o, Flag);
    }
  }

  /** The running record is there, and marked or not. */
  predicate IsMarked(s: System, running: Value) {
    Alive(s.slot.record, s.now) == Some(running) && Alive(s.slot.mark, s.now).Some?
  }

  lemma StepMarks(s: System, cfg: Settings, step: Step, running: Value)
    requires Inv(s) && Enabled(s, step) && running.RunningValue?
    requires Alive(Next(s, cfg, step).slot.record, Next(s, cfg, step).now) == Some(running)
    ensures IsMarked(Next(s, cfg, step), running) <==> IsMarked(s, running) || MarksElsewhere(s, step, running)
  {
    assert MarkBeside(s.slot, s.now);
    match step
    case Write(c, owner) =>
    case Mark(c) => assert PhaseOk(s, s.callers[c]);
    case Renew(c) =>
    case Finish(c, ending, encodes, reached) =>
    case Tick(ms) =>
    case _ =>
  }

  lemma MarksAreOfClaims(s: System, step: Step, running: Value)
    requires Inv(s) && MarksElsewhere(s, step, running)
    ensures running.RunningValue? && running.owner in s.claims
  {
    assert PhaseOk(s, s.callers[step.caller]);
  }

  /** A running record that is there after a step was there before, or the step claimed the key for it. */
  lemma RunningBefore(s: System, cfg: Settings, step: Step, running: Value)
    requires Inv(s) && Enabled(s, step) && running.RunningValue? && running.owner in s.claims
    requires Alive(Next(s, cfg, step).slot.record, Next(s, cfg, step).now) == Some(running)
    ensures Alive(s.slot.record, s.now) == Some(running)
  {
  }

  lemma NoRepeatBeforeClaim(
    cfg: Settings, states: seq<System>, steps: seq<Step>, n: nat, running: Value)
    requires Execution(cfg, states, steps) && n <= |steps| && running.RunningValue? && running.owner !in states[n].claims
    ensures !RepeatElsewhere(states, steps, n, running)
  {
    forall m | 0 <= m < n
      ensures !MarksElsewhere(states[m], steps[m], running)
    {
      ExecutionKeeps(cfg, states, steps, m);
      if MarksElsewhere(states[m], steps[m], running) {
        MarksAreOfClaims(states[m], steps[m], running);
        ClaimsStay(cfg, states, steps, m, n, running.owner);
      }
    }
  }

  lemma MarkMove(cfg: Settings, states: seq<System>, steps: seq<Step>, i: nat, running: Value)
    requires Execution(cfg, states, steps) && i < |steps| && running.RunningValue?
    requires Alive(states[i + 1].slot.record, states[i + 1].now) == Some(running)
    ensures IsMarked(states[i + 1], running) <==>
            IsMarked(states[i], running) || MarksElsewhere(states[i], steps[i], running)
    ensures Alive(states[i].slot.record, states[i].now) == Some(running) <==> running.owner in states[i].claims
  {
    ExecutionKeeps(cfg, states, steps, i);
    assert Moves(cfg, states, steps[i], i);
    StepMarks(states[i], cfg, steps[i], running);
    if running.owner in states[i].claims {
      RunningBefore(states[i], cfg, steps[i], running);
    } else {
      NotThereYet(states[i], running);
    }
  }

  lemma NotThereYet(s: System, running: Value)
    requires Inv(s) && running.RunningValue? && running.owner !in s.claims
    ensures Alive(s.slot.record, s.now) != Some(running)
  {
  }

  /** Over every run, the mark stands beside a running record exactly when a repeat elsewhere has marked that very
      record. */
  lemma {:induction false} MarkedExactly(
    cfg: Settings, states: seq<System>, steps: seq<Step>, n: nat, running: Value)
    requires Execution(cfg, states, steps) && n <= |steps| && running.RunningValue?
    requires Alive(states[n].slot.record, states[n].now) == Some(running)
    ensures Alive(states[n].slot.mark, states[n].now).Some? <==> RepeatElsewhere(states, steps, n, running)
  {
    if n > 0 {
      MarkMove(cfg, states, steps, n - 1, running);
      RepeatNext(states, steps, n - 1, 0, running);
      if running.owner in states[n - 1].claims {
        MarkedExactly(cfg, states, steps, n - 1, running);
      } else {
        NoRepeatBeforeClaim(cfg, states, steps, n - 1, running);
      }
    }
  }

  // ---- what an end leaves ---------------------------------------------------------------------------------------

  /** The outcome may be given to repeats, and is: that of a safe method only when there was a repeat. */
  predicate Repeated(ending: Ending, encodes: bool, safe: bool, repeated: bool) {
    encodes && ending.Ended? && !ending.outcome.setsCookie && ending.outcome.buffered && (safe ==> repeated)
  }

  /** The record an ended call leaves: its outcome for the TTL, or none. */
  function Left(caller: Caller, ending: Ending, now: int, cfg: Settings, kept: bool): Option<Entry>
    requires kept ==> ending.Ended?
  {
    if kept then Some(Entry(DoneValue(caller.fingerprint, ending.outcome), now + cfg.ttl)) else None
  }

  lemma FinishLeaves(s: System, cfg: Settings, c: nat, ending: Ending, encodes: bool)
    requires Inv(s) && Enabled(s, Finish(c, ending, encodes, true))
    requires Alive(s.slot.record, s.now) == Some(RunningOf(s, s.callers[c].phase.owner))
    ensures var repeated := MarkedAttached(s, s.callers[c].phase.owner) || Alive(s.slot.mark, s.now).Some?;
            Next(s, cfg, Finish(c, ending, encodes, true)).slot ==
              Slot(Left(s.callers[c], ending, s.now, cfg, Repeated(ending, encodes, s.callers[c].safe, repeated)), None)
  {
    assert PhaseOk(s, s.callers[c]);
  }

  lemma FinishMove(cfg: Settings, states: seq<System>, steps: seq<Step>, n: nat, c: nat, ending: Ending, encodes: bool)
    requires Execution(cfg, states, steps) && n < |steps| && steps[n] == Finish(c, ending, encodes, true)
    requires Enabled(states[n], steps[n])
    requires Alive(states[n].slot.record, states[n].now) == Some(RunningOf(states[n], states[n].callers[c].phase.owner))
    ensures var s := states[n];
            var repeated := MarkedAttached(s, s.callers[c].phase.owner) || Alive(s.slot.mark, s.now).Some?;
            states[n + 1].slot ==
              Slot(Left(s.callers[c], ending, s.now, cfg, Repeated(ending, encodes, s.callers[c].safe, repeated)), None)
  {
    ExecutionKeeps(cfg, states, steps, n);
    assert Moves(cfg, states, steps[n], n);
    FinishLeaves(states[n], cfg, c, ending, encodes);
  }

  /** Over every run, what a finish script that finds its call's record leaves of it: the outcome for the TTL exactly
      when the call ended with one that sets no cookie, was not streamed and can be encoded and, for a safe method,
      some repeat has come to wait on the call in its process or has marked its record elsewhere; otherwise no record,
      and the next request claims the key. */
  lemma FinishKeepsExactly(
    cfg: Settings, states: seq<System>, steps: seq<Step>, n: nat, c: nat, ending: Ending, encodes: bool)
    requires Execution(cfg, states, steps) && n < |steps| && steps[n] == Finish(c, ending, encodes, true)
    requires Enabled(states[n], steps[n])
    requires Alive(states[n].slot.record, states[n].now) == Some(RunningOf(states[n], states[n].callers[c].phase.owner))
    ensures var s, o := states[n], states[n].callers[c].phase.owner;
            var repeated := RepeatHere(states, steps, n, o) || RepeatElsewhere(states, steps, n, RunningOf(s, o));
            states[n + 1].slot ==
              Slot(Left(s.callers[c], ending, s.now, cfg, Repeated(ending, encodes, s.callers[c].safe, repeated)), None)
  {
    var o := states[n].callers[c].phase.owner;
    FinishMove(cfg, states, steps, n, c, ending, encodes);
    AttachedExactly(cfg, states, steps, n, o);
    MarkedExactly(cfg, states, steps, n, RunningOf(states[n], o));
  }

  // ---- what those who wait get ----------------------------------------------------------------------------------

  lemma EndedStays(s: System, cfg: Settings, step: Step, o: int)
    requires Inv(s) && Enabled(s, step) && o in s.calls && s.calls[o].ended.Some?
    ensures var t := Next(s, cfg, step); o in t.calls && t.calls[o].ended == s.calls[o].ended
  {
    StepGrows(s, cfg, step);
  }

  lemma {:induction false} EndedUntil(cfg: Settings, states: seq<System>, steps: seq<Step>, m: nat, n: nat, o: int)
    requires Execution(cfg, states, steps) && m <= n <= |steps|
    requires o in states[m].calls && states[m].calls[o].ended.Some?
    ensures o in states[n].calls && states[n].calls[o].ended == states[m].calls[o].ended
    decreases n
  {
    if m < n {
      EndedUntil(cfg, states, steps, m, n - 1, o);
      ExecutionKeeps(cfg, states, steps, n - 1);
      assert Moves(cfg, states, steps[n - 1], n - 1);
      EndedStays(states[n - 1], cfg, steps[n - 1], o);
    }
  }

  lemma FinishEnds(s: System, cfg: Settings, c: nat, ending: Ending, encodes: bool, reached: bool)
    requires Enabled(s, Finish(c, ending, encodes, reached))
    ensures var t, o := Next(s, cfg, Finish(c, ending, encodes, reached)), s.callers[c].phase.owner;
            && o in t.calls
            && t.calls[o].ended == Some(
                 if ending.Ended? && !ending.outcome.setsCookie && ending.outcome.buffered then Some(ending.outcome) else None)
  {
  }

  /** Over every run, what a repeat that waits on a call in its process gets once that has returned, whenever it looks:
      the outcome, or, after a cancelled call or an outcome that is not to be repeated, another try. */
  lemma WaiterGets(
    cfg: Settings, states: seq<System>, steps: seq<Step>, m: nat, n: nat, waiter: nat, owner: int)
    requires Execution(cfg, states, steps) && m < n <= |steps|
    requires steps[m].Finish? && Enabled(states[m], steps[m]) && states[m].callers[steps[m].caller].phase == Executing(owner)
    requires At(states[n], waiter) && states[n].callers[waiter].phase == WaitsHere(owner)
    requires owner in states[n].calls && states[n].calls[owner].resolved
    ensures Enabled(states[n], Look(waiter))
    ensures var ending := steps[m].ending;
            Next(states[n], cfg, Look(waiter)).callers[waiter].phase ==
              if ending.Ended? && !ending.outcome.setsCookie && ending.outcome.buffered then Answered(Replayed(ending.outcome))
              else Trying
  {
    assert Moves(cfg, states, steps[m], m);
    FinishEnds(states[m], cfg, steps[m].caller, steps[m].ending, steps[m].encodes, steps[m].reached);
    EndedUntil(cfg, states, steps, m + 1, n, owner);
  }

  /** And what one that waits elsewhere gets: the outcome in the record, another try when it is gone, and a refusal when
      it is another request's. */
  lemma RemoteWaiterGets(s: System, cfg: Settings, waiter: nat)
    requires Inv(s) && At(s, waiter) && s.callers[waiter].phase.RemoteWaits?
    ensures Enabled(s, RemoteLook(waiter))
    ensures var record, phase := Alive(s.slot.record, s.now), Next(s, cfg, RemoteLook(waiter)).callers[waiter].phase;
            && (record.None? ==> phase == Trying)
            && (record.Some? && record.value.RunningValue? ==> phase == RemoteWaits)
            && (record.Some? && record.value.DoneValue? ==>
                  phase == Answered(if record.value.fingerprint == s.callers[waiter].fingerprint then
                                      Replayed(record.value.outcome) else Reused))
  {
  }

  // ---- renewals ---------------------------------------------------------------------------------------------------

  /** The i-th step takes or renews the call's lock. */
  predicate Locks(states: seq<System>, steps: seq<Step>, i: nat, o: int)
    requires i < |steps| < |states|
  {
    var s, step := states[i], steps[i];
    o in states[i + 1].claims &&
    (|| (step.Write? && step.owner == o)
     || (step.Renew? && step.caller < |s.callers| && s.callers[step.caller].phase == Executing(o)))
  }

  /** The call's lock was taken or renewed less than a lock TTL ago. */
  ghost predicate LockedLately(cfg: Settings, states: seq<System>, steps: seq<Step>, n: nat, o: int)
    requires n <= |steps| < |states|
  {
    exists i | 0 <= i < n :: Locks(states, steps, i, o) && states[n].now < states[i].now + cfg.lockTtl
  }

  /** So it was all the time since its claim: its renewals are in time. */
  ghost predicate RenewedInTime(cfg: Settings, states: seq<System>, steps: seq<Step>, n: nat, o: int)
    requires n <= |steps| < |states|
  {
    forall k {:trigger LockedLately(cfg, states, steps, k, o)} | 0 <= k <= n && o in states[k].claims ::
      LockedLately(cfg, states, steps, k, o)
  }

  /** The key holds the call's running record. */
  predicate HasKey(s: System, o: int) {
    o in s.claims && s.slot.record.Some? && s.slot.record.value.value == RunningOf(s, o)
  }

  /** And that lasts a lock TTL from every time the lock was taken or renewed. */
  ghost predicate Locked(cfg: Settings, states: seq<System>, steps: seq<Step>, n: nat, o: int)
    requires n <= |steps| < |states|
  {
    && HasKey(states[n], o)
    && forall i | 0 <= i < n ::
         Locks(states, steps, i, o) ==> states[i].now + cfg.lockTtl <= states[n].slot.record.value.expiresAt
  }

  /** The call keeps the key: with the expiry it had, or a lock TTL from now. */
  ghost predicate KeepsLock(cfg: Settings, s: System, t: System, o: int, renewed: bool)
    requires HasKey(s, o)
  {
    && HasKey(t, o) && s.now <= t.now
    && t.slot.record.value.expiresAt == if renewed then s.now + cfg.lockTtl else s.slot.record.value.expiresAt
  }

  lemma StepLocks(s: System, cfg: Settings, step: Step, o: int)
    requires Inv(s) && Enabled(s, step) && HasKey(s, o) && s.now < s.slot.record.value.expiresAt
    requires o in s.calls && s.calls[o].ended.None?
    requires var t := Next(s, cfg, step); o in t.calls && t.calls[o].ended.None?
    ensures KeepsLock(cfg, s, Next(s, cfg, step), o, step.Renew? && s.callers[step.caller].phase == Executing(o))
  {
    match step
    case Renew(c) => assert PhaseOk(s, s.callers[c]);
    case Finish(c, _, _, _) => assert PhaseOk(s, s.callers[c]);
    case _ =>
  }

  lemma ClaimLocks(s: System, cfg: Settings, step: Step, o: int)
    requires Enabled(s, step) && o !in s.claims && o in Next(s, cfg, step).claims
    ensures var t := Next(s, cfg, step);
            step.Write? && step.owner == o && HasKey(t, o) && t.slot.record.value.expiresAt == s.now + cfg.lockTtl
  {
  }

  lemma MoveOpen(cfg: Settings, states: seq<System>, steps: seq<Step>, i: nat, o: int)
    requires Execution(cfg, states, steps) && i < |steps| && o in states[i].claims
    requires o in states[i + 1].calls && states[i + 1].calls[o].ended.None?
    ensures o in states[i].calls && states[i].calls[o].ended.None?
  {
    ExecutionKeeps(cfg, states, steps, i);
    assert Moves(cfg, states, steps[i], i);
    StepGrows(states[i], cfg, steps[i]);
  }

  lemma MoveLocks(cfg: Settings, states: seq<System>, steps: seq<Step>, i: nat, o: int)
    requires Execution(cfg, states, steps) && i < |steps| && HasKey(states[i], o)
    requires states[i].now < states[i].slot.record.value.expiresAt
    requires o in states[i].calls && states[i].calls[o].ended.None?
    requires o in states[i + 1].calls && states[i + 1].calls[o].ended.None?
    ensures KeepsLock(cfg, states[i], states[i + 1], o, Locks(states, steps, i, o))
  {
    ExecutionKeeps(cfg, states, steps, i);
    assert Moves(cfg, states, steps[i], i);
    StepLocks(states[i], cfg, steps[i], o);
  }

  lemma ClaimIsLocked(cfg: Settings, states: seq<System>, steps: seq<Step>, n: nat, o: int)
    requires Execution(cfg, states, steps) && n < |steps| && o !in states[n].claims && o in states[n + 1].claims
    ensures Locked(cfg, states, steps, n + 1, o)
  {
    assert Moves(cfg, states, steps[n], n);
    ClaimLocks(states[n], cfg, steps[n], o);
    forall i | 0 <= i < n
      ensures !Locks(states, steps, i, o)
    {
      if Locks(states, steps, i, o) {
        ClaimsStay(cfg, states, steps, i + 1, n, o);
      }
    }
  }

  predicate LaterThan(states: seq<System>, n: nat)
    requires n < |states|
  {
    forall i | 0 <= i < n :: states[i].now <= states[n].now
  }

  lemma ClockRuns(s: System, cfg: Settings, step: Step)
    requires Enabled(s, step)
    ensures s.now <= Next(s, cfg, step).now
  {
  }

  lemma {:induction false} TimePasses(cfg: Settings, states: seq<System>, steps: seq<Step>, n: nat)
    requires Execution(cfg, states, steps) && n <= |steps|
    ensures LaterThan(states, n)
  {
    if n > 0 {
      TimePasses(cfg, states, steps, n - 1);
      assert Moves(cfg, states, steps[n - 1], n - 1);
      ClockRuns(states[n - 1], cfg, steps[n - 1]);
    }
  }

  lemma LockedNext(cfg: Settings, states: seq<System>, steps: seq<Step>, n: nat, o: int)
    requires n < |steps| < |states| && Locked(cfg, states, steps, n, o) && LaterThan(states, n)
    requires KeepsLock(cfg, states[n], states[n + 1], o, Locks(states, steps, n, o))
    requires states[n].now < states[n].slot.record.value.expiresAt
    ensures Locked(cfg, states, steps, n + 1, o)
  {
    forall i | 0 <= i < n + 1 && Locks(states, steps, i, o)
      ensures states[i].now + cfg.lockTtl <= states[n + 1].slot.record.value.expiresAt
    {
    }
  }

  lemma LockedIsUnexpired(cfg: Settings, states: seq<System>, steps: seq<Step>, n: nat, o: int)
    requires n <= |steps| < |states| && Locked(cfg, states, steps, n, o) && RenewedInTime(cfg, states, steps, n, o)
    ensures states[n].now < states[n].slot.record.value.expiresAt
  {
    assert LockedLately(cfg, states, steps, n, o);
  }

  lemma RenewedBefore(cfg: Settings, states: seq<System>, steps: seq<Step>, n: nat, o: int)
    requires n < |steps| < |states| && RenewedInTime(cfg, states, steps, n + 1, o)
    ensures RenewedInTime(cfg, states, steps, n, o)
  {
  }

  /** Over every run: a call whose renewals are in time has the key, unexpired, until its finish script is sent. */
  lemma {:induction false} RenewedKeepsTheKey(cfg: Settings, states: seq<System>, steps: seq<Step>, n: nat, o: int)
    requires Execution(cfg, states, steps) && n <= |steps| && RenewedInTime(cfg, states, steps, n, o)
    requires o in states[n].claims && o in states[n].calls && states[n].calls[o].ended.None?
    ensures Locked(cfg, states, steps, n, o) && Alive(states[n].slot.record, states[n].now) == Some(RunningOf(states[n], o))
  {
    if n > 0 {
      if o in states[n - 1].claims {
        MoveOpen(cfg, states, steps, n - 1, o);
        RenewedBefore(cfg, states, steps, n - 1, o);
        RenewedKeepsTheKey(cfg, states, steps, n - 1, o);
        MoveLocks(cfg, states, steps, n - 1, o);
        TimePasses(cfg, states, steps, n - 1);
        LockedNext(cfg, states, steps, n - 1, o);
      } else {
        ClaimIsLocked(cfg, states, steps, n - 1, o);
      }
      LockedIsUnexpired(cfg, states, steps, n, o);
    }
  }

  /** And no other request claims it meanwhile, in whatever process: its SET NX finds the record. */
  lemma RenewedIsNeverClaimed(cfg: Settings, states: seq<System>, steps: seq<Step>, n: nat, o: int)
    requires Execution(cfg, states, steps) && n < |steps| && steps[n].Write? && Enabled(states[n], steps[n])
    requires RenewedInTime(cfg, states, steps, n, o)
    requires o in states[n].claims && o in states[n].calls && states[n].calls[o].ended.None?
    ensures At(states[n + 1], steps[n].caller) && states[n + 1].callers[steps[n].caller].phase == Missed
    ensures states[n + 1].claims == states[n].claims && states[n + 1].slot == states[n].slot
  {
    RenewedKeepsTheKey(cfg, states, steps, n, o);
    assert Moves(cfg, states, steps[n], n);
  }

  /** Renewals in time are what the rule about replays asks of expiry. */
  lemma RenewedIsInTime(cfg: Settings, states: seq<System>, steps: seq<Step>, n: nat)
    requires Execution(cfg, states, steps) && n <= |steps|
    requires forall o | o in states[n].claims :: RenewedInTime(cfg, states, steps, n, o)
    ensures InTime(states[n])
  {
    forall o | o in states[n].claims
      ensures !Expired(states[n], o)
    {
      if o in states[n].calls && states[n].calls[o].ended.None? {
        RenewedKeepsTheKey(cfg, states, steps, n, o);
      }
    }
  }

  // ---- what a request does next -----------------------------------------------------------------------------------

  function PhaseAfter(s: System, cfg: Settings, step: Step, c: nat): Option<Phase>
    requires Enabled(s, step)
  {
    var t := Next(s, cfg, step);
    if c < |t.callers| then Some(t.callers[c].phase) else None
  }

  /** The commands that lead a request to execute: SET NX claims a free key, and the call is then its process's run. */
  lemma ClaimExactly(s: System, cfg: Settings, c: nat, owner: int)
    requires Inv(s) && At(s, c)
    ensures s.callers[c].phase.Trying? && owner !in s.claims ==>
      var t := Next(s, cfg, Write(c, owner));
      if Alive(s.slot.record, s.now).Some? then PhaseAfter(s, cfg, Write(c, owner), c) == Some(Missed) && t.slot == s.slot
      else
        && PhaseAfter(s, cfg, Write(c, owner), c) == Some(Written(owner))
        && t.slot.record == Some(Entry(RunningValue(s.callers[c].fingerprint, owner), s.now + cfg.lockTtl))
        && t.claims == s.claims[owner := Claim(s.callers[c].process, s.callers[c].fingerprint)]
    ensures s.callers[c].phase.Written? ==>
      var t := Next(s, cfg, Register(c));
      && PhaseAfter(s, cfg, Register(c), c) == Some(Executing(s.callers[c].phase.owner))
      && t.runs == s.runs[s.callers[c].process := s.callers[c].phase.owner]
  {
  }

  /** What a request makes of the record it read: nothing there is tried again, another request's refuses it, an
      outcome is replayed, and a running call is waited on, here when the process runs one of the key. */
  lemma DecideExactly(s: System, cfg: Settings, c: nat)
    requires Inv(s) && At(s, c) && s.callers[c].phase.Read?
    ensures Enabled(s, Decide(c))
    ensures var caller, value := s.callers[c], s.callers[c].phase.value;
            PhaseAfter(s, cfg, Decide(c), c) == Some(
              if value.None? then Trying
              else if FingerprintOf(value.value) != caller.fingerprint then Answered(Reused)
              else if value.value.DoneValue? then Answered(Replayed(value.value.outcome))
              else if caller.process in s.runs then WaitsHere(s.runs[caller.process])
              else Remote)
  {
    assert PhaseOk(s, s.callers[c]);
  }

  function FingerprintOf(v: Value): string {
    match v
    case RunningValue(fingerprint, _) => fingerprint
    case DoneValue(fingerprint, _) => fingerprint
    case Flag => ""
  }

  /** What the others read: the record as it is now; a repeat elsewhere marks a running one and waits, and one in the
      process waits as long as the key has a record. */
  lemma ReadExactly(s: System, cfg: Settings, c: nat)
    requires Inv(s) && At(s, c)
    ensures s.callers[c].phase.Missed? ==> PhaseAfter(s, cfg, Fetch(c), c) == Some(Read(Alive(s.slot.record, s.now)))
    ensures s.callers[c].phase.RemoteRead? ==>
      var t := Next(s, cfg, Mark(c));
      && PhaseAfter(s, cfg, Mark(c), c) == Some(RemoteWaits)
      && (Alive(s.slot.record, s.now) == Some(s.callers[c].phase.seen) ==>
            Alive(t.slot.mark, t.now).Some? && t.callers[c].marked == Some(s.callers[c].phase.seen))
    ensures s.callers[c].phase.WaitsHere? && !s.calls[s.callers[c].phase.owner].resolved ==>
      PhaseAfter(s, cfg, Look(c), c) == Some(if Alive(s.slot.record, s.now).Some? then s.callers[c].phase else Trying)
  {
    assert PhaseOk(s, s.callers[c]);
  }

  lemma RemoteFetchExactly(s: System, cfg: Settings, c: nat)
    requires Inv(s) && At(s, c) && s.callers[c].phase.Remote?
    ensures var record := Alive(s.slot.record, s.now);
            PhaseAfter(s, cfg, RemoteFetch(c), c) == Some(
              if record.None? then Trying
              else if record.value.RunningValue? then RemoteRead(record.value)
              else if FingerprintOf(record.value) != s.callers[c].fingerprint then Answered(Reused)
              else Answered(Replayed(record.value.outcome)))
  {
  }
}
