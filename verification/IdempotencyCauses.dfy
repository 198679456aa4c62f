/** Whose outcome a repeat gets when it attaches inside its process: how it comes to wait on another request's run,
    what it is answered then, and when that cannot happen. */
module IdempotencyCauses {
  import opened Basics
  import opened IdempotencyMemory
  import opened IdempotencyRedis
  import opened IdempotencyProcesses

  // ---- runs that have not returned ------------------------------------------------------------------------

  /** The call of the run has not returned: it executes, or it has ended and its end is under way. */
  predicate Open(s: System, o: int) {
    o in s.claims && o in s.calls && !s.calls[o].resolved
  }

  /** Every run a process keeps, and every run a request executes, is open. */
  predicate OpenOk(s: System) {
    && (forall p | p in s.runs :: Open(s, s.runs[p]))
    && (forall i | 0 <= i < |s.callers| && Holding(s.callers[i].phase) :: Open(s, s.callers[i].phase.owner))
  }

  lemma WriteOpen(s: System, cfg: Settings, c: nat, owner: int)
    requires Inv(s) && OpenOk(s) && Enabled(s, Write(c, owner))
    ensures OpenOk(Next(s, cfg, Write(c, owner)))
  {
    var t := Next(s, cfg, Write(c, owner));
    forall i | 0 <= i < |t.callers| && Holding(t.callers[i].phase)
      ensures Open(t, t.callers[i].phase.owner)
    {
      assert i != c ==> Open(s, s.callers[i].phase.owner);
    }
  }

  lemma ForgetOpen(s: System, cfg: Settings, c: nat)
    requires Inv(s) && OpenOk(s) && Enabled(s, Forget(c))
    ensures OpenOk(Next(s, cfg, Forget(c)))
  {
    var t, owner := Next(s, cfg, Forget(c)), s.callers[c].phase.owner;
    assert PhaseOk(s, s.callers[c]);
    forall p | p in t.runs
      ensures Open(t, t.runs[p])
    {
      assert Open(s, s.runs[p]);
      assert s.claims[s.runs[p]].process == p;
    }
    forall i | 0 <= i < |t.callers| && Holding(t.callers[i].phase)
      ensures Open(t, t.callers[i].phase.owner)
    {
      assert Open(s, s.callers[i].phase.owner);
    }
  }

  lemma StepOpen(s: System, cfg: Settings, step: Step)
    requires Inv(s) && OpenOk(s) && Enabled(s, step)
    ensures OpenOk(Next(s, cfg, step))
  {
    match step
    case Write(c, owner) => WriteOpen(s, cfg, c, owner);
    case Forget(c) => ForgetOpen(s, cfg, c);
    case _ => OthersOpen(s, cfg, step);
  }

  lemma OthersOpen(s: System, cfg: Settings, step: Step)
    requires Inv(s) && OpenOk(s) && Enabled(s, step) && !step.Write? && !step.Forget?
    ensures OpenOk(Next(s, cfg, step))
  {
    OpenStays(s, cfg, step);
    HoldersStay(s, cfg, step);
  }

  lemma OpenStays(s: System, cfg: Settings, step: Step)
    requires Inv(s) && Enabled(s, step) && !step.Write? && !step.Forget?
    ensures forall o | Open(s, o) :: Open(Next(s, cfg, step), o)
  {
  }

  lemma HoldersStay(s: System, cfg: Settings, step: Step)
    requires Enabled(s, step) && !step.Write? && !step.Forget?
    ensures var t := Next(s, cfg, step);
            forall i | 0 <= i < |t.callers| && Holding(t.callers[i].phase) ::
              i < |s.callers| && Holding(s.callers[i].phase) && t.callers[i].phase.owner == s.callers[i].phase.owner
  {
    var t := Next(s, cfg, step);
    forall i | 0 <= i < |t.callers| && Holding(t.callers[i].phase)
      ensures i < |s.callers| && Holding(s.callers[i].phase) && t.callers[i].phase.owner == s.callers[i].phase.owner
    {
      if i < |s.callers| && (step.Arrive? || step.Tick? || step.caller != i) {
        StepMovesOne(s, cfg, step, i);
      } else if step.Decide? || step.Look? || step.RemoteFetch? || step.RemoteLook? {
        NoHolderAfter(s, cfg, step);
      } else {
        HolderStays(s, cfg, step, i);
      }
    }
  }

  /** The caller keeps its request and comes to hold no run. */
  predicate MovesFree(before: Caller, after: Caller) {
    after == before.(phase := after.phase) && !Holding(after.phase)
  }

  lemma DecidedMoves(s: System, c: nat)
    requires Enabled(s, Decide(c))
    ensures |Decided(s, c).callers| == |s.callers| && MovesFree(s.callers[c], Decided(s, c).callers[c])
    ensures Decided(s, c).callers[c].phase.WaitsHere? ==> WaitsOrAttaches(s, Decide(c), c, Decided(s, c).callers[c])
  {
  }

  lemma LookedMoves(s: System, c: nat)
    requires Enabled(s, Look(c))
    ensures |Looked(s, c).callers| == |s.callers| && MovesFree(s.callers[c], Looked(s, c).callers[c])
    ensures Looked(s, c).callers[c].phase.WaitsHere? ==> Looked(s, c).callers[c] == s.callers[c]
  {
  }

  lemma RemoteLookedMoves(s: System, c: nat, waiting: Phase)
    requires At(s, c) && !Holding(waiting) && !waiting.WaitsHere?
    ensures var t := RemoteLooked(s, c, waiting);
            |t.callers| == |s.callers| && MovesFree(s.callers[c], t.callers[c]) && !t.callers[c].phase.WaitsHere?
  {
    var value := Alive(s.slot.record, s.now);
    if value.Some? && value.value.RunningValue? {
      MovedIs(s, c, waiting);
    } else {
      MovedIs(s, c, Answering(value, s.callers[c].fingerprint).value);
    }
  }

  lemma MovedIs(s: System, c: nat, phase: Phase)
    requires At(s, c)
    ensures |Moved(s, c, phase).callers| == |s.callers| && Moved(s, c, phase).callers[c] == s.callers[c].(phase := phase)
  {
  }

  lemma NoHolderAfter(s: System, cfg: Settings, step: Step)
    requires Enabled(s, step) && (step.Decide? || step.Look? || step.RemoteFetch? || step.RemoteLook?)
    ensures |Next(s, cfg, step).callers| == |s.callers|
    ensures MovesFree(s.callers[step.caller], Next(s, cfg, step).callers[step.caller])
    ensures Next(s, cfg, step).callers[step.caller].phase.WaitsHere? ==>
      WaitsOrAttaches(s, step, step.caller, Next(s, cfg, step).callers[step.caller])
  {
    match step
    case Decide(c) => DecidedMoves(s, c);
    case Look(c) => LookedMoves(s, c);
    case RemoteFetch(c) =>
      var value := Alive(s.slot.record, s.now);
      RemoteLookedMoves(s, c, if value.Some? then RemoteRead(value.value) else Remote);
    case RemoteLook(c) => RemoteLookedMoves(s, c, RemoteWaits);
  }

  /** The caller waited before the step, or attaches by it. */
  predicate WaitsOrAttaches(s: System, step: Step, c: nat, after: Caller)
    requires c < |s.callers| && after.phase.WaitsHere?
  {
    var before := s.callers[c];
    && after.process == before.process && after.fingerprint == before.fingerprint
    && (before.phase == after.phase
        || (step == Decide(c) && before.phase.Read? && before.process in s.runs
            && s.runs[before.process] == after.phase.owner && Answering(before.phase.value, before.fingerprint).None?))
  }

  lemma HolderStays(s: System, cfg: Settings, step: Step, i: nat)
    requires Enabled(s, step) && (step.Arrive? || step.Register? || step.Fetch? || step.Mark? || step.Renew? || step.Finish?)
    requires if step.Arrive? then i == |s.callers| else step.caller == i
    ensures var t := Next(s, cfg, step);
            i < |t.callers| && (Holding(t.callers[i].phase) ==>
              i < |s.callers| && Holding(s.callers[i].phase) && t.callers[i].phase.owner == s.callers[i].phase.owner)
  {
  }

  lemma {:induction false} ExecutionOpen(cfg: Settings, states: seq<System>, steps: seq<Step>, n: nat)
    requires Execution(cfg, states, steps) && n <= |steps|
    ensures OpenOk(states[n])
  {
    if n > 0 {
      ExecutionOpen(cfg, states, steps, n - 1);
      ExecutionKeeps(cfg, states, steps, n - 1);
      assert Moves(cfg, states, steps[n - 1], n - 1);
      StepOpen(states[n - 1], cfg, steps[n - 1]);
    }
  }

  // ---- how an open run loses the key ------------------------------------------------------------------------

  /** The run's record expired before the run ended. */
  predicate Expired(s: System, o: int) {
    && o in s.claims && o in s.calls && s.calls[o].ended.None?
    && s.slot.record.Some? && s.slot.record.value.value == RunningOf(s, o) && s.slot.record.value.expiresAt <= s.now
  }

  /** Another request claims the key after the run's finish script was sent and before its call returns. */
  predicate ClaimedWhileClosing(s: System, step: Step, o: int) {
    step.Write? && Alive(s.slot.record, s.now).None? && Open(s, o) && s.calls[o].ended.Some?
  }

  /** The key's unexpired record is the run's until it ends, and no other run's until its call returns. */
  predicate Undisturbed(s: System, o: int)
    requires o in s.claims && o in s.calls
  {
    var record := Alive(s.slot.record, s.now);
    if s.calls[o].ended.None? then record == Some(RunningOf(s, o))
    else record.Some? && record.value.RunningValue? ==> record.value.owner == o
  }

  ghost predicate Lost(states: seq<System>, steps: seq<Step>, n: nat, o: int)
    requires n <= |steps| < |states|
  {
    || (exists k | 0 <= k <= n :: Expired(states[k], o))
    || (exists k | 0 <= k < n :: ClaimedWhileClosing(states[k], steps[k], o))
  }

  lemma ScriptsLeaveOthers(s: System, cfg: Settings, step: Step, o: int)
    requires Inv(s) && Enabled(s, step) && Open(s, o) && Undisturbed(s, o) && (step.Renew? || step.Finish?)
    requires Open(Next(s, cfg, step), o)
    ensures Undisturbed(Next(s, cfg, step), o) || Expired(Next(s, cfg, step), o)
  {
    assert PhaseOk(s, s.callers[step.caller]);
  }

  lemma StepUndisturbed(s: System, cfg: Settings, step: Step, o: int)
    requires Inv(s) && Enabled(s, step) && Open(s, o) && Undisturbed(s, o) && Open(Next(s, cfg, step), o)
    ensures var t := Next(s, cfg, step);
            Undisturbed(t, o) || Expired(t, o) || ClaimedWhileClosing(s, step, o)
  {
    match step
    case Renew(_) => ScriptsLeaveOthers(s, cfg, step, o);
    case Finish(_, _, _, _) => ScriptsLeaveOthers(s, cfg, step, o);
    case _ =>
  }

  lemma ClaimUndisturbed(s: System, cfg: Settings, step: Step, o: int)
    requires Inv(s) && Enabled(s, step) && o !in s.claims && Open(Next(s, cfg, step), o)
    ensures Undisturbed(Next(s, cfg, step), o) || Expired(Next(s, cfg, step), o)
  {
  }

  /** Over every run: an open run has the key, or lost it in one of two ways. */
  lemma {:induction false} OpenHasTheKey(cfg: Settings, states: seq<System>, steps: seq<Step>, n: nat, o: int)
    requires Execution(cfg, states, steps) && n <= |steps| && Open(states[n], o)
    ensures Undisturbed(states[n], o) || Lost(states, steps, n, o)
  {
    if n > 0 {
      var s, step := states[n - 1], steps[n - 1];
      ExecutionKeeps(cfg, states, steps, n - 1);
      assert Moves(cfg, states, step, n - 1);
      if o in s.claims {
        OpenBefore(s, cfg, step, o);
        OpenHasTheKey(cfg, states, steps, n - 1, o);
        if Undisturbed(s, o) {
          StepUndisturbed(s, cfg, step, o);
        }
      } else {
        ClaimUndisturbed(s, cfg, step, o);
      }
    }
  }

  lemma OpenBefore(s: System, cfg: Settings, step: Step, o: int)
    requires Inv(s) && Enabled(s, step) && o in s.claims && Open(Next(s, cfg, step), o)
    ensures Open(s, o)
  {
  }

  /** Over every run, a request that attaches to a run of another fingerprint does so for one of three reasons: that
      run's record expired before it ended; another request claimed the key between its finish script and the
      return of its call; or the record the request read is no longer the key's unexpired record. */
  lemma AttachesElsewhereBecause(cfg: Settings, states: seq<System>, steps: seq<Step>, n: nat, c: nat)
    requires Execution(cfg, states, steps) && n <= |steps| && AttachesElsewhere(states[n], Decide(c))
    ensures var s := states[n];
            || Lost(states, steps, n, s.runs[s.callers[c].process])
            || s.callers[c].phase.value != Alive(s.slot.record, s.now)
  {
    var s := states[n];
    ExecutionKeeps(cfg, states, steps, n);
    ExecutionOpen(cfg, states, steps, n);
    assert PhaseOk(s, s.callers[c]);
    OpenHasTheKey(cfg, states, steps, n, s.runs[s.callers[c].process]);
  }

  // ---- when every replay is the request's own -----------------------------------------------------------------

  /** No running record has expired while its run goes on: renewals are in time. */
  ghost predicate InTime(s: System) {
    forall o | o in s.claims :: !Expired(s, o)
  }

  /** A claim does not fall between another call's finish script and its return. */
  ghost predicate ClaimsApart(s: System, step: Step) {
    forall o | o in s.claims :: !ClaimedWhileClosing(s, step, o)
  }

  /** A request that decides on a running record decides on what the key still holds. */
  predicate DecidesFresh(s: System, step: Step) {
    step.Decide? && Enabled(s, step) && Answering(s.callers[step.caller].phase.value, s.callers[step.caller].fingerprint).None? ==>
      s.callers[step.caller].phase.value == Alive(s.slot.record, s.now)
  }

  ghost predicate Orderly(s: System, step: Step) {
    InTime(s) && ClaimsApart(s, step) && DecidesFresh(s, step)
  }

  lemma OrderlyAttachesToOwn(cfg: Settings, states: seq<System>, steps: seq<Step>, n: nat)
    requires Execution(cfg, states, steps) && n < |steps|
    requires forall i | 0 <= i <= n :: Orderly(states[i], steps[i])
    ensures !AttachesElsewhere(states[n], steps[n])
  {
    if AttachesElsewhere(states[n], steps[n]) {
      var s := states[n];
      var o := s.runs[s.callers[steps[n].caller].process];
      AttachesElsewhereBecause(cfg, states, steps, n, steps[n].caller);
      NeverLost(states, steps, n, o);
    }
  }

  lemma NeverLost(states: seq<System>, steps: seq<Step>, n: nat, o: int)
    requires n < |steps| < |states| && forall i | 0 <= i <= n :: Orderly(states[i], steps[i])
    ensures !Lost(states, steps, n, o)
  {
    forall k | 0 <= k <= n
      ensures !Expired(states[k], o) && !ClaimedWhileClosing(states[k], steps[k], o)
    {
      assert Orderly(states[k], steps[k]);
    }
  }

  /** Over every run in which no running record expires while its run goes on, no claim falls into the end of another
      call, and no request decides on a record that has changed since it was read, every replay is the outcome of a
      run claimed with the request's own fingerprint. */
  lemma OrderlyReplaysAreOwn(cfg: Settings, states: seq<System>, steps: seq<Step>, n: nat)
    requires Execution(cfg, states, steps) && n <= |steps|
    requires forall i | 0 <= i < n :: Orderly(states[i], steps[i])
    ensures AllOwn(states[n])
  {
    forall i | 0 <= i < n
      ensures !AttachesElsewhere(states[i], steps[i])
    {
      OrderlyAttachesToOwn(cfg, states, steps, i);
    }
    ReplaysAreOwn(cfg, states, steps, n);
  }

  /** The process compares its run with the owner in the record read before it attaches. */
  predicate ComparesOwner(s: System, step: Step) {
    step.Decide? && Enabled(s, step) && Answering(s.callers[step.caller].phase.value, s.callers[step.caller].fingerprint).None? ==>
      var caller := s.callers[step.caller];
      caller.process in s.runs ==> s.runs[caller.process] == caller.phase.value.value.owner
  }

  /** Over every run in which requests attach only to the owner in the record they read, whatever expires, is claimed
      or is stale, every replay is the request's own. */
  lemma ComparedReplaysAreOwn(cfg: Settings, states: seq<System>, steps: seq<Step>, n: nat)
    requires Execution(cfg, states, steps) && n <= |steps|
    requires forall i | 0 <= i < n :: ComparesOwner(states[i], steps[i])
    ensures AllOwn(states[n])
  {
    forall i | 0 <= i < n
      ensures !AttachesElsewhere(states[i], steps[i])
    {
      ExecutionKeeps(cfg, states, steps, i);
      assert ComparesOwner(states[i], steps[i]);
      if steps[i].Decide? && Enabled(states[i], steps[i]) {
        assert PhaseOk(states[i], states[i].callers[steps[i].caller]);
      }
    }
    ReplaysAreOwn(cfg, states, steps, n);
  }

  // ---- what a request that waits on a run is answered ---------------------------------------------------------

  /** A run of the fingerprint other than `owner` ended with the outcome. */
  ghost predicate ProducedByOther(s: System, owner: int, fingerprint: string, outcome: Outcome) {
    exists o | o in s.claims :: o != owner && EndedWith(s, o, fingerprint, outcome)
  }

  lemma ProducedByOne(s: System, owner: int, fingerprint: string, outcome: Outcome)
    requires owner in s.claims && owner in s.calls && s.calls[owner].ended == Some(Some(outcome))
    ensures Produced(s, fingerprint, outcome) <==>
            ProducedByOther(s, owner, fingerprint, outcome) || s.claims[owner].fingerprint == fingerprint
  {
    if Produced(s, fingerprint, outcome) {
      var o :| o in s.claims && EndedWith(s, o, fingerprint, outcome);
    }
    if s.claims[owner].fingerprint == fingerprint {
      assert EndedWith(s, owner, fingerprint, outcome);
    }
  }

  /** The replay a request waiting on a run gets by this step is another request's outcome: the run is of another
      fingerprint, and no run of the request's own has given that outcome. */
  ghost predicate AnsweredElsewhere(s: System, step: Step) {
    && step.Look? && Enabled(s, step)
    && var caller := s.callers[step.caller];
       var o := caller.phase.owner;
       && s.calls[o].resolved && s.calls[o].ended.Some? && s.calls[o].ended.value.Some?
       && !(o in s.claims && s.claims[o].fingerprint == caller.fingerprint)
       && !ProducedByOther(s, o, caller.fingerprint, s.calls[o].ended.value.value)
  }

  ghost predicate ReplayOwn(s: System, caller: Caller) {
    caller.phase.Answered? && caller.phase.answer.Replayed? ==>
      Produced(s, caller.fingerprint, caller.phase.answer.outcome)
  }

  ghost predicate ReplaysOwn(s: System) {
    forall i | 0 <= i < |s.callers| :: ReplayOwn(s, s.callers[i])
  }

  lemma ProducedOnlyByFinish(s: System, cfg: Settings, c: nat, fingerprint: string, outcome: Outcome)
    requires Inv(s) && Enabled(s, Look(c)) && Produced(Looked(s, c), fingerprint, outcome)
    ensures Produced(s, fingerprint, outcome)
  {
    ProducedStays(Looked(s, c), s, fingerprint, outcome);
  }

  lemma LookOwn(s: System, cfg: Settings, c: nat)
    requires Inv(s) && Enabled(s, Look(c))
    ensures ReplayOwn(Looked(s, c), Looked(s, c).callers[c]) <==> !AnsweredElsewhere(s, Look(c))
  {
    var t, caller := Looked(s, c), s.callers[c];
    var call := s.calls[caller.phase.owner];
    assert PhaseOk(s, caller);
    if call.resolved && call.ended.Some? && call.ended.value.Some? {
      ProducedByOne(s, caller.phase.owner, caller.fingerprint, call.ended.value.value);
      if Produced(s, caller.fingerprint, call.ended.value.value) {
        ProducedStays(s, t, caller.fingerprint, call.ended.value.value);
      }
      if Produced(t, caller.fingerprint, call.ended.value.value) {
        ProducedOnlyByFinish(s, cfg, c, caller.fingerprint, call.ended.value.value);
      }
    }
  }

  /** Only a look of a request that waits in its process can answer it with another request's outcome. */
  lemma MoverReplaysOwn(s: System, cfg: Settings, step: Step)
    requires Inv(s) && Enabled(s, step) && !step.Arrive? && !step.Tick? && !step.Look?
    requires ReplayOwn(s, s.callers[step.caller])
    ensures step.caller < |Next(s, cfg, step).callers|
    ensures ReplayOwn(Next(s, cfg, step), Next(s, cfg, step).callers[step.caller])
  {
    StepGrows(s, cfg, step);
    var t, caller := Next(s, cfg, step), s.callers[step.caller];
    assert PhaseOk(s, caller);
    var now := t.callers[step.caller];
    if now.phase.Answered? && now.phase.answer.Replayed? && Produced(s, now.fingerprint, now.phase.answer.outcome) {
      ProducedStays(s, t, now.fingerprint, now.phase.answer.outcome);
    }
  }

  lemma OthersReplayOwn(s: System, cfg: Settings, step: Step, i: nat)
    requires Inv(s) && Enabled(s, step) && i < |s.callers| && (step.Arrive? || step.Tick? || step.caller != i)
    requires ReplayOwn(s, s.callers[i])
    ensures i < |Next(s, cfg, step).callers| && ReplayOwn(Next(s, cfg, step), Next(s, cfg, step).callers[i])
  {
    StepGrows(s, cfg, step);
    StepMovesOne(s, cfg, step, i);
    if s.callers[i].phase.Answered? && s.callers[i].phase.answer.Replayed? {
      ProducedStays(s, Next(s, cfg, step), s.callers[i].fingerprint, s.callers[i].phase.answer.outcome);
    }
  }

  lemma StepReplaysOwn(s: System, cfg: Settings, step: Step)
    requires Inv(s) && ReplaysOwn(s) && Enabled(s, step)
    ensures ReplaysOwn(Next(s, cfg, step)) <==> !AnsweredElsewhere(s, step)
  {
    var t := Next(s, cfg, step);
    if step.Look? {
      LookOwn(s, cfg, step.caller);
    }
    if !AnsweredElsewhere(s, step) {
      forall i | 0 <= i < |t.callers|
        ensures ReplayOwn(t, t.callers[i])
      {
        if step.Arrive? && i == |s.callers| {
          assert t.callers[i].phase == Trying;
        } else if step.Arrive? || step.Tick? || step.caller != i {
          OthersReplayOwn(s, cfg, step, i);
        } else if !step.Look? {
          MoverReplaysOwn(s, cfg, step);
        }
      }
    }
  }

  lemma MoveReplaysOwn(cfg: Settings, states: seq<System>, steps: seq<Step>, i: nat)
    requires Execution(cfg, states, steps) && i < |steps| && ReplaysOwn(states[i])
    ensures ReplaysOwn(states[i + 1]) <==> !AnsweredElsewhere(states[i], steps[i])
  {
    ExecutionKeeps(cfg, states, steps, i);
    assert Moves(cfg, states, steps[i], i);
    StepReplaysOwn(states[i], cfg, steps[i]);
  }

  ghost predicate OwnUpTo(states: seq<System>, n: nat)
    requires n < |states|
  {
    forall k | 0 <= k <= n :: ReplaysOwn(states[k])
  }

  ghost predicate NoneElsewhere(states: seq<System>, steps: seq<Step>, n: nat)
    requires n <= |steps| < |states|
  {
    forall k | 0 <= k < n :: !AnsweredElsewhere(states[k], steps[k])
  }

  lemma OwnUpToNext(states: seq<System>, n: nat)
    requires n + 1 < |states|
    ensures OwnUpTo(states, n + 1) <==> OwnUpTo(states, n) && ReplaysOwn(states[n + 1])
    ensures OwnUpTo(states, n) ==> ReplaysOwn(states[n])
  {
  }

  lemma NoneElsewhereNext(states: seq<System>, steps: seq<Step>, n: nat)
    requires n < |steps| < |states|
    ensures NoneElsewhere(states, steps, n + 1) <==>
            NoneElsewhere(states, steps, n) && !AnsweredElsewhere(states[n], steps[n])
  {
  }

  lemma NoReplayYet()
    ensures ReplaysOwn(INITIAL)
  {
  }

  /** The documented rule, exactly: over every run, every replay at every state is of the request's own fingerprint if
      and only if no step answers a request that waits on a run of another fingerprint with an outcome its own has
      not given. */
  lemma {:induction false} ReplaysOwnExactly(cfg: Settings, states: seq<System>, steps: seq<Step>, n: nat)
    requires Execution(cfg, states, steps) && n <= |steps|
    ensures OwnUpTo(states, n) <==> NoneElsewhere(states, steps, n)
  {
    if n == 0 {
      NoReplayYet();
    } else {
      ReplaysOwnExactly(cfg, states, steps, n - 1);
      OwnUpToNext(states, n - 1);
      NoneElsewhereNext(states, steps, n - 1);
      if ReplaysOwn(states[n - 1]) {
        MoveReplaysOwn(cfg, states, steps, n - 1);
      }
    }
  }

  // ---- where such an answer comes from -------------------------------------------------------------------------

  lemma CallersKeep(s: System, cfg: Settings, step: Step, c: nat)
    requires Inv(s) && Enabled(s, step) && c < |Next(s, cfg, step).callers| && Next(s, cfg, step).callers[c].phase.WaitsHere?
    ensures c < |s.callers| && WaitsOrAttaches(s, step, c, Next(s, cfg, step).callers[c])
  {
    if c < |s.callers| && (step.Arrive? || step.Tick? || step.caller != c) {
      StepMovesOne(s, cfg, step, c);
    } else {
      MoverWaits(s, cfg, step, c);
    }
  }

  lemma MoverWaits(s: System, cfg: Settings, step: Step, c: nat)
    requires Enabled(s, step) && !step.Tick? && (if step.Arrive? then c >= |s.callers| else step.caller == c)
    requires c < |Next(s, cfg, step).callers| && Next(s, cfg, step).callers[c].phase.WaitsHere?
    ensures c < |s.callers| && WaitsOrAttaches(s, step, c, Next(s, cfg, step).callers[c])
  {
    if step.Decide? || step.Look? || step.RemoteFetch? || step.RemoteLook? {
      NoHolderAfter(s, cfg, step);
    }
  }

  /** The step at which a request that waits in its process began to: it attached to another's run there, or not. */
  lemma {:induction false} WaitBegan(cfg: Settings, states: seq<System>, steps: seq<Step>, n: nat, c: nat)
    returns (m: nat)
    requires Execution(cfg, states, steps) && n <= |steps| && At(states[n], c) && states[n].callers[c].phase.WaitsHere?
    ensures var o, caller := states[n].callers[c].phase.owner, states[n].callers[c];
            && m < n && steps[m] == Decide(c) && Enabled(states[m], Decide(c)) && o in states[n].claims
            && caller.process in states[m].runs && states[m].runs[caller.process] == o
            && states[m].callers[c].process == caller.process
            && (AttachesElsewhere(states[m], Decide(c)) <==> states[n].claims[o].fingerprint != caller.fingerprint)
    decreases n
  {
    ExecutionKeeps(cfg, states, steps, n);
    if n > 0 {
      var s, step := states[n - 1], steps[n - 1];
      ExecutionKeeps(cfg, states, steps, n - 1);
      assert Moves(cfg, states, step, n - 1);
      CallersKeep(s, cfg, step, c);
      StepGrows(s, cfg, step);
      if s.callers[c].phase.WaitsHere? {
        assert PhaseOk(s, s.callers[c]);
        m := WaitBegan(cfg, states, steps, n - 1, c);
      } else {
        m := n - 1;
      }
    }
  }

  /** Over every run, a replay that is another request's outcome was let in when the request attached: there the run
      it found had lost the key, or the record it had read was gone. */
  lemma ForeignReplayBecause(cfg: Settings, states: seq<System>, steps: seq<Step>, n: nat) returns (m: nat)
    requires Execution(cfg, states, steps) && n < |steps| && AnsweredElsewhere(states[n], steps[n])
    ensures var c := steps[n].caller;
            && m < n && steps[m] == Decide(c) && AttachesElsewhere(states[m], Decide(c))
            && (|| Lost(states, steps, m, states[n].callers[c].phase.owner)
                || states[m].callers[c].phase.value != Alive(states[m].slot.record, states[m].now))
  {
    ExecutionKeeps(cfg, states, steps, n);
    assert PhaseOk(states[n], states[n].callers[steps[n].caller]);
    m := WaitBegan(cfg, states, steps, n, steps[n].caller);
    AttachesElsewhereBecause(cfg, states, steps, m, steps[n].caller);
  }

  // ---- and that it does come -----------------------------------------------------------------------------------

  /** The caller executes the run or its call is about to return. */
  predicate Runs(s: System, e: nat, o: int) {
    At(s, e) && (s.callers[e].phase == Executing(o) || (s.callers[e].phase.Closing? && s.callers[e].phase.owner == o))
  }

  /** How the run ends: as it has, or with `ending`. */
  function EndingOf(s: System, e: nat, ending: Ending): Ending
    requires At(s, e)
  {
    if s.callers[e].phase.Closing? then s.callers[e].phase.ending else ending
  }

  /** The run has ended, now or before. */
  function EndedNow(s: System, cfg: Settings, e: nat, o: int, ending: Ending): System
    requires Inv(s) && Runs(s, e, o)
  {
    assert PhaseOk(s, s.callers[e]);
    if s.callers[e].phase.Executing? then Next(s, cfg, Finish(e, ending, true, true)) else s
  }

  lemma EndedNowIs(s: System, cfg: Settings, e: nat, c: nat, o: int, ending: Ending)
    requires Inv(s) && Runs(s, e, o) && At(s, c) && s.callers[c].phase == WaitsHere(o)
    ensures var t := EndedNow(s, cfg, e, o, ending);
            && t.claims == s.claims && |t.callers| == |s.callers| && t.callers[c] == s.callers[c]
            && t.callers[e].phase == Closing(o, EndingOf(s, e, ending)) && t.calls.Keys == s.calls.Keys
            && (forall x | x in s.calls && x != o :: t.calls[x].ended == s.calls[x].ended)
            && o in t.calls && t.calls[o].ended == Some(Kept(EndingOf(s, e, ending)))
  {
    assert PhaseOk(s, s.callers[e]);
  }

  /** The run ends if it has not, its call returns, and the request that waits on it looks. */
  function AnsweredThen(s: System, cfg: Settings, e: nat, c: nat, o: int, ending: Ending): System
    requires Inv(s) && Runs(s, e, o) && At(s, c) && s.callers[c].phase == WaitsHere(o)
  {
    EndedNowIs(s, cfg, e, c, o, ending);
    Next(Next(EndedNow(s, cfg, e, o, ending), cfg, Forget(e)), cfg, Look(c))
  }

  lemma AnswerIsThatRuns(s: System, cfg: Settings, e: nat, c: nat, o: int, ending: Ending)
    requires Inv(s) && Runs(s, e, o) && At(s, c) && s.callers[c].phase == WaitsHere(o)
    ensures var t, end := AnsweredThen(s, cfg, e, c, o, ending), EndingOf(s, e, ending);
            && At(t, c) && t.claims == s.claims && t.calls.Keys == s.calls.Keys && o in t.calls
            && t.callers[c] == s.callers[c].(phase := if Storable(end) then Answered(Replayed(end.outcome)) else Trying)
            && (forall x | x in s.calls && x != o :: t.calls[x].ended == s.calls[x].ended)
            && t.calls[o].ended == Some(Kept(end))
  {
    EndedNowIs(s, cfg, e, c, o, ending);
  }

  lemma OtherRunsKeep(s: System, t: System, o: int, fingerprint: string, outcome: Outcome)
    requires t.claims == s.claims && t.calls.Keys == s.calls.Keys
    requires forall x | x in s.calls && x != o :: t.calls[x].ended == s.calls[x].ended
    ensures ProducedByOther(s, o, fingerprint, outcome) <==> ProducedByOther(t, o, fingerprint, outcome)
  {
    if ProducedByOther(s, o, fingerprint, outcome) {
      var x :| x in s.claims && x != o && EndedWith(s, x, fingerprint, outcome);
      assert EndedWith(t, x, fingerprint, outcome);
    }
    if ProducedByOther(t, o, fingerprint, outcome) {
      var x :| x in t.claims && x != o && EndedWith(t, x, fingerprint, outcome);
      assert EndedWith(s, x, fingerprint, outcome);
    }
  }

  /** Once a request waits on a run, executing or about to return, it is answered with that run's outcome whatever
      its fingerprint, or tries again when that was not kept; the answer is right if and only if the run is of the
      request's fingerprint or another of its own has given the same outcome. */
  lemma AttachedAnswerExactly(s: System, cfg: Settings, e: nat, c: nat, o: int, ending: Ending)
    requires Inv(s) && Runs(s, e, o) && At(s, c) && s.callers[c].phase == WaitsHere(o)
    ensures var t, end := AnsweredThen(s, cfg, e, c, o, ending), EndingOf(s, e, ending);
            && At(t, c) && o in s.claims
            && t.callers[c].phase == (if Storable(end) then Answered(Replayed(end.outcome)) else Trying)
            && (Own(t, t.callers[c]) <==>
                  || !Storable(end) || s.claims[o].fingerprint == s.callers[c].fingerprint
                  || ProducedByOther(s, o, s.callers[c].fingerprint, end.outcome))
  {
    var t, end := AnsweredThen(s, cfg, e, c, o, ending), EndingOf(s, e, ending);
    assert PhaseOk(s, s.callers[c]);
    AnswerIsThatRuns(s, cfg, e, c, o, ending);
    if Storable(end) {
      ProducedByOne(t, o, s.callers[c].fingerprint, end.outcome);
      OtherRunsKeep(s, t, o, s.callers[c].fingerprint, end.outcome);
    }
  }
}
