/** Exactly once over many processes: one key in Redis, repeated while its record has not expired. */
module IdempotencyOnceEverywhere {
  import opened Basics
  import opened IdempotencyMemory
  import opened IdempotencyRedis
  import opened IdempotencyProcesses

  /** The key's record, if any, has not expired. */
  predicate Timely(s: System) {
    s.slot.record.Some? ==> s.slot.record.value.expiresAt > s.now
  }

  /** One request, of a method whose outcome is stored, repeated anywhere; its run ends with an outcome that can be
      stored, and the finish script reaches Redis. */
  predicate SameRequest(step: Step, fingerprint: string) {
    match step
    case Arrive(_, f, safe) => f == fingerprint && !safe
    case Finish(_, ending, encodes, reached) => Storable(ending) && encodes && reached
    case _ => true
  }

  predicate Calm(s: System, step: Step, fingerprint: string) {
    Timely(s) && SameRequest(step, fingerprint)
  }

  function OutcomeOf(a: Answer): Option<Outcome> {
    match a
    case Executed(Ended(outcome)) => Some(outcome)
    case Replayed(outcome) => Some(outcome)
    case _ => None
  }

  /** A record of the one run: running while it has not ended, then its outcome. */
  predicate ValueOnce(s: System, v: Value, fingerprint: string, o: int) {
    o in s.calls &&
    match v
    case RunningValue(f, owner) => f == fingerprint && owner == o
    case DoneValue(f, outcome) => f == fingerprint && s.calls[o].ended == Some(Some(outcome))
    case Flag => false
  }

  predicate RecordOnce(s: System, fingerprint: string, first: Option<int>) {
    if first.None? then s.slot.record.None?
    else
      && s.slot.record.Some? && ValueOnce(s, s.slot.record.value.value, fingerprint, first.value)
      && (s.slot.record.value.value.RunningValue? ==> s.calls[first.value].ended.None?)
  }

  predicate CallerOnce(s: System, caller: Caller, fingerprint: string, first: Option<int>) {
    && caller.fingerprint == fingerprint && !caller.safe
    && match caller.phase
       case Written(o) => first == Some(o)
       case Executing(o) => first == Some(o)
       case Closing(o, ending) => first == Some(o) && Storable(ending)
       case Read(value) => value.Some? ==> first.Some? && ValueOnce(s, value.value, fingerprint, first.value)
       case WaitsHere(o) => first == Some(o)
       case RemoteRead(v) => first.Some? && ValueOnce(s, v, fingerprint, first.value)
       case Answered(answer) =>
         first.Some? && first.value in s.calls && OutcomeOf(answer).Some?
         && s.calls[first.value].ended == Some(OutcomeOf(answer))
       case _ => true
  }

  predicate TablesOnce(s: System, first: Option<int>) {
    && (forall o | o in s.claims :: first == Some(o))
    && (forall p | p in s.runs :: first == Some(s.runs[p]))
  }

  ghost predicate Once(s: System, fingerprint: string, first: Option<int>) {
    && RecordOnce(s, fingerprint, first) && TablesOnce(s, first)
    && (forall i | 0 <= i < |s.callers| :: CallerOnce(s, s.callers[i], fingerprint, first))
  }

  lemma EndStays(s: System, t: System, o: int)
    requires Grows(s, t) && o in s.calls
    ensures o in t.calls && (s.calls[o].ended.Some? ==> t.calls[o].ended == s.calls[o].ended)
  {
    var ended := s.calls[o].ended;
    assert ended.Some? ==> t.calls[o].ended == ended;
  }

  lemma CallerStaysOnce(s: System, t: System, caller: Caller, fingerprint: string, first: Option<int>)
    requires Grows(s, t) && CallerOnce(s, caller, fingerprint, first)
    ensures CallerOnce(t, caller, fingerprint, first)
  {
    if first.Some? && first.value in s.calls {
      EndStays(s, t, first.value);
    }
  }

  lemma OtherStaysOnce(s: System, cfg: Settings, step: Step, i: nat, fingerprint: string, first: Option<int>)
    requires Inv(s) && Enabled(s, step) && i < |s.callers| && CallerOnce(s, s.callers[i], fingerprint, first)
    requires !step.Arrive? && (step.Tick? || i != step.caller)
    ensures i < |Next(s, cfg, step).callers| && CallerOnce(Next(s, cfg, step), Next(s, cfg, step).callers[i], fingerprint, first)
  {
    StepGrows(s, cfg, step);
    StepMovesOne(s, cfg, step, i);
    CallerStaysOnce(s, Next(s, cfg, step), s.callers[i], fingerprint, first);
  }

  lemma SameCallers(s: System, cfg: Settings, step: Step)
    requires Enabled(s, step) && !step.Arrive?
    ensures |Next(s, cfg, step).callers| == |s.callers|
  {
  }

  /** The callers a step leaves alone. */
  lemma OthersStayOnce(s: System, cfg: Settings, step: Step, fingerprint: string, first: Option<int>)
    requires Inv(s) && Enabled(s, step) && Once(s, fingerprint, first)
    requires !step.Arrive?
    ensures var t := Next(s, cfg, step);
            && |t.callers| == |s.callers|
            && forall i | 0 <= i < |s.callers| && (step.Tick? || i != step.caller) ::
                 CallerOnce(t, t.callers[i], fingerprint, first)
  {
    SameCallers(s, cfg, step);
    forall i | 0 <= i < |s.callers| && (step.Tick? || i != step.caller)
      ensures CallerOnce(Next(s, cfg, step), Next(s, cfg, step).callers[i], fingerprint, first)
    {
      OtherStaysOnce(s, cfg, step, i, fingerprint, first);
    }
  }

  lemma WriteOnce(s: System, cfg: Settings, c: nat, owner: int, fingerprint: string, first: Option<int>)
    returns (next: Option<int>)
    requires Inv(s) && Enabled(s, Write(c, owner)) && Timely(s) && Once(s, fingerprint, first)
    ensures Once(Next(s, cfg, Write(c, owner)), fingerprint, next) && (first.Some? ==> next == first)
  {
    var t := Next(s, cfg, Write(c, owner));
    next := if first.None? then Some(owner) else first;
    WriteGrows(s, cfg, c, owner);
    assert CallerOnce(s, s.callers[c], fingerprint, first);
    forall i | 0 <= i < |t.callers|
      ensures CallerOnce(t, t.callers[i], fingerprint, next)
    {
      assert CallerOnce(s, s.callers[i], fingerprint, first);
    }
  }

  lemma FinishOnce(
    s: System, cfg: Settings, c: nat, ending: Ending, encodes: bool, reached: bool, fingerprint: string, first: Option<int>)
    requires Inv(s) && Enabled(s, Finish(c, ending, encodes, reached)) && Timely(s) && Once(s, fingerprint, first)
    requires SameRequest(Finish(c, ending, encodes, reached), fingerprint)
    ensures Once(Next(s, cfg, Finish(c, ending, encodes, reached)), fingerprint, first)
  {
    var step := Finish(c, ending, encodes, reached);
    assert CallerOnce(s, s.callers[c], fingerprint, first) && PhaseOk(s, s.callers[c]);
    OthersStayOnce(s, cfg, step, fingerprint, first);
    FinishedRecord(s, cfg, c, ending, fingerprint, first);
  }

  lemma FinishedRecord(s: System, cfg: Settings, c: nat, ending: Ending, fingerprint: string, first: Option<int>)
    requires Inv(s) && Enabled(s, Finish(c, ending, true, true)) && Timely(s) && Once(s, fingerprint, first)
    requires Storable(ending)
    ensures var t := Next(s, cfg, Finish(c, ending, true, true));
            && RecordOnce(t, fingerprint, first) && TablesOnce(t, first)
            && CallerOnce(t, t.callers[c], fingerprint, first)
  {
    assert CallerOnce(s, s.callers[c], fingerprint, first) && PhaseOk(s, s.callers[c]);
  }

  /** The steps that leave the record's value and the tables of claims and runs alone. */
  lemma MoverOnce(s: System, cfg: Settings, step: Step, fingerprint: string, first: Option<int>)
    requires Inv(s) && Enabled(s, step) && Timely(s) && Once(s, fingerprint, first)
    requires !step.Arrive? && !step.Tick? && !step.Write? && !step.Finish?
    ensures var t := Next(s, cfg, step);
            step.caller < |t.callers| && CallerOnce(t, t.callers[step.caller], fingerprint, first)
  {
    assert CallerOnce(s, s.callers[step.caller], fingerprint, first) && PhaseOk(s, s.callers[step.caller]);
    match step
    case Decide(c) => DeciderOnce(s, cfg, c, fingerprint, first);
    case Look(c) =>
    case RemoteFetch(c) => RemoteOnce(s, cfg, step, fingerprint, first);
    case RemoteLook(c) => RemoteOnce(s, cfg, step, fingerprint, first);
    case _ =>
  }

  lemma DeciderOnce(s: System, cfg: Settings, c: nat, fingerprint: string, first: Option<int>)
    requires Inv(s) && Enabled(s, Decide(c)) && Once(s, fingerprint, first)
    ensures CallerOnce(Decided(s, c), Decided(s, c).callers[c], fingerprint, first)
  {
    assert CallerOnce(s, s.callers[c], fingerprint, first);
  }

  lemma RemoteOnce(s: System, cfg: Settings, step: Step, fingerprint: string, first: Option<int>)
    requires Inv(s) && Enabled(s, step) && Timely(s) && Once(s, fingerprint, first)
    requires step.RemoteFetch? || step.RemoteLook?
    ensures var t := Next(s, cfg, step);
            step.caller < |t.callers| && CallerOnce(t, t.callers[step.caller], fingerprint, first)
  {
    assert CallerOnce(s, s.callers[step.caller], fingerprint, first);
  }

  /** A step that runs no script, or one on the record of the one run, leaves the record as it was. */
  lemma RecordStaysOnce(s: System, cfg: Settings, step: Step, fingerprint: string, first: Option<int>)
    requires Inv(s) && Enabled(s, step) && Timely(s) && Once(s, fingerprint, first)
    requires !step.Write? && !step.Finish?
    ensures RecordOnce(Next(s, cfg, step), fingerprint, first)
  {
    if step.Renew? {
      assert CallerOnce(s, s.callers[step.caller], fingerprint, first) && PhaseOk(s, s.callers[step.caller]);
    }
  }

  lemma TablesStayOnce(s: System, cfg: Settings, step: Step, fingerprint: string, first: Option<int>)
    requires Inv(s) && Enabled(s, step) && Timely(s) && Once(s, fingerprint, first)
    requires !step.Write? && !step.Finish?
    ensures RecordOnce(Next(s, cfg, step), fingerprint, first) && TablesOnce(Next(s, cfg, step), first)
  {
    RecordStaysOnce(s, cfg, step, fingerprint, first);
    if step.Register? || step.Forget? {
      assert CallerOnce(s, s.callers[step.caller], fingerprint, first);
    }
  }

  lemma ArriveOnce(s: System, cfg: Settings, step: Step, fingerprint: string, first: Option<int>)
    requires Inv(s) && Timely(s) && Once(s, fingerprint, first) && step.Arrive? && SameRequest(step, fingerprint)
    ensures Once(Next(s, cfg, step), fingerprint, first)
  {
    TablesStayOnce(s, cfg, step, fingerprint, first);
    forall i | 0 <= i < |s.callers|
      ensures CallerOnce(Next(s, cfg, step), s.callers[i], fingerprint, first)
    {
      CallerStaysOnce(s, Next(s, cfg, step), s.callers[i], fingerprint, first);
    }
  }

  lemma QuietOnce(s: System, cfg: Settings, step: Step, fingerprint: string, first: Option<int>)
    requires Inv(s) && Enabled(s, step) && Timely(s) && Once(s, fingerprint, first)
    requires !step.Arrive? && !step.Write? && !step.Finish?
    ensures Once(Next(s, cfg, step), fingerprint, first)
  {
    TablesStayOnce(s, cfg, step, fingerprint, first);
    OthersStayOnce(s, cfg, step, fingerprint, first);
    if !step.Tick? {
      MoverOnce(s, cfg, step, fingerprint, first);
    }
  }

  lemma StepOnce(s: System, cfg: Settings, step: Step, fingerprint: string, first: Option<int>)
    returns (next: Option<int>)
    requires Inv(s) && Enabled(s, step) && Timely(s) && Once(s, fingerprint, first) && SameRequest(step, fingerprint)
    ensures Once(Next(s, cfg, step), fingerprint, next) && (first.Some? ==> next == first)
  {
    next := first;
    match step
    case Write(c, owner) => next := WriteOnce(s, cfg, c, owner, fingerprint, first);
    case Finish(c, ending, encodes, reached) =>
      FinishOnce(s, cfg, c, ending, encodes, reached, fingerprint, first);
    case Arrive(_, _, _) => ArriveOnce(s, cfg, step, fingerprint, first);
    case _ => QuietOnce(s, cfg, step, fingerprint, first);
  }

  lemma MoveOnce(
    cfg: Settings, states: seq<System>, step: Step, i: nat, fingerprint: string, first: Option<int>)
    returns (next: Option<int>)
    requires i + 1 < |states| && Moves(cfg, states, step, i) && Inv(states[i])
    requires Calm(states[i], step, fingerprint) && Once(states[i], fingerprint, first)
    ensures Once(states[i + 1], fingerprint, next)
  {
    next := StepOnce(states[i], cfg, step, fingerprint, first);
  }

  lemma {:induction false} ExecutionOnce(
    cfg: Settings, states: seq<System>, steps: seq<Step>, n: nat, fingerprint: string)
    returns (first: Option<int>)
    requires Execution(cfg, states, steps) && n <= |steps|
    requires forall i | 0 <= i < n :: Calm(states[i], steps[i], fingerprint)
    ensures Once(states[n], fingerprint, first)
  {
    if n == 0 {
      first := None;
    } else {
      first := ExecutionOnce(cfg, states, steps, n - 1, fingerprint);
      ExecutionKeeps(cfg, states, steps, n - 1);
      assert Calm(states[n - 1], steps[n - 1], fingerprint);
      first := MoveOnce(cfg, states, steps[n - 1], n - 1, fingerprint, first);
    }
  }

  /** Repeats of one request over any processes, while its record has not expired: the action runs once, and every
      answer carries its outcome. */
  lemma RunsOnceAnswersAlike(cfg: Settings, states: seq<System>, steps: seq<Step>, n: nat, fingerprint: string)
    requires Execution(cfg, states, steps) && n <= |steps|
    requires forall i | 0 <= i < n :: Calm(states[i], steps[i], fingerprint)
    ensures forall a, b | a in states[n].claims && b in states[n].claims :: a == b
    ensures forall i, j | 0 <= i < |states[n].callers| && 0 <= j < |states[n].callers|
                          && states[n].callers[i].phase.Answered? && states[n].callers[j].phase.Answered? ::
              OutcomeOf(states[n].callers[i].phase.answer).Some?
              && OutcomeOf(states[n].callers[i].phase.answer) == OutcomeOf(states[n].callers[j].phase.answer)
  {
    var first := ExecutionOnce(cfg, states, steps, n, fingerprint);
    forall i | 0 <= i < |states[n].callers| && states[n].callers[i].phase.Answered?
      ensures first.Some? && OutcomeOf(states[n].callers[i].phase.answer).Some?
      ensures first.value in states[n].calls
              && states[n].calls[first.value].ended == Some(OutcomeOf(states[n].callers[i].phase.answer))
    {
      assert CallerOnce(states[n], states[n].callers[i], fingerprint, first);
    }
  }
}
