/** Three runs in which a repeat is answered with the outcome of another request, one for each way its process can come
    to keep a run that is not the one in the record it read; the other two ways are absent from each. */
module IdempotencyStale {
  import opened Basics
  import opened IdempotencyMemory
  import opened IdempotencyRedis
  import opened IdempotencyProcesses
  import opened IdempotencyCauses

  const FIRST := "first request"
  const SECOND := "second request"

  /** The second request's claim in process 2, and its repeat in process 1. */
  function Repeat(phase: Phase, safe: bool): Caller {
    Caller(1, SECOND, safe, phase, None)
  }

  const TAKEN := RunningValue(SECOND, 2)

  // ---- the lock expires while the first run goes on ---------------------------------------------------

  function ExpiredSteps(cfg: Settings, outcome: Outcome): seq<Step>
    requires cfg.lockTtl > 0
  {
    [Arrive(1, FIRST, false), Write(0, 1), Register(0), Tick(cfg.lockTtl), Arrive(2, SECOND, false), Write(1, 2),
     Arrive(1, SECOND, false), Write(2, 3), Fetch(2), Decide(2), Finish(0, Ended(outcome), true, true), Forget(0),
     Look(2)]
  }

  function ExpiredState(cfg: Settings, outcome: Outcome, i: nat): System
    requires cfg.lockTtl > 0
  {
    var first := Caller(1, FIRST, false,
                        if i < 2 then Trying else if i < 3 then Written(1) else if i < 11 then Executing(1)
                        else if i < 12 then Closing(1, Ended(outcome)) else Answered(Executed(Ended(outcome))), None);
    var second := Caller(2, SECOND, false, if i < 6 then Trying else Written(2), None);
    var repeat :=
      Repeat(if i < 8 then Trying else if i < 9 then Missed else if i < 10 then Read(Some(TAKEN))
             else if i < 13 then WaitsHere(1) else Answered(Replayed(outcome)), false);
    var call := Call(i >= 10, if i < 11 then None else Some(Some(outcome)), i >= 12);
    System(
      Slot(if i < 2 then None else if i < 6 then Some(Entry(RunningValue(FIRST, 1), cfg.lockTtl))
           else Some(Entry(TAKEN, cfg.lockTtl + cfg.lockTtl)), None),
      if i < 4 then 0 else cfg.lockTtl,
      if i < 2 then map[] else if i < 6 then map[1 := Claim(1, FIRST)]
      else map[1 := Claim(1, FIRST), 2 := Claim(2, SECOND)],
      if i < 2 then map[] else if i < 6 then map[1 := call] else map[1 := call, 2 := Call(false, None, false)],
      if i < 3 || i >= 12 then map[] else map[1 := 1],
      if i < 1 then [] else if i < 5 then [first] else if i < 7 then [first, second] else [first, second, repeat])
  }

  lemma ExpiredBegins(cfg: Settings, outcome: Outcome, i: nat)
    requires cfg.lockTtl > 0 && i < 7
    ensures Enabled(ExpiredState(cfg, outcome, i), ExpiredSteps(cfg, outcome)[i])
    ensures Next(ExpiredState(cfg, outcome, i), cfg, ExpiredSteps(cfg, outcome)[i]) == ExpiredState(cfg, outcome, i + 1)
  {
    var t := Next(ExpiredState(cfg, outcome, i), cfg, ExpiredSteps(cfg, outcome)[i]);
    assert t.callers == ExpiredState(cfg, outcome, i + 1).callers;
  }

  lemma ExpiredEnds(cfg: Settings, outcome: Outcome, i: nat)
    requires cfg.lockTtl > 0 && 7 <= i < 13 && Storable(Ended(outcome))
    ensures Enabled(ExpiredState(cfg, outcome, i), ExpiredSteps(cfg, outcome)[i])
    ensures Next(ExpiredState(cfg, outcome, i), cfg, ExpiredSteps(cfg, outcome)[i]) == ExpiredState(cfg, outcome, i + 1)
  {
    var t := Next(ExpiredState(cfg, outcome, i), cfg, ExpiredSteps(cfg, outcome)[i]);
    assert t.callers == ExpiredState(cfg, outcome, i + 1).callers;
  }

  lemma ExpiredIsApart(cfg: Settings, outcome: Outcome, i: nat)
    requires cfg.lockTtl > 0 && i < 13
    ensures ClaimsApart(ExpiredState(cfg, outcome, i), ExpiredSteps(cfg, outcome)[i])
    ensures DecidesFresh(ExpiredState(cfg, outcome, i), ExpiredSteps(cfg, outcome)[i])
  {
  }

  lemma ExpiredReplays(cfg: Settings, outcome: Outcome)
    requires cfg.lockTtl > 0
    ensures AttachesElsewhere(ExpiredState(cfg, outcome, 9), Decide(2))
    ensures AnsweredElsewhere(ExpiredState(cfg, outcome, 12), Look(2))
    ensures !Produced(ExpiredState(cfg, outcome, 13), SECOND, outcome)
  {
  }

  /** The repeat of the second request is answered with the first one's outcome. No claim fell into the end of a call
      and no record read was stale. */
  lemma ExpiredLockReplaysAnother(cfg: Settings, outcome: Outcome) returns (states: seq<System>)
    requires cfg.lockTtl > 0 && Storable(Ended(outcome))
    ensures Execution(cfg, states, ExpiredSteps(cfg, outcome))
    ensures forall i | 0 <= i < 13 ::
      ClaimsApart(states[i], ExpiredSteps(cfg, outcome)[i]) && DecidesFresh(states[i], ExpiredSteps(cfg, outcome)[i])
    ensures AttachesElsewhere(states[9], Decide(2)) && AnsweredElsewhere(states[12], Look(2))
    ensures |states[13].callers| == 3 && states[13].callers[2] == Repeat(Answered(Replayed(outcome)), false)
    ensures !Produced(states[13], SECOND, outcome)
  {
    states := seq(14, i requires 0 <= i < 14 => ExpiredState(cfg, outcome, i));
    ExpiredReplays(cfg, outcome);
    var steps := ExpiredSteps(cfg, outcome);
    forall i | 0 <= i < |steps|
      ensures Moves(cfg, states, steps[i], i) && ClaimsApart(states[i], steps[i]) && DecidesFresh(states[i], steps[i])
    {
      ExpiredIsApart(cfg, outcome, i);
      if i < 7 {
        ExpiredBegins(cfg, outcome, i);
      } else {
        ExpiredEnds(cfg, outcome, i);
      }
    }
  }

  // ---- a repeat comes between the finish script and the end of the first call --------------------------

  /** No time passes and no lock expires: the first request is a GET nobody attached to. */
  function ClosingSteps(outcome: Outcome): seq<Step> {
    [Arrive(1, FIRST, true), Write(0, 1), Register(0), Finish(0, Ended(outcome), true, true), Arrive(2, SECOND, true),
     Write(1, 2), Arrive(1, SECOND, true), Write(2, 3), Fetch(2), Decide(2), Forget(0), Look(2)]
  }

  function ClosingState(cfg: Settings, outcome: Outcome, i: nat): System {
    var first := Caller(1, FIRST, true,
                        if i < 2 then Trying else if i < 3 then Written(1) else if i < 4 then Executing(1)
                        else if i < 11 then Closing(1, Ended(outcome)) else Answered(Executed(Ended(outcome))), None);
    var second := Caller(2, SECOND, true, if i < 6 then Trying else Written(2), None);
    var repeat :=
      Repeat(if i < 8 then Trying else if i < 9 then Missed else if i < 10 then Read(Some(TAKEN))
             else if i < 12 then WaitsHere(1) else Answered(Replayed(outcome)), true);
    var call := Call(i >= 10, if i < 4 then None else Some(Some(outcome)), i >= 11);
    System(
      Slot(if i < 2 || 4 <= i < 6 then None else if i < 4 then Some(Entry(RunningValue(FIRST, 1), cfg.lockTtl))
           else Some(Entry(TAKEN, cfg.lockTtl)), None),
      0,
      if i < 2 then map[] else if i < 6 then map[1 := Claim(1, FIRST)]
      else map[1 := Claim(1, FIRST), 2 := Claim(2, SECOND)],
      if i < 2 then map[] else if i < 6 then map[1 := call] else map[1 := call, 2 := Call(false, None, false)],
      if i < 3 || i >= 11 then map[] else map[1 := 1],
      if i < 1 then [] else if i < 5 then [first] else if i < 7 then [first, second] else [first, second, repeat])
  }

  lemma ClosingBegins(cfg: Settings, outcome: Outcome, i: nat)
    requires cfg.lockTtl > 0 && i < 7 && Storable(Ended(outcome))
    ensures Enabled(ClosingState(cfg, outcome, i), ClosingSteps(outcome)[i])
    ensures Next(ClosingState(cfg, outcome, i), cfg, ClosingSteps(outcome)[i]) == ClosingState(cfg, outcome, i + 1)
  {
    var t := Next(ClosingState(cfg, outcome, i), cfg, ClosingSteps(outcome)[i]);
    assert t.callers == ClosingState(cfg, outcome, i + 1).callers;
  }

  lemma ClosingReads(cfg: Settings, outcome: Outcome, i: nat)
    requires cfg.lockTtl > 0 && 7 <= i < 10
    ensures Enabled(ClosingState(cfg, outcome, i), ClosingSteps(outcome)[i])
    ensures Next(ClosingState(cfg, outcome, i), cfg, ClosingSteps(outcome)[i]) == ClosingState(cfg, outcome, i + 1)
  {
    var t := Next(ClosingState(cfg, outcome, i), cfg, ClosingSteps(outcome)[i]);
    assert t.callers == ClosingState(cfg, outcome, i + 1).callers;
  }

  lemma ClosingEnds(cfg: Settings, outcome: Outcome, i: nat)
    requires 10 <= i < 12
    ensures Enabled(ClosingState(cfg, outcome, i), ClosingSteps(outcome)[i])
    ensures Next(ClosingState(cfg, outcome, i), cfg, ClosingSteps(outcome)[i]) == ClosingState(cfg, outcome, i + 1)
  {
    var t := Next(ClosingState(cfg, outcome, i), cfg, ClosingSteps(outcome)[i]);
    assert t.callers == ClosingState(cfg, outcome, i + 1).callers;
  }

  lemma ClosingIsInTime(cfg: Settings, outcome: Outcome, i: nat)
    requires cfg.lockTtl > 0 && i < 12
    ensures InTime(ClosingState(cfg, outcome, i)) && DecidesFresh(ClosingState(cfg, outcome, i), ClosingSteps(outcome)[i])
  {
  }

  lemma ClosingReplays(cfg: Settings, outcome: Outcome)
    requires cfg.lockTtl > 0
    ensures AttachesElsewhere(ClosingState(cfg, outcome, 9), Decide(2))
    ensures AnsweredElsewhere(ClosingState(cfg, outcome, 11), Look(2))
    ensures !Produced(ClosingState(cfg, outcome, 12), SECOND, outcome)
  {
  }

  /** The same with no time passing and no stale record: the second request claims the key before the first call
      returns. */
  lemma ClosingCallReplaysAnother(cfg: Settings, outcome: Outcome) returns (states: seq<System>)
    requires cfg.lockTtl > 0 && Storable(Ended(outcome))
    ensures Execution(cfg, states, ClosingSteps(outcome))
    ensures forall i | 0 <= i < 12 :: states[i].now == 0 && InTime(states[i]) && DecidesFresh(states[i], ClosingSteps(outcome)[i])
    ensures AttachesElsewhere(states[9], Decide(2)) && AnsweredElsewhere(states[11], Look(2))
    ensures |states[12].callers| == 3 && states[12].callers[2] == Repeat(Answered(Replayed(outcome)), true)
    ensures !Produced(states[12], SECOND, outcome)
  {
    states := seq(13, i requires 0 <= i < 13 => ClosingState(cfg, outcome, i));
    ClosingReplays(cfg, outcome);
    var steps := ClosingSteps(outcome);
    forall i | 0 <= i < |steps|
      ensures Moves(cfg, states, steps[i], i) && InTime(states[i]) && DecidesFresh(states[i], steps[i])
    {
      ClosingIsInTime(cfg, outcome, i);
      if i < 7 {
        ClosingBegins(cfg, outcome, i);
      } else if i < 10 {
        ClosingReads(cfg, outcome, i);
      } else {
        ClosingEnds(cfg, outcome, i);
      }
    }
  }

  // ---- the record read is gone by the time the repeat decides on it ------------------------------------

  const READ := RunningValue(FIRST, 1)

  /** One process and no time: a repeat of the first request reads the running record, the first call finishes and
      returns, the second request claims the key, and only then does the repeat look at what its process runs. */
  function StaleSteps(outcome: Outcome, other: Outcome): seq<Step> {
    [Arrive(1, FIRST, true), Write(0, 1), Register(0), Arrive(1, FIRST, true), Write(1, 2), Fetch(1),
     Finish(0, Ended(outcome), true, true), Forget(0), Arrive(1, SECOND, true), Write(2, 3), Register(2), Decide(1),
     Finish(2, Ended(other), true, true), Forget(2), Look(1)]
  }

  function StaleState(cfg: Settings, outcome: Outcome, other: Outcome, i: nat): System {
    var first := Caller(1, FIRST, true,
                        if i < 2 then Trying else if i < 3 then Written(1) else if i < 7 then Executing(1)
                        else if i < 8 then Closing(1, Ended(outcome)) else Answered(Executed(Ended(outcome))), None);
    var repeat := Caller(1, FIRST, true,
                         if i < 5 then Trying else if i < 6 then Missed else if i < 12 then Read(Some(READ))
                         else if i < 15 then WaitsHere(3) else Answered(Replayed(other)), None);
    var second := Caller(1, SECOND, true,
                         if i < 10 then Trying else if i < 11 then Written(3) else if i < 13 then Executing(3)
                         else if i < 14 then Closing(3, Ended(other)) else Answered(Executed(Ended(other))), None);
    var call := Call(false, if i < 7 then None else Some(Some(outcome)), i >= 8);
    var later := Call(i >= 12, if i < 13 then None else Some(Some(other)), i >= 14);
    System(
      Slot(if i < 2 || 7 <= i < 10 then None else if i < 7 then Some(Entry(READ, cfg.lockTtl))
           else if i < 13 then Some(Entry(RunningValue(SECOND, 3), cfg.lockTtl))
           else Some(Entry(DoneValue(SECOND, other), cfg.ttl)), None),
      0,
      if i < 2 then map[] else if i < 10 then map[1 := Claim(1, FIRST)]
      else map[1 := Claim(1, FIRST), 3 := Claim(1, SECOND)],
      if i < 2 then map[] else if i < 10 then map[1 := call] else map[1 := call, 3 := later],
      if i < 3 || 8 <= i < 11 || i >= 14 then map[] else if i < 8 then map[1 := 1] else map[1 := 3],
      if i < 1 then [] else if i < 4 then [first] else if i < 9 then [first, repeat] else [first, repeat, second])
  }

  lemma StaleBegins(cfg: Settings, outcome: Outcome, other: Outcome, i: nat)
    requires cfg.lockTtl > 0 && i < 7 && Storable(Ended(outcome))
    ensures Enabled(StaleState(cfg, outcome, other, i), StaleSteps(outcome, other)[i])
    ensures Next(StaleState(cfg, outcome, other, i), cfg, StaleSteps(outcome, other)[i]) ==
            StaleState(cfg, outcome, other, i + 1)
  {
    var t := Next(StaleState(cfg, outcome, other, i), cfg, StaleSteps(outcome, other)[i]);
    assert t.callers == StaleState(cfg, outcome, other, i + 1).callers;
  }

  lemma StaleReturns(cfg: Settings, outcome: Outcome, other: Outcome, i: nat)
    requires cfg.lockTtl > 0 && 7 <= i < 10
    ensures Enabled(StaleState(cfg, outcome, other, i), StaleSteps(outcome, other)[i])
    ensures Next(StaleState(cfg, outcome, other, i), cfg, StaleSteps(outcome, other)[i]) ==
            StaleState(cfg, outcome, other, i + 1)
  {
    var t := Next(StaleState(cfg, outcome, other, i), cfg, StaleSteps(outcome, other)[i]);
    assert t.callers == StaleState(cfg, outcome, other, i + 1).callers;
  }

  lemma StaleAttaches(cfg: Settings, outcome: Outcome, other: Outcome, i: nat)
    requires 10 <= i < 12
    ensures Enabled(StaleState(cfg, outcome, other, i), StaleSteps(outcome, other)[i])
    ensures Next(StaleState(cfg, outcome, other, i), cfg, StaleSteps(outcome, other)[i]) ==
            StaleState(cfg, outcome, other, i + 1)
  {
    var t := Next(StaleState(cfg, outcome, other, i), cfg, StaleSteps(outcome, other)[i]);
    assert t.callers == StaleState(cfg, outcome, other, i + 1).callers;
  }

  lemma StaleEnds(cfg: Settings, outcome: Outcome, other: Outcome, i: nat)
    requires cfg.lockTtl > 0 && 12 <= i < 15 && Storable(Ended(other))
    ensures Enabled(StaleState(cfg, outcome, other, i), StaleSteps(outcome, other)[i])
    ensures Next(StaleState(cfg, outcome, other, i), cfg, StaleSteps(outcome, other)[i]) ==
            StaleState(cfg, outcome, other, i + 1)
  {
    var t := Next(StaleState(cfg, outcome, other, i), cfg, StaleSteps(outcome, other)[i]);
    assert t.callers == StaleState(cfg, outcome, other, i + 1).callers;
  }

  lemma StaleIsInTime(cfg: Settings, outcome: Outcome, other: Outcome, i: nat)
    requires cfg.lockTtl > 0 && i < 15
    ensures InTime(StaleState(cfg, outcome, other, i))
    ensures ClaimsApart(StaleState(cfg, outcome, other, i), StaleSteps(outcome, other)[i])
  {
  }

  lemma StaleReplays(cfg: Settings, outcome: Outcome, other: Outcome)
    requires cfg.lockTtl > 0 && outcome != other
    ensures AttachesElsewhere(StaleState(cfg, outcome, other, 11), Decide(1))
    ensures AnsweredElsewhere(StaleState(cfg, outcome, other, 14), Look(1))
    ensures !Produced(StaleState(cfg, outcome, other, 15), FIRST, other)
  {
  }

  /** The repeat of the first request is answered with the second one's outcome. No time passes, no lock expires, and
      the first call has returned when the second request claims the key: only the record read was stale. */
  lemma StaleReadReplaysAnother(cfg: Settings, outcome: Outcome, other: Outcome) returns (states: seq<System>)
    requires cfg.lockTtl > 0 && Storable(Ended(outcome)) && Storable(Ended(other)) && outcome != other
    ensures Execution(cfg, states, StaleSteps(outcome, other))
    ensures forall i | 0 <= i < 15 ::
      states[i].now == 0 && InTime(states[i]) && ClaimsApart(states[i], StaleSteps(outcome, other)[i])
    ensures AttachesElsewhere(states[11], Decide(1)) && AnsweredElsewhere(states[14], Look(1))
    ensures |states[15].callers| == 3 && states[15].callers[1] == Caller(1, FIRST, true, Answered(Replayed(other)), None)
    ensures !Produced(states[15], FIRST, other)
  {
    states := seq(16, i requires 0 <= i < 16 => StaleState(cfg, outcome, other, i));
    StaleReplays(cfg, outcome, other);
    var steps := StaleSteps(outcome, other);
    forall i | 0 <= i < |steps|
      ensures Moves(cfg, states, steps[i], i) && InTime(states[i]) && ClaimsApart(states[i], steps[i])
    {
      StaleIsInTime(cfg, outcome, other, i);
      if i < 7 {
        StaleBegins(cfg, outcome, other, i);
      } else if i < 10 {
        StaleReturns(cfg, outcome, other, i);
      } else if i < 12 {
        StaleAttaches(cfg, outcome, other, i);
      } else {
        StaleEnds(cfg, outcome, other, i);
      }
    }
  }
}
