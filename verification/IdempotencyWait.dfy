/** A repeat in another process, waiting on the key's channel: its SUBSCRIBE goes over one connection, its reads of
    the record over another, and the finishing process publishes after its script. */
module IdempotencyWait {
  import opened Basics
  import opened IdempotencyMemory
  import opened IdempotencyRedis

  /** What arrives on the subscriber's connection; both end a wait. */
  datatype Item = Confirmation | Message

  datatype Waiter =
    | Looking
    | Asking
    | Blocked(deadline: int)
    | Left(record: Option<Value>)

  /** `unpublished` counts the calls whose finish script was sent and whose publish was not; `subscribed` says
      whether the server has run the SUBSCRIBE. */
  datatype System = System(slot: Slot, now: int, unpublished: nat, subscribed: bool, queue: seq<Item>, waiter: Waiter)

  datatype Step =
    | Claim(running: Value)
    | Renew(running: Value)
    | Finish(running: Value, done: Value, mode: Mode, attached: bool)
    | FinishFails
    | Publish
    | Subscribe
    | Get
    | AskTtl
    | Wake
    | Tick(ms: nat)

  /** The repeat sends its SUBSCRIBE and reads the record; what the server then holds is anything it can hold. */
  predicate Starts(s: System, cfg: Settings) {
    && !s.subscribed && s.queue == [] && s.waiter == Looking && RecordOk(s.slot, s.now, cfg)
  }

  predicate Enabled(s: System, step: Step) {
    match step
    case Claim(running) => running.RunningValue?
    case Renew(running) => running.RunningValue?
    case Finish(running, done, _, _) => running.RunningValue? && done.DoneValue?
    case FinishFails => true
    case Publish => s.unpublished > 0
    case Subscribe => !s.subscribed
    case Get => s.waiter.Looking?
    case AskTtl => s.waiter.Asking?
    case Wake => s.waiter.Blocked? && (s.queue != [] || s.now >= s.waiter.deadline)
    case Tick(_) => true
  }

  predicate IsRunning(s: Slot, now: int) {
    Alive(s.record, now).Some? && Alive(s.record, now).value.RunningValue?
  }

  function Next(s: System, cfg: Settings, step: Step): System
    requires Enabled(s, step)
  {
    match step
    case Claim(running) => s.(slot := ClaimSlot(s.slot, running, cfg.lockTtl, s.now).0)
    case Renew(running) => s.(slot := RenewSlot(s.slot, running, cfg.lockTtl, s.now).0)
    case Finish(running, done, mode, attached) =>
      s.(slot := FinishSlot(s.slot, running, done, cfg.ttl, mode, attached, s.now).0, unpublished := s.unpublished + 1)
    case FinishFails => s.(unpublished := s.unpublished + 1)
    case Publish =>
      s.(unpublished := s.unpublished - 1, queue := if s.subscribed then s.queue + [Message] else s.queue)
    case Subscribe => s.(subscribed := true, queue := s.queue + [Confirmation])
    case Get =>
      s.(waiter := if IsRunning(s.slot, s.now) then Asking else Left(Alive(s.slot.record, s.now)))
    case AskTtl =>
      s.(waiter := if Alive(s.slot.record, s.now).Some? then Blocked(s.slot.record.value.expiresAt) else Left(None))
    case Wake => s.(queue := if s.queue != [] then s.queue[1..] else [], waiter := Looking)
    case Tick(ms) => s.(now := s.now + ms)
  }

  /** Something that ends the wait is in the queue or will be: the confirmation, or a publish still to run. */
  predicate WakeComing(s: System) {
    !s.subscribed || s.queue != [] || s.unpublished > 0
  }

  /** A running record's lock is at most the lock TTL long, so a renewal never shortens it. */
  predicate RecordOk(s: Slot, now: int, cfg: Settings) {
    IsRunning(s, now) ==> s.record.value.expiresAt <= now + cfg.lockTtl
  }

  predicate Inv(s: System, cfg: Settings) {
    && RecordOk(s.slot, s.now, cfg)
    && (s.waiter.Asking? ==> WakeComing(s) || Alive(s.slot.record, s.now).None? || IsRunning(s.slot, s.now))
    && (s.waiter.Blocked? ==>
          || WakeComing(s) || s.now >= s.waiter.deadline
          || (IsRunning(s.slot, s.now) && s.waiter.deadline <= s.slot.record.value.expiresAt))
  }

  lemma StepKeeps(s: System, cfg: Settings, step: Step)
    requires Inv(s, cfg) && Enabled(s, step)
    ensures Inv(Next(s, cfg, step), cfg)
  {
  }

  ghost predicate Moves(cfg: Settings, states: seq<System>, step: Step, i: nat)
    requires i + 1 < |states|
  {
    Enabled(states[i], step) && states[i + 1] == Next(states[i], cfg, step)
  }

  ghost predicate Execution(cfg: Settings, states: seq<System>, steps: seq<Step>) {
    && |states| == |steps| + 1 && Starts(states[0], cfg)
    && forall i {:trigger Moves(cfg, states, steps[i], i)} | 0 <= i < |steps| :: Moves(cfg, states, steps[i], i)
  }

  lemma {:induction false} ExecutionKeeps(cfg: Settings, states: seq<System>, steps: seq<Step>, n: nat)
    requires Execution(cfg, states, steps) && n <= |steps|
    ensures Inv(states[n], cfg)
  {
    if n > 0 {
      ExecutionKeeps(cfg, states, steps, n - 1);
      assert Moves(cfg, states, steps[n - 1], n - 1);
      StepKeeps(states[n - 1], cfg, steps[n - 1]);
    }
  }

  /** No lost wake-up, over every run: a blocked repeat whose key has no running record any more is due or has a
      wake coming, and one whose key has one never sleeps past its lock. */
  lemma NoLostWakeUp(cfg: Settings, states: seq<System>, steps: seq<Step>, n: nat)
    requires Execution(cfg, states, steps) && n <= |steps| && states[n].waiter.Blocked?
    ensures !IsRunning(states[n].slot, states[n].now) ==> WakeComing(states[n]) || Enabled(states[n], Wake)
    ensures IsRunning(states[n].slot, states[n].now) ==>
      WakeComing(states[n]) || Enabled(states[n], Wake) || states[n].waiter.deadline <= states[n].slot.record.value.expiresAt
  {
    ExecutionKeeps(cfg, states, steps, n);
  }

  /** When nothing of the finishing calls or of the SUBSCRIBE is left to run, a blocked repeat of a finished key can
      wake, and its next look leaves with what the key holds. */
  lemma SettledKeyWakes(cfg: Settings, states: seq<System>, steps: seq<Step>, n: nat)
    requires Execution(cfg, states, steps) && n <= |steps| && states[n].waiter.Blocked?
    requires states[n].subscribed && states[n].unpublished == 0 && !IsRunning(states[n].slot, states[n].now)
    ensures Enabled(states[n], Wake)
    ensures var t := Next(Next(states[n], cfg, Wake), cfg, Get);
            t.waiter == Left(Alive(states[n].slot.record, states[n].now))
  {
    ExecutionKeeps(cfg, states, steps, n);
  }

  /** A repeat that finds a call running sleeps until that call's lock expires, not less. */
  lemma SleepsUntilTheLock(s: System, cfg: Settings)
    requires Enabled(s, AskTtl)
    ensures var t := Next(s, cfg, AskTtl);
            && (IsRunning(s.slot, s.now) ==> t.waiter.Blocked?)
            && (t.waiter.Blocked? ==>
                  forall later | s.now <= later :: later < t.waiter.deadline <==> Alive(s.slot.record, later).Some?)
  {
  }
}
