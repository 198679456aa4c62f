/** Repeating a call whose attempts end without an answer. */
module Call {
  import opened Basics

  datatype Failure = Timeout | Lost

  /** How an attempt ends: with an answer, an error that is one (no failure), or a failure. */
  datatype Result = Answer | Error(failure: Option<Failure>)

  /** What the world does around one attempt, in milliseconds: the attempt itself, the delay after it and whether
      `retryNow()` ended that, and the wait for the transport before the repeat. */
  datatype Round = Round(result: Result, took: nat, slept: nat, woken: bool, prepared: nat)

  type World = nat -> Round

  /** `Retry` announces a repeat after the attempt; `woken` says whether its delay was cut short. */
  datatype Event =
    | Start(attempt: nat, at: int)
    | Abandon(attempt: nat)
    | Retry(attempt: nat, failure: Failure, delayMs: int, woken: bool)

  datatype Ended = Returned(attempt: nat) | Threw(attempt: nat)

  const MAX_DELAY := 30000

  function Doubled(first: nat, n: nat): nat {
    if n == 0 then first else Doubled(first, n - 1) * 2
  }

  /** The delay after `n` losses: the first as configured, then doubled up to the cap. */
  function DelayAfter(first: nat, n: nat): int {
    if n == 0 then first else Min(Doubled(first, n), MAX_DELAY)
  }

  /** Losses announced since the start or since a delay was cut short. */
  function Losses(log: seq<Event>): nat {
    if log == [] then 0
    else
      var before := Losses(log[..|log| - 1]);
      match log[|log| - 1]
      case Retry(_, failure, _, woken) => if woken then 0 else if failure == Lost then before + 1 else before
      case _ => before
  }

  /** Sleeps out a delay unless it is cut short: the ms slept. */
  function Slept(r: Round, wait: int): int {
    if r.woken || r.slept >= wait then r.slept else wait
  }

  /** When the repeat after a round that started at `at` can start. */
  function RepeatAt(r: Round, at: int, wait: int): int {
    at + r.took + (if wait > 0 then Slept(r, wait) else 0) + r.prepared
  }

  /** A repeat waits its delay out unless `retryNow()` cut it short, and never starts before the failed attempt ended
      and the transport was ready. */
  lemma RepeatWaits(r: Round, at: int, wait: int)
    requires wait >= 0
    ensures RepeatAt(r, at, wait) >= at + r.took + r.prepared
    ensures !r.woken ==> RepeatAt(r, at, wait) >= at + r.took + wait + r.prepared
    ensures r.woken && wait > 0 ==> RepeatAt(r, at, wait) == at + r.took + r.slept + r.prepared
    ensures wait == 0 ==> RepeatAt(r, at, wait) == at + r.took + r.prepared
  {
  }

  /** Every repeat starts before the deadline, right after the failed attempt was abandoned and the repeat
      announced, and once its delay and the transport let it. */
  predicate StartOk(world: World, log: seq<Event>, i: nat, deadline: int)
    requires i < |log|
  {
    log[i].Start? && log[i].attempt > 1 ==>
      && log[i].at < deadline && i >= 3
      && var n := log[i].attempt - 1;
         && log[i - 1].Retry? && log[i - 1].attempt == n && log[i - 2] == Abandon(n)
         && log[i - 3].Start? && log[i - 3].attempt == n
         && log[i].at == RepeatAt(world(n), log[i - 3].at, log[i - 1].delayMs)
  }

  /** After a timeout the repeat is sent at once; after a loss it waits first * 2^losses, at most 30000 once doubled. */
  predicate DelayOk(log: seq<Event>, i: nat, first: nat)
    requires i < |log|
  {
    log[i].Retry? ==>
      log[i].delayMs == if log[i].failure == Timeout then 0 else DelayAfter(first, Losses(log[..i]))
  }

  ghost predicate LogOk(world: World, log: seq<Event>, deadline: int, first: nat) {
    forall i | 0 <= i < |log| :: StartOk(world, log, i, deadline) && DelayOk(log, i, first)
  }

  lemma LogAppend(world: World, log: seq<Event>, e: Event, deadline: int, first: nat)
    requires LogOk(world, log, deadline, first)
    requires StartOk(world, log + [e], |log|, deadline) && DelayOk(log + [e], |log|, first)
    ensures LogOk(world, log + [e], deadline, first)
    ensures Losses(log + [e]) == match e
      case Retry(_, failure, _, woken) => if woken then 0 else if failure == Lost then Losses(log) + 1 else Losses(log)
      case _ => Losses(log)
  {
    var all := log + [e];
    assert all[..|log|] == log;
    forall i | 0 <= i < |all|
      ensures StartOk(world, all, i, deadline) && DelayOk(all, i, first)
    {
      if i < |log| {
        assert StartOk(world, log, i, deadline) && DelayOk(log, i, first);
        assert all[..i] == log[..i];
      }
    }
  }

  /** Time passes in a round that is repeated: an attempt that timed out took some, and so does a round whose delay
      is none or is cut short. */
  ghost predicate TimePasses(world: World, first: nat) {
    forall n: nat :: RoundTakesTime(world(n), first)
  }

  predicate RoundTakesTime(r: Round, first: nat) {
    && (r.result == Error(Some(Timeout)) ==> r.took >= 1)
    && (r.result == Error(Some(Lost)) && first == 0 ==> r.took + r.prepared >= 1)
    && (r.result == Error(Some(Lost)) && r.woken ==> r.took + r.slept + r.prepared >= 1)
  }

  /** The log begins with the first attempt, has none above `attempts`, and only failed ones are abandoned. */
  ghost predicate Past(world: World, log: seq<Event>, attempts: nat, start: int) {
    && (log != [] ==> log[0] == Start(1, start))
    && (forall e | e in log && e.Start? :: e.attempt <= attempts)
    && (forall e | e in log && e.Abandon? :: world(e.attempt).result.Error? && world(e.attempt).result.failure.Some?)
  }

  /** Attempt `n` is about to start at `now`: it is the first, or the repeat announced last. */
  predicate Announced(world: World, log: seq<Event>, n: nat, now: int, start: int) {
    if n <= 1 then n == 1 && log == [] && now == start
    else
      && |log| >= 3 && log[|log| - 1].Retry? && log[|log| - 1].attempt == n - 1 && log[|log| - 2] == Abandon(n - 1)
      && log[|log| - 3].Start? && log[|log| - 3].attempt == n - 1
      && now == RepeatAt(world(n - 1), log[|log| - 3].at, log[|log| - 1].delayMs)
  }

  lemma Started(world: World, log: seq<Event>, n: nat, now: int, start: int, deadline: int, first: nat)
    requires n >= 1 && LogOk(world, log, deadline, first) && Past(world, log, n - 1, start)
    requires Announced(world, log, n, now, start) && (n > 1 ==> now < deadline)
    ensures var next := log + [Start(n, now)];
            LogOk(world, next, deadline, first) && Past(world, next, n, start) && Losses(next) == Losses(log)
  {
    LogAppend(world, log, Start(n, now), deadline, first);
  }

  /** A call rejects with the error of its last attempt only when that is an answer, or when no repeat can start
      before the deadline any more: the delay would reach it, or it passed until the repeat was ready. */
  predicate EndOk(world: World, log: seq<Event>, n: nat, deadline: int, first: nat)
    requires log != []
  {
    match log[|log| - 1]
    case Start(_, _) => world(n).result != Answer ==> world(n).result.failure.None?
    case Abandon(_) =>
      && |log| >= 2 && log[|log| - 2].Start? && world(n).result.Error? && world(n).result.failure.Some?
      && log[|log| - 2].at + world(n).took +
           (if world(n).result.failure.value == Timeout then 0 else DelayAfter(first, Losses(log))) >= deadline
    case Retry(_, _, wait, _) =>
      |log| >= 3 && log[|log| - 3].Start? && RepeatAt(world(n), log[|log| - 3].at, wait) >= deadline
  }

  /** A failed attempt is abandoned; a repeat that could not start in time ends the call here. */
  lemma Abandoned(
    world: World, log: seq<Event>, n: nat, at: int, start: int, deadline: int, first: nat, failure: Failure, wait: int)
    requires LogOk(world, log, deadline, first) && Past(world, log, n, start) && n >= 1
    requires log != [] && log[|log| - 1] == Start(n, at) && world(n).result == Error(Some(failure))
    requires wait == if failure == Timeout then 0 else DelayAfter(first, Losses(log))
    ensures var next := log + [Abandon(n)];
            && LogOk(world, next, deadline, first) && Past(world, next, n, start) && Losses(next) == Losses(log)
            && (at + world(n).took + wait >= deadline ==> EndOk(world, next, n, deadline, first))
  {
    LogAppend(world, log, Abandon(n), deadline, first);
  }

  /** The repeat is announced; one that is not ready in time ends the call here. */
  lemma Repeated(
    world: World, log: seq<Event>, n: nat, at: int, start: int, deadline: int, first: nat, failure: Failure, wait: int,
    woken: bool)
    requires LogOk(world, log, deadline, first) && Past(world, log, n, start) && n >= 1
    requires |log| >= 2 && log[|log| - 2] == Start(n, at) && log[|log| - 1] == Abandon(n)
    requires wait == if failure == Timeout then 0 else DelayAfter(first, Losses(log))
    ensures var next := log + [Retry(n, failure, wait, woken)];
            && LogOk(world, next, deadline, first) && Past(world, next, n, start)
            && Announced(world, next, n + 1, RepeatAt(world(n), at, wait), start)
            && Losses(next) == (if woken then 0 else if failure == Lost then Losses(log) + 1 else Losses(log))
            && (RepeatAt(world(n), at, wait) >= deadline ==> EndOk(world, next, n, deadline, first))
  {
    LogAppend(world, log, Retry(n, failure, wait, woken), deadline, first);
  }

  /** What follows an attempt that failed at `ended`: it is abandoned, and the repeat is announced and waited for
      unless it could not start in time. */
  method AfterFailure(
    world: World, log: seq<Event>, n: nat, ghost at: int, ended: int, ghost start: int, deadline: int, first: nat,
    failure: Failure, delay: int)
    returns (repeats: bool, now: int, nextDelay: int, next: seq<Event>)
    requires LogOk(world, log, deadline, first) && Past(world, log, n, start) && n >= 1
    requires log != [] && log[|log| - 1] == Start(n, at) && ended == at + world(n).took
    requires world(n).result == Error(Some(failure)) && RoundTakesTime(world(n), first)
    requires delay == DelayAfter(first, Losses(log))
    ensures LogOk(world, next, deadline, first) && Past(world, next, n, start) && |next| > |log|
    ensures repeats ==> at < now < deadline && Announced(world, next, n + 1, now, start)
    ensures repeats ==> nextDelay == DelayAfter(first, Losses(next))
    ensures !repeats ==> EndOk(world, next, n, deadline, first) && !next[|next| - 1].Start? && next[|next| - 1].attempt == n
  {
    var wait := if failure == Timeout then 0 else delay;
    var woken := wait > 0 && world(n).woken;
    DoubleOnce(first, Losses(log));
    Abandoned(world, log, n, at, start, deadline, first, failure, wait);
    next, nextDelay, now := log + [Abandon(n)], delay, ended;
    if failure == Lost {
      nextDelay := Min(delay * 2, MAX_DELAY);
    }
    if now + wait >= deadline {
      return false, now, nextDelay, next;
    }
    Repeated(world, next, n, at, start, deadline, first, failure, wait, woken);
    next := next + [Retry(n, failure, wait, woken)];
    if wait > 0 {
      now := now + Slept(world(n), wait);
      if woken {
        nextDelay := first;
      }
    }
    now := now + world(n).prepared;
    repeats := now < deadline;
  }

  method RunCall(start: int, withinMs: int, first: nat, world: World) returns (ended: Ended, log: seq<Event>)
    requires TimePasses(world, first)
    ensures log != [] && LogOk(world, log, start + withinMs, first) && Past(world, log, ended.attempt, start)
    ensures log[|log| - 1].attempt == ended.attempt >= 1 && (ended.Returned? ==> log[|log| - 1].Start?)
    ensures ended.Returned? <==> world(ended.attempt).result == Answer
    ensures if withinMs <= 0 then log == [Start(1, start)] else EndOk(world, log, ended.attempt, start + withinMs, first)
  {
    var delay: int := first;
    var deadline := start + withinMs;
    var now := start;
    var attempt: nat := 1;
    log := [];
    while true
      invariant LogOk(world, log, deadline, first) && Past(world, log, attempt - 1, start)
      invariant attempt >= 1 && Announced(world, log, attempt, now, start)
      invariant attempt > 1 ==> now < deadline && withinMs > 0
      invariant delay == DelayAfter(first, Losses(log))
      decreases deadline - now
    {
      var round := world(attempt);
      assert RoundTakesTime(round, first);
      Started(world, log, attempt, now, start, deadline, first);
      log := log + [Start(attempt, now)];
      if round.result == Answer {
        return Returned(attempt), log;
      }
      if withinMs <= 0 || round.result.failure.None? {
        return Threw(attempt), log;
      }
      var repeats;
      repeats, now, delay, log := AfterFailure(
        world, log, attempt, now, now + round.took, start, deadline, first, round.result.failure.value, delay);
      if !repeats {
        return Threw(attempt), log;
      }
      attempt := attempt + 1;
    }
  }

  lemma {:induction false} DoubledPositive(first: nat, n: nat)
    requires first >= 1
    ensures Doubled(first, n) >= 1
  {
    if n > 0 {
      DoubledPositive(first, n - 1);
    }
  }

  /** The delay doubled and capped is the next delay. */
  lemma DoubleOnce(first: nat, n: nat)
    ensures Min(DelayAfter(first, n) * 2, MAX_DELAY) == DelayAfter(first, n + 1)
    ensures first >= 1 ==> DelayAfter(first, n) >= 1
  {
    if first >= 1 {
      DoubledPositive(first, n);
    }
  }
}
