/** The polling ladder, over exact numbers. */
module PollLadder {
  import opened Basics

  datatype Settings = Settings(base: real, factor: real, ceiling: real, jitter: real)

  /** What the ladder knows of the polled things; `advice` is the server's, when it is a finite number. */
  datatype Poll = Poll(anyActive: bool, anyDialogOpen: bool, revChanged: bool, advice: Option<real>)

  predicate SettingsOk(s: Settings) {
    0.0 < s.base <= s.ceiling && s.factor >= 1.0 && 0.0 <= s.jitter <= 1.0
  }

  function Larger(a: real, b: real): real {
    if a < b then b else a
  }

  function Smaller(a: real, b: real): real {
    if a < b then a else b
  }

  /** JavaScript's Math.round. */
  function Round(x: real): real {
    (x + 0.5).Floor as real
  }

  function Interval(p: Poll, previous: Option<real>, s: Settings): real {
    if p.anyDialogOpen || !p.anyActive then s.ceiling
    else if p.revChanged || previous.None? then s.base
    else Smaller(Larger(previous.value, s.base) * s.factor, s.ceiling)
  }

  function Spread(d: real, jitter: real): real {
    1.0 + d * jitter
  }

  function Multiplier(draw: real, s: Settings): real {
    Spread(draw * 2.0 - 1.0, s.jitter)
  }

  function Jittered(interval: real, multiplier: real): real {
    Round(interval * multiplier)
  }

  function Advised(p: Poll): real {
    if p.advice.Some? then p.advice.value else 0.0
  }

  /** The interval raised to the advice and jittered, never below the advice and the base. */
  function Delay(interval: real, advised: real, multiplier: real, s: Settings): real {
    Larger(Jittered(Larger(interval, advised), multiplier), Larger(advised, s.base))
  }

  // ---- the climb --------------------------------------------------------------------------------------------

  /** base * factor^k. */
  function Grown(s: Settings, k: nat): real {
    if k == 0 then s.base else Grown(s, k - 1) * s.factor
  }

  /** Nothing moved: something is active, no dialog is open, no rev changed. */
  predicate Unchanged(p: Poll) {
    p.anyActive && !p.anyDialogOpen && !p.revChanged
  }

  type Rule = (Poll, Option<real>) -> real

  function IntervalRule(s: Settings): Rule {
    (p, previous) => Interval(p, previous, s)
  }

  /** What the ladder remembers after the polls, from the start of a climb. */
  function Climbed(polls: seq<Poll>, interval: Rule): Option<real> {
    if polls == [] then None
    else Some(interval(polls[|polls| - 1], Climbed(polls[..|polls| - 1], interval)))
  }

  lemma TimesMonotone(a: real, b: real, x: real)
    requires a <= b && x >= 0.0
    ensures a * x <= b * x
  {
    assert (b - a) * x >= 0.0;
  }

  lemma TimesNonNegative(a: real, x: real)
    requires a >= 0.0 && x >= 0.0
    ensures a * x >= 0.0
  {
  }

  /** One rung up from a capped value is the capped next one. */
  lemma RungStep(before: real, s: Settings)
    requires SettingsOk(s) && s.base <= before
    ensures Smaller(Larger(Smaller(before, s.ceiling), s.base) * s.factor, s.ceiling) == Smaller(before * s.factor, s.ceiling)
    ensures before <= before * s.factor
  {
    TimesMonotone(1.0, s.factor, before);
    if before >= s.ceiling {
      TimesMonotone(1.0, s.factor, s.ceiling);
    }
  }

  /** The k-th rung. */
  function Rung(s: Settings, k: nat): real {
    Smaller(Grown(s, k), s.ceiling)
  }

  lemma {:induction false} ClimbFollows(polls: seq<Poll>, k: nat, interval: Rule, rung: nat -> real)
    requires |polls| == k + 1 && forall p | p in polls :: Unchanged(p)
    requires forall p | Unchanged(p) :: interval(p, None) == rung(0)
    requires forall p, j: nat | Unchanged(p) :: interval(p, Some(rung(j))) == rung(j + 1)
    ensures Climbed(polls, interval) == Some(rung(k))
    decreases k
  {
    assert Unchanged(polls[k]);
    if k > 0 {
      ClimbFollows(polls[..k], k - 1, interval, rung);
    }
  }

  lemma NextRung(p: Poll, s: Settings, j: nat)
    requires SettingsOk(s) && Unchanged(p)
    ensures Interval(p, Some(Rung(s, j)), s) == Rung(s, j + 1)
  {
    AboveBase(s, j);
    RungStep(Grown(s, j), s);
  }

  lemma {:induction false} AboveBase(s: Settings, k: nat)
    requires SettingsOk(s)
    ensures s.base <= Grown(s, k)
  {
    if k > 0 {
      AboveBase(s, k - 1);
      RungStep(Grown(s, k - 1), s);
    }
  }

  /** After k + 1 unchanged polls the rung is min(base * factor^k, ceiling), whatever was drawn or advised. */
  lemma RungAfter(polls: seq<Poll>, k: nat, s: Settings)
    requires SettingsOk(s) && |polls| == k + 1 && forall p | p in polls :: Unchanged(p)
    ensures Climbed(polls, IntervalRule(s)) == Some(Smaller(Grown(s, k), s.ceiling))
  {
    var rung := (j: nat) => Rung(s, j);
    forall p, j: nat | Unchanged(p)
      ensures IntervalRule(s)(p, Some(rung(j))) == rung(j + 1)
    {
      NextRung(p, s, j);
    }
    assert Rung(s, 0) == s.base;
    ClimbFollows(polls, k, IntervalRule(s), rung);
  }

  lemma {:induction false} GrowsBy(s: Settings, k: nat, step: real)
    requires SettingsOk(s) && step == s.base * (s.factor - 1.0)
    ensures Grown(s, k) >= s.base + k as real * step && Grown(s, k) >= s.base
  {
    if k > 0 {
      GrowsBy(s, k - 1, step);
      TimesMonotone(s.base, Grown(s, k - 1), s.factor - 1.0);
      assert Grown(s, k) == Grown(s, k - 1) + Grown(s, k - 1) * (s.factor - 1.0);
      assert k as real * step == (k - 1) as real * step + step;
      TimesMonotone(0.0, step, 1.0);
    }
  }

  /** The climb rises by at least this much with every rung. */
  function StepOf(s: Settings): (r: real)
    requires SettingsOk(s) && s.factor > 1.0
    ensures r > 0.0
  {
    Product(s.base, s.factor - 1.0)
  }

  function Product(a: real, b: real): (r: real)
    ensures a > 0.0 && b > 0.0 ==> r > 0.0
  {
    a * b
  }

  /** Unchanged polls after which the ceiling is reached. */
  function RungsToCeiling(s: Settings): int
    requires SettingsOk(s) && s.factor > 1.0
  {
    (s.ceiling / StepOf(s)).Floor + 1
  }

  lemma Enough(goal: real, step: real, k: int)
    requires goal > 0.0 && step > 0.0 && k >= (goal / step).Floor + 1
    ensures k as real * step >= goal
  {
    assert k as real >= goal / step;
    TimesMonotone(goal / step, k as real, step);
    assert goal / step * step == goal;
  }

  lemma GrownReaches(s: Settings, k: nat)
    requires SettingsOk(s) && s.factor > 1.0 && k >= RungsToCeiling(s)
    ensures Grown(s, k) >= s.ceiling
  {
    GrowsBy(s, k, StepOf(s));
    Enough(s.ceiling, StepOf(s), k);
  }

  /** The climb reaches the ceiling after finitely many unchanged polls and stays there. */
  lemma CeilingIsReached(polls: seq<Poll>, s: Settings)
    requires SettingsOk(s) && s.factor > 1.0 && |polls| > RungsToCeiling(s) && |polls| > 0
    requires forall p | p in polls :: Unchanged(p)
    ensures Climbed(polls, IntervalRule(s)) == Some(s.ceiling)
  {
    RungAfter(polls, |polls| - 1, s);
    GrownReaches(s, |polls| - 1);
  }

  // ---- the delays -------------------------------------------------------------------------------------------

  lemma FloorMonotone(a: real, b: real)
    requires a <= b
    ensures a.Floor <= b.Floor
  {
    assert a.Floor as real < b.Floor as real + 1.0;
  }

  /** The nearest whole number, the larger one of two. */
  lemma RoundIsNearest(x: real)
    ensures Round(x) - 0.5 <= x < Round(x) + 0.5 && Round(x) == Round(x).Floor as real
  {
  }

  lemma RoundMonotone(a: real, b: real)
    requires a <= b
    ensures Round(a) <= Round(b)
  {
    FloorMonotone(a + 0.5, b + 0.5);
  }

  /** Every delay is at least the server's advice and the base, and the interval raised to the advice within what the
      jitter allows. */
  lemma DelayBounds(interval: real, advised: real, multiplier: real, s: Settings)
    requires SettingsOk(s) && interval >= 0.0 && 1.0 - s.jitter <= multiplier <= 1.0 + s.jitter
    ensures Delay(interval, advised, multiplier, s) >= Larger(advised, s.base)
    ensures Delay(interval, advised, multiplier, s) >= Jittered(Larger(interval, advised), 1.0 - s.jitter)
    ensures Delay(interval, advised, multiplier, s) <=
      Larger(Jittered(Larger(interval, advised), 1.0 + s.jitter), Larger(advised, s.base))
  {
    JitteredMonotone(Larger(interval, advised), multiplier, 1.0 + s.jitter);
    JitteredMonotone(Larger(interval, advised), 1.0 - s.jitter, multiplier);
  }

  lemma JitteredMonotone(interval: real, m: real, most: real)
    requires interval >= 0.0 && m <= most
    ensures Jittered(interval, m) <= Jittered(interval, most)
  {
    TimesMonotone(m, most, interval);
    RoundMonotone(interval * m, interval * most);
  }

  lemma SpreadBound(d: real, jitter: real)
    requires -1.0 <= d <= 1.0 && jitter >= 0.0
    ensures 1.0 - jitter <= Spread(d, jitter) <= 1.0 + jitter
  {
    TimesNonNegative(1.0 - d, jitter);
    TimesNonNegative(1.0 + d, jitter);
  }

  /** The jitter multiplier of a draw. */
  lemma MultiplierBound(draw: real, s: Settings)
    requires SettingsOk(s) && 0.0 <= draw < 1.0
    ensures 1.0 - s.jitter <= Multiplier(draw, s) <= 1.0 + s.jitter
    ensures Multiplier(draw, s) - (1.0 - s.jitter) == draw * (2.0 * s.jitter)
  {
    SpreadBound(draw * 2.0 - 1.0, s.jitter);
  }

  lemma IntervalBounds(p: Poll, previous: Option<real>, s: Settings)
    requires SettingsOk(s)
    ensures s.base <= Interval(p, previous, s) <= s.ceiling
  {
    if previous.Some? {
      var from := Larger(previous.value, s.base);
      TimesMonotone(1.0, s.factor, from);
      assert s.factor * from == from * s.factor;
    }
  }

  // ---- the ladder ---------------------------------------------------------------------------------------------

  /** A poll that changed nothing, whose rung after a reset is the base: where `Resume` restarts a climb. */
  const BASE_POLL := Poll(true, false, false, None)

  lemma BaseRung(s: Settings)
    ensures Climbed([BASE_POLL], IntervalRule(s)) == Some(s.base)
  {
    assert [BASE_POLL][..0] == [];
  }

  lemma ClimbOn(polls: seq<Poll>, p: Poll, rule: Rule)
    ensures Climbed(polls + [p], rule) == Some(rule(p, Climbed(polls, rule)))
  {
    assert (polls + [p])[..|polls|] == polls;
  }

  predicate AllUnchanged(polls: seq<Poll>) {
    forall p | p in polls :: Unchanged(p)
  }

  /** The rung of a climb that nothing interrupted. */
  lemma UninterruptedRung(polls: seq<Poll>, s: Settings)
    requires SettingsOk(s) && polls != [] && AllUnchanged(polls)
    ensures Climbed(polls, IntervalRule(s)) == Some(Rung(s, |polls| - 1))
  {
    RungAfter(polls, |polls| - 1, s);
  }

  /** A delay is this long: the rung raised to the advice, within the jitter, and never below the advice and the
      base. */
  predicate DelayOk(delay: real, rung: real, advised: real, s: Settings) {
    && Larger(Jittered(Larger(rung, advised), 1.0 - s.jitter), Larger(advised, s.base)) <= delay
    && delay <= Larger(Jittered(Larger(rung, advised), 1.0 + s.jitter), Larger(advised, s.base))
  }

  class Ladder {
    const settings: Settings
    /** The interval last climbed to, without jitter. */
    var previous: Option<real>
    /** The polls of the current climb: since the start or a reset, or from the base rung of a resume. */
    ghost var climb: seq<Poll>

    ghost predicate Valid()
      reads this
    {
      previous == Climbed(climb, IntervalRule(settings))
    }

    constructor (settings: Settings)
      ensures Valid() && climb == [] && this.settings == settings
    {
      this.settings := settings;
      previous, climb := None, [];
    }

    /** One more rung: on the k-th unchanged poll in a row the ladder stands at min(base * factor^k, ceiling), a
        changed rev sends it to the base and an open dialog or idleness to the ceiling, whatever was drawn. */
    method Next(p: Poll, draw: real) returns (delay: real)
      requires Valid() && 0.0 <= draw < 1.0
      modifies this
      ensures Valid() && climb == old(climb) + [p] && previous.Some?
      ensures delay == Delay(previous.value, Advised(p), Multiplier(draw, settings), settings)
      ensures SettingsOk(settings) ==>
        && settings.base <= previous.value <= settings.ceiling
        && DelayOk(delay, previous.value, if p.advice.Some? then p.advice.value else 0.0, settings)
        && (AllUnchanged(climb) ==> previous.value == Smaller(Grown(settings, |climb| - 1), settings.ceiling))
        && (p.anyDialogOpen || !p.anyActive ==> previous.value == settings.ceiling)
        && (p.anyActive && !p.anyDialogOpen && p.revChanged ==> previous.value == settings.base)
    {
      var before := previous;
      ClimbOn(climb, p, IntervalRule(settings));
      previous := Some(Interval(p, before, settings));
      delay := Delay(Interval(p, before, settings), Advised(p), Multiplier(draw, settings), settings);
      climb := climb + [p];
      if SettingsOk(settings) {
        RungAndDelay(p, before, draw, settings);
        if AllUnchanged(climb) {
          UninterruptedRung(climb, settings);
        }
      }
    }

    /** The climb starts over: the next poll of anything active answers the base rung, whether or not a rev
        changed. */
    method Reset()
      modifies this
      ensures Valid() && climb == []
      ensures forall p: Poll | p.anyActive && !p.anyDialogOpen :: Interval(p, previous, settings) == settings.base
    {
      previous, climb := None, [];
    }

    /** A poll on the base rung, whatever is open or idle, from which the climb goes on: k unchanged polls later
        the ladder stands where k + 1 unchanged ones after a reset would have left it. */
    method Resume(draw: real) returns (delay: real)
      requires 0.0 <= draw < 1.0
      modifies this
      ensures Valid() && climb == [BASE_POLL]
      ensures delay == Larger(Jittered(settings.base, Multiplier(draw, settings)), settings.base)
      ensures SettingsOk(settings) ==> previous == Some(settings.base) && DelayOk(delay, settings.base, 0.0, settings)
    {
      previous, climb := Some(settings.base), [BASE_POLL];
      BaseRung(settings);
      delay := Larger(Jittered(settings.base, Multiplier(draw, settings)), settings.base);
      if SettingsOk(settings) {
        MultiplierBound(draw, settings);
        DelayBounds(settings.base, 0.0, Multiplier(draw, settings), settings);
      }
    }
  }

  lemma RungAndDelay(p: Poll, before: Option<real>, draw: real, s: Settings)
    requires SettingsOk(s) && 0.0 <= draw < 1.0
    ensures s.base <= Interval(p, before, s) <= s.ceiling
    ensures DelayOk(Delay(Interval(p, before, s), Advised(p), Multiplier(draw, s), s), Interval(p, before, s), Advised(p), s)
  {
    IntervalBounds(p, before, s);
    MultiplierBound(draw, s);
    DelayBounds(Interval(p, before, s), Advised(p), Multiplier(draw, s), s);
  }
}
