/** Many processes under one idempotency key kept in Redis: their requests interleave at every command. */
module IdempotencyProcesses {
  import opened Basics
  import opened IdempotencyMemory
  import opened IdempotencyRedis

  /** What claimed the key: the process and the request's fingerprint. */
  datatype Claim = Claim(process: int, fingerprint: string)

  /** A process's call. `ended` is its outcome once the finish script was sent, `resolved` its future. */
  datatype Call = Call(attached: bool, ended: Option<Option<Outcome>>, resolved: bool)

  datatype Answer = Executed(ending: Ending) | Replayed(outcome: Outcome) | Reused

  datatype Phase =
    | Trying
    | Written(owner: int)
    | Missed
    | Read(value: Option<Value>)
    | Executing(owner: int)
    | Closing(owner: int, ending: Ending)
    | WaitsHere(owner: int)
    | Remote
    | RemoteRead(seen: Value)
    | RemoteWaits
    | Answered(answer: Answer)

  /** `marked` is the running record the request's attach script marked. */
  datatype Caller = Caller(process: int, fingerprint: string, safe: bool, phase: Phase, marked: Option<Value>)

  /** `runs` is each process's run of the key. */
  datatype System = System(
    slot: Slot, now: int, claims: map<int, Claim>, calls: map<int, Call>, runs: map<int, int>, callers: seq<Caller>)

  datatype Step =
    | Arrive(process: int, fingerprint: string, safe: bool)
    | Write(caller: nat, owner: int)
    | Register(caller: nat)
    | Fetch(caller: nat)
    | Decide(caller: nat)
    | Look(caller: nat)
    | RemoteFetch(caller: nat)
    | Mark(caller: nat)
    | RemoteLook(caller: nat)
    | Renew(caller: nat)
    | Finish(caller: nat, ending: Ending, encodes: bool, reached: bool)
    | Forget(caller: nat)
    | Tick(ms: nat)

  const INITIAL := System(Slot(None, None), 0, map[], map[], map[], [])

  predicate At(s: System, c: nat) {
    c < |s.callers|
  }

  predicate Enabled(s: System, step: Step) {
    match step
    case Arrive(_, _, _) => true
    case Tick(_) => true
    case Write(c, owner) => At(s, c) && s.callers[c].phase.Trying? && owner !in s.claims
    case Register(c) => At(s, c) && s.callers[c].phase.Written?
    case Fetch(c) => At(s, c) && s.callers[c].phase.Missed?
    case Decide(c) =>
      && At(s, c) && s.callers[c].phase.Read?
      && (s.callers[c].process in s.runs ==> s.runs[s.callers[c].process] in s.calls)
    case Look(c) => At(s, c) && s.callers[c].phase.WaitsHere? && s.callers[c].phase.owner in s.calls
    case RemoteFetch(c) => At(s, c) && s.callers[c].phase.Remote?
    case Mark(c) => At(s, c) && s.callers[c].phase.RemoteRead?
    case RemoteLook(c) => At(s, c) && s.callers[c].phase.RemoteWaits?
    case Renew(c) => At(s, c) && s.callers[c].phase.Executing? && s.callers[c].phase.owner in s.claims
    case Finish(c, _, _, _) =>
      && At(s, c) && s.callers[c].phase.Executing? && s.callers[c].phase.owner in s.claims
      && s.callers[c].phase.owner in s.calls
    case Forget(c) => At(s, c) && s.callers[c].phase.Closing? && s.callers[c].phase.owner in s.calls
  }

  function Moved(s: System, c: nat, phase: Phase): System
    requires At(s, c)
  {
    s.(callers := s.callers[c := s.callers[c].(phase := phase)])
  }

  function RunningOf(s: System, owner: int): Value
    requires owner in s.claims
  {
    RunningValue(s.claims[owner].fingerprint, owner)
  }

  /** A record as the request loop answers it: nothing there claims again, another fingerprint is a reuse, an
      outcome is replayed, and None is a call still running. */
  function Answering(value: Option<Value>, fingerprint: string): (r: Option<Phase>)
    ensures r.Some? ==> r.value.Trying? || r.value.Answered?
  {
    if value.None? || value.value.Flag? then Some(Trying)
    else if value.value.fingerprint != fingerprint then Some(Answered(Reused))
    else if value.value.DoneValue? then Some(Answered(Replayed(value.value.outcome)))
    else None
  }

  /** The decision on the record read: attaches to this process's run of the key, whichever that is by now. */
  function Decided(s: System, c: nat): System
    requires Enabled(s, Decide(c))
  {
    var caller := s.callers[c];
    var phase := Answering(caller.phase.value, caller.fingerprint);
    if phase.Some? then Moved(s, c, phase.value)
    else if caller.process in s.runs then
      var owner := s.runs[caller.process];
      Moved(s.(calls := s.calls[owner := s.calls[owner].(attached := true)]), c, WaitsHere(owner))
    else Moved(s, c, Remote)
  }

  /** A repeat in the owner's process: the run's future, then the lock of the key's record. */
  function Looked(s: System, c: nat): System
    requires Enabled(s, Look(c))
  {
    var call := s.calls[s.callers[c].phase.owner];
    if call.resolved && call.ended.Some? then
      Moved(s, c, if call.ended.value.Some? then Answered(Replayed(call.ended.value.value)) else Trying)
    else if Alive(s.slot.record, s.now).Some? then s
    else Moved(s, c, Trying)
  }

  /** A repeat elsewhere re-reads the record: an outcome or nothing ends the wait. */
  function RemoteLooked(s: System, c: nat, waiting: Phase): System
    requires At(s, c)
  {
    var value := Alive(s.slot.record, s.now);
    if value.Some? && value.value.RunningValue? then Moved(s, c, waiting)
    else Moved(s, c, Answering(value, s.callers[c].fingerprint).value)
  }

  function Finishing(s: System, cfg: Settings, c: nat, ending: Ending, encodes: bool, reached: bool): System
    requires Enabled(s, Finish(c, ending, encodes, reached))
  {
    var caller := s.callers[c];
    var owner := caller.phase.owner;
    var mode := if !encodes then Never else ModeOf(ending, caller.safe);
    var done := if Storable(ending) then DoneValue(s.claims[owner].fingerprint, ending.outcome) else Flag;
    var slot :=
      if !reached then s.slot
      else FinishSlot(s.slot, RunningOf(s, owner), done, cfg.ttl, mode, s.calls[owner].attached, s.now).0;
    Moved(s.(slot := slot, calls := s.calls[owner := s.calls[owner].(ended := Some(Kept(ending)))]), c,
          Closing(owner, ending))
  }

  function Next(s: System, cfg: Settings, step: Step): System
    requires Enabled(s, step)
  {
    match step
    case Arrive(p, fingerprint, safe) => s.(callers := s.callers + [Caller(p, fingerprint, safe, Trying, None)])
    case Tick(ms) => s.(now := s.now + ms)
    case Write(c, owner) =>
      var caller := s.callers[c];
      var (slot, claimed) := ClaimSlot(s.slot, RunningValue(caller.fingerprint, owner), cfg.lockTtl, s.now);
      if !claimed then Moved(s, c, Missed)
      else
        Moved(s.(slot := slot, claims := s.claims[owner := Claim(caller.process, caller.fingerprint)],
                 calls := s.calls[owner := Call(false, None, false)]), c, Written(owner))
    case Register(c) =>
      var owner := s.callers[c].phase.owner;
      Moved(s.(runs := s.runs[s.callers[c].process := owner]), c, Executing(owner))
    case Fetch(c) => Moved(s, c, Read(Alive(s.slot.record, s.now)))
    case Decide(c) => Decided(s, c)
    case Look(c) => Looked(s, c)
    case RemoteFetch(c) =>
      var value := Alive(s.slot.record, s.now);
      RemoteLooked(s, c, if value.Some? then RemoteRead(value.value) else Remote)
    case Mark(c) =>
      var (slot, marked) := AttachSlot(s.slot, s.callers[c].phase.seen, s.now);
      var t := Moved(s.(slot := slot), c, RemoteWaits);
      if marked then t.(callers := t.callers[c := t.callers[c].(marked := Some(s.callers[c].phase.seen))]) else t
    case RemoteLook(c) => RemoteLooked(s, c, RemoteWaits)
    case Renew(c) =>
      s.(slot := RenewSlot(s.slot, RunningOf(s, s.callers[c].phase.owner), cfg.lockTtl, s.now).0)
    case Finish(c, ending, encodes, reached) => Finishing(s, cfg, c, ending, encodes, reached)
    case Forget(c) =>
      var owner, p := s.callers[c].phase.owner, s.callers[c].process;
      Moved(s.(runs := if p in s.runs && s.runs[p] == owner then s.runs - {p} else s.runs,
               calls := s.calls[owner := s.calls[owner].(resolved := true)]),
            c, Answered(Executed(s.callers[c].phase.ending)))
  }

  // ---- the invariant --------------------------------------------------------------------------------------

  predicate EndedWith(s: System, o: int, fingerprint: string, outcome: Outcome) {
    && o in s.claims && s.claims[o].fingerprint == fingerprint
    && o in s.calls && s.calls[o].ended == Some(Some(outcome))
  }

  /** Some run claimed with the fingerprint ended with the outcome. */
  ghost predicate Produced(s: System, fingerprint: string, outcome: Outcome) {
    exists o | o in s.claims :: EndedWith(s, o, fingerprint, outcome)
  }

  /** A record is of a run claimed with its fingerprint, or the outcome of one. */
  ghost predicate ValueOk(s: System, v: Value) {
    match v
    case RunningValue(fingerprint, o) => o in s.claims && s.claims[o].fingerprint == fingerprint
    case DoneValue(fingerprint, outcome) => Produced(s, fingerprint, outcome)
    case Flag => false
  }

  ghost predicate SlotOk(s: System) {
    && (s.slot.record.Some? ==> ValueOk(s, s.slot.record.value.value))
    && MarkBeside(s.slot, s.now)
  }

  predicate TablesOk(s: System) {
    && s.claims.Keys == s.calls.Keys
    && (forall p | p in s.runs :: s.runs[p] in s.claims && s.claims[s.runs[p]].process == p)
  }

  predicate Owns(s: System, caller: Caller, o: int) {
    o in s.claims && o in s.calls && s.claims[o] == Claim(caller.process, caller.fingerprint)
  }

  ghost predicate PhaseOk(s: System, caller: Caller) {
    match caller.phase
    case Written(o) => Owns(s, caller, o) && s.calls[o].ended.None?
    case Executing(o) => Owns(s, caller, o) && s.calls[o].ended.None?
    case Closing(o, ending) => Owns(s, caller, o) && s.calls[o].ended == Some(Kept(ending))
    case Read(value) => value.Some? ==> ValueOk(s, value.value)
    case WaitsHere(o) => o in s.claims && o in s.calls
    case RemoteRead(v) => v.RunningValue? && ValueOk(s, v)
    case _ => true
  }

  ghost predicate MarkOk(s: System, caller: Caller) {
    caller.marked.Some? ==>
      && caller.marked.value.RunningValue? && ValueOk(s, caller.marked.value)
      && MarkedWhileThere(s.slot, caller.marked.value, s.now)
  }

  predicate Holding(phase: Phase) {
    phase.Written? || phase.Executing? || phase.Closing?
  }

  ghost predicate CallersOk(s: System) {
    && (forall i | 0 <= i < |s.callers| :: PhaseOk(s, s.callers[i]) && MarkOk(s, s.callers[i]))
    && (forall i, j | 0 <= i < j < |s.callers| && Holding(s.callers[i].phase) && Holding(s.callers[j].phase) ::
          s.callers[i].phase.owner != s.callers[j].phase.owner)
  }

  ghost predicate Inv(s: System) {
    SlotOk(s) && TablesOk(s) && CallersOk(s)
  }

  /** Claims stay as they are and an outcome once known stays. */
  ghost predicate Grows(s: System, t: System) {
    && (forall o | o in s.claims :: o in t.claims && t.claims[o] == s.claims[o])
    && (forall o | o in s.calls :: o in t.calls && (s.calls[o].ended.Some? ==> t.calls[o].ended == s.calls[o].ended))
  }

  lemma ProducedStays(s: System, t: System, fingerprint: string, outcome: Outcome)
    requires Grows(s, t) && Produced(s, fingerprint, outcome)
    ensures Produced(t, fingerprint, outcome)
  {
    var o :| o in s.claims && EndedWith(s, o, fingerprint, outcome);
    assert EndedWith(t, o, fingerprint, outcome);
  }

  lemma ValueStays(s: System, t: System, v: Value)
    requires Grows(s, t) && ValueOk(s, v)
    ensures ValueOk(t, v)
  {
    if v.DoneValue? {
      ProducedStays(s, t, v.fingerprint, v.outcome);
    }
  }

  lemma PhaseStays(s: System, t: System, caller: Caller)
    requires Grows(s, t) && PhaseOk(s, caller)
    requires (caller.phase.Written? || caller.phase.Executing?) ==> t.calls[caller.phase.owner].ended.None?
    ensures PhaseOk(t, caller)
  {
    match caller.phase
    case Read(value) =>
      if value.Some? {
        ValueStays(s, t, value.value);
      }
    case RemoteRead(v) => ValueStays(s, t, v);
    case _ =>
  }

  /** A running record that is there later was there before, and is marked if it was. */
  predicate KeepsMarks(a: Slot, b: Slot, now: int, later: int) {
    Alive(b.record, later).Some? && Alive(b.record, later).value.RunningValue? ==>
      && Alive(b.record, later) == Alive(a.record, now)
      && (Alive(a.mark, now).Some? ==> Alive(b.mark, later).Some?)
  }

  lemma MarkStays(s: System, t: System, caller: Caller)
    requires Grows(s, t) && MarkOk(s, caller)
    requires KeepsMarks(s.slot, t.slot, s.now, t.now)
    ensures MarkOk(t, caller)
  {
    if caller.marked.Some? {
      ValueStays(s, t, caller.marked.value);
    }
  }

  /** A step of one caller that adds no run: what it must show of the keys, the tables and the caller itself. */
  lemma CallerMoves(s: System, t: System, c: nat)
    requires Inv(s) && c < |s.callers| == |t.callers| && Grows(s, t) && TablesOk(t) && SlotOk(t)
    requires forall i | 0 <= i < |s.callers| && i != c :: t.callers[i] == s.callers[i]
    requires forall i | 0 <= i < |s.callers| && i != c && (s.callers[i].phase.Written? || s.callers[i].phase.Executing?) ::
      t.calls[s.callers[i].phase.owner].ended.None?
    requires PhaseOk(t, t.callers[c])
    requires Holding(t.callers[c].phase) ==>
      Holding(s.callers[c].phase) && t.callers[c].phase.owner == s.callers[c].phase.owner
    requires KeepsMarks(s.slot, t.slot, s.now, t.now)
    requires t.callers[c].marked == s.callers[c].marked || MarkOk(t, t.callers[c])
    ensures Inv(t)
  {
    forall i | 0 <= i < |t.callers|
      ensures PhaseOk(t, t.callers[i]) && MarkOk(t, t.callers[i])
    {
      if i != c {
        PhaseStays(s, t, s.callers[i]);
        MarkStays(s, t, s.callers[i]);
      } else {
        MarkStays(s, t, s.callers[c]);
      }
    }
    assert forall i | 0 <= i < |t.callers| && Holding(t.callers[i].phase) ::
      Holding(s.callers[i].phase) && t.callers[i].phase.owner == s.callers[i].phase.owner;
  }

  // ---- every step keeps it --------------------------------------------------------------------------------

  /** A step that leaves the keys and the tables alone and moves one caller that holds no run after it. */
  lemma MoveKeeps(s: System, c: nat, phase: Phase)
    requires Inv(s) && At(s, c) && PhaseOk(s, s.callers[c].(phase := phase)) && !Holding(phase)
    ensures Inv(Moved(s, c, phase))
  {
    var t := Moved(s, c, phase);
    SameSlot(s, t);
    PhaseStays(s, t, s.callers[c].(phase := phase));
    CallerMoves(s, t, c);
  }

  lemma SameSlot(s: System, t: System)
    requires SlotOk(s) && t.slot == s.slot && t.now == s.now && Grows(s, t)
    ensures SlotOk(t) && KeepsMarks(s.slot, t.slot, s.now, t.now)
  {
    if s.slot.record.Some? {
      ValueStays(s, t, s.slot.record.value.value);
    }
  }

  lemma AnsweringKeeps(s: System, c: nat, value: Option<Value>)
    requires Inv(s) && At(s, c) && Answering(value, s.callers[c].fingerprint).Some?
    ensures Inv(Moved(s, c, Answering(value, s.callers[c].fingerprint).value))
  {
    MoveKeeps(s, c, Answering(value, s.callers[c].fingerprint).value);
  }

  lemma DecideKeeps(s: System, c: nat)
    requires Inv(s) && Enabled(s, Decide(c))
    ensures Inv(Decided(s, c))
  {
    var caller := s.callers[c];
    if Answering(caller.phase.value, caller.fingerprint).Some? {
      AnsweringKeeps(s, c, caller.phase.value);
    } else if caller.process in s.runs {
      var t := Decided(s, c);
      SameSlot(s, t);
      assert forall i | 0 <= i < |s.callers| :: PhaseOk(s, s.callers[i]);
      CallerMoves(s, t, c);
    } else {
      MoveKeeps(s, c, Remote);
    }
  }

  lemma LookKeeps(s: System, c: nat)
    requires Inv(s) && Enabled(s, Look(c))
    ensures Inv(Looked(s, c))
  {
    var t := Looked(s, c);
    if t != s {
      MoveKeeps(s, c, t.callers[c].phase);
    }
  }

  lemma RemoteLookKeeps(s: System, c: nat, waiting: Phase)
    requires Inv(s) && At(s, c)
    requires waiting.RemoteWaits? || Alive(s.slot.record, s.now) == None || waiting == RemoteRead(Alive(s.slot.record, s.now).value)
    ensures Inv(RemoteLooked(s, c, waiting))
  {
    var value := Alive(s.slot.record, s.now);
    if value.Some? && value.value.RunningValue? {
      MoveKeeps(s, c, waiting);
    } else {
      AnsweringKeeps(s, c, value);
    }
  }

  /** A step that only runs a script on the keys. */
  lemma ScriptKeeps(s: System, t: System)
    requires Inv(s) && t == s.(slot := t.slot) && KeepsMarks(s.slot, t.slot, s.now, t.now)
    requires MarkBeside(t.slot, t.now) && (t.slot.record.Some? ==> ValueOk(s, t.slot.record.value.value))
    ensures Inv(t)
  {
    if t.slot.record.Some? {
      ValueStays(s, t, t.slot.record.value.value);
    }
    forall i | 0 <= i < |t.callers|
      ensures PhaseOk(t, t.callers[i]) && MarkOk(t, t.callers[i])
    {
      PhaseStays(s, t, s.callers[i]);
      MarkStays(s, t, s.callers[i]);
    }
  }

  lemma RenewKeeps(s: System, cfg: Settings, c: nat)
    requires Inv(s) && Enabled(s, Renew(c))
    ensures Inv(Next(s, cfg, Renew(c)))
  {
    var running := RunningOf(s, s.callers[c].phase.owner);
    ScriptsKeepMarkBeside(s.slot, running, Flag, cfg.lockTtl, cfg.ttl, Never, false, s.now, s.now);
    ScriptKeeps(s, Next(s, cfg, Renew(c)));
  }

  lemma MarkKeeps(s: System, cfg: Settings, c: nat)
    requires Inv(s) && Enabled(s, Mark(c))
    ensures Inv(Next(s, cfg, Mark(c)))
  {
    var v := s.callers[c].phase.seen;
    assert PhaseOk(s, s.callers[c]);
    ScriptsKeepMarkBeside(s.slot, v, Flag, cfg.lockTtl, cfg.ttl, Never, false, s.now, s.now);
    var u := s.(slot := AttachSlot(s.slot, v, s.now).0);
    ScriptKeeps(s, u);
    var t := Next(s, cfg, Mark(c));
    SameSlot(u, t);
    ValueStays(s, t, v);
    CallerMoves(u, t, c);
  }

  lemma FinishKeeps(s: System, cfg: Settings, c: nat, ending: Ending, encodes: bool, reached: bool)
    requires Inv(s) && Enabled(s, Finish(c, ending, encodes, reached))
    ensures Inv(Finishing(s, cfg, c, ending, encodes, reached))
  {
    var t, owner := Finishing(s, cfg, c, ending, encodes, reached), s.callers[c].phase.owner;
    assert PhaseOk(s, s.callers[c]);
    FinishSlotOk(s, cfg, c, ending, encodes, reached);
    CallerMoves(s, t, c);
  }

  lemma FinishSlotOk(s: System, cfg: Settings, c: nat, ending: Ending, encodes: bool, reached: bool)
    requires Inv(s) && Enabled(s, Finish(c, ending, encodes, reached))
    ensures var t := Finishing(s, cfg, c, ending, encodes, reached);
            Grows(s, t) && SlotOk(t) && KeepsMarks(s.slot, t.slot, s.now, t.now)
  {
    var t, owner := Finishing(s, cfg, c, ending, encodes, reached), s.callers[c].phase.owner;
    assert PhaseOk(s, s.callers[c]);
    assert Grows(s, t);
    if t.slot == s.slot {
      SameSlot(s, t);
    } else if t.slot.record.Some? {
      assert EndedWith(t, owner, s.claims[owner].fingerprint, ending.outcome);
    }
  }

  lemma ForgetKeeps(s: System, cfg: Settings, c: nat)
    requires Inv(s) && Enabled(s, Forget(c))
    ensures Inv(Next(s, cfg, Forget(c)))
  {
    var t := Next(s, cfg, Forget(c));
    SameSlot(s, t);
    assert forall i | 0 <= i < |s.callers| :: PhaseOk(s, s.callers[i]);
    CallerMoves(s, t, c);
  }

  lemma RegisterKeeps(s: System, cfg: Settings, c: nat)
    requires Inv(s) && Enabled(s, Register(c))
    ensures Inv(Next(s, cfg, Register(c)))
  {
    var t := Next(s, cfg, Register(c));
    SameSlot(s, t);
    assert forall i | 0 <= i < |s.callers| :: PhaseOk(s, s.callers[i]);
    CallerMoves(s, t, c);
  }

  lemma WriteKeeps(s: System, cfg: Settings, c: nat, owner: int)
    requires Inv(s) && Enabled(s, Write(c, owner))
    ensures Inv(Next(s, cfg, Write(c, owner)))
  {
    var t, running := Next(s, cfg, Write(c, owner)), RunningValue(s.callers[c].fingerprint, owner);
    if !ClaimSlot(s.slot, running, cfg.lockTtl, s.now).1 {
      MoveKeeps(s, c, Missed);
    } else {
      assert Grows(s, t) by {
        WriteGrows(s, cfg, c, owner);
      }
      ClaimInheritsNoMark(s.slot, running, cfg.lockTtl, s.now);
      forall i | 0 <= i < |t.callers|
        ensures PhaseOk(t, t.callers[i]) && MarkOk(t, t.callers[i])
        ensures i != c && Holding(t.callers[i].phase) ==> t.callers[i].phase.owner != owner
      {
        assert PhaseOk(s, s.callers[i]) && MarkOk(s, s.callers[i]);
        if i != c {
          PhaseStays(s, t, s.callers[i]);
        }
        if s.callers[i].marked.Some? {
          ValueStays(s, t, s.callers[i].marked.value);
        }
      }
    }
  }

  lemma WriteGrows(s: System, cfg: Settings, c: nat, owner: int)
    requires Inv(s) && Enabled(s, Write(c, owner))
    ensures Grows(s, Next(s, cfg, Write(c, owner)))
  {
  }

  lemma TickKeeps(s: System, ms: nat)
    requires Inv(s)
    ensures Inv(s.(now := s.now + ms))
  {
    var t := s.(now := s.now + ms);
    if t.slot.record.Some? {
      ValueStays(s, t, t.slot.record.value.value);
    }
    forall i | 0 <= i < |t.callers|
      ensures PhaseOk(t, t.callers[i]) && MarkOk(t, t.callers[i])
    {
      PhaseStays(s, t, s.callers[i]);
      MarkStays(s, t, s.callers[i]);
    }
  }

  lemma ArriveKeeps(s: System, caller: Caller)
    requires Inv(s) && caller.phase.Trying? && caller.marked.None?
    ensures Inv(s.(callers := s.callers + [caller]))
  {
    var t := s.(callers := s.callers + [caller]);
    SameSlot(s, t);
    forall i | 0 <= i < |t.callers|
      ensures PhaseOk(t, t.callers[i]) && MarkOk(t, t.callers[i])
    {
      if i < |s.callers| {
        PhaseStays(s, t, s.callers[i]);
        MarkStays(s, t, s.callers[i]);
      }
    }
  }

  lemma StepKeeps(s: System, cfg: Settings, step: Step)
    requires Inv(s) && Enabled(s, step)
    ensures Inv(Next(s, cfg, step))
  {
    match step
    case Arrive(p, fingerprint, safe) => ArriveKeeps(s, Caller(p, fingerprint, safe, Trying, None));
    case Tick(ms) => TickKeeps(s, ms);
    case Write(c, owner) => WriteKeeps(s, cfg, c, owner);
    case Register(c) => RegisterKeeps(s, cfg, c);
    case Fetch(c) => MoveKeeps(s, c, Read(Alive(s.slot.record, s.now)));
    case Decide(c) => DecideKeeps(s, c);
    case Look(c) => LookKeeps(s, c);
    case RemoteFetch(c) =>
      var value := Alive(s.slot.record, s.now);
      RemoteLookKeeps(s, c, if value.Some? then RemoteRead(value.value) else Remote);
    case Mark(c) => MarkKeeps(s, cfg, c);
    case RemoteLook(c) => RemoteLookKeeps(s, c, RemoteWaits);
    case Renew(c) => RenewKeeps(s, cfg, c);
    case Finish(c, ending, encodes, reached) => FinishKeeps(s, cfg, c, ending, encodes, reached);
    case Forget(c) => ForgetKeeps(s, cfg, c);
  }

  // ---- every run ------------------------------------------------------------------------------------------

  ghost predicate Moves(cfg: Settings, states: seq<System>, step: Step, i: nat)
    requires i + 1 < |states|
  {
    Enabled(states[i], step) && states[i + 1] == Next(states[i], cfg, step)
  }

  ghost predicate Execution(cfg: Settings, states: seq<System>, steps: seq<Step>) {
    && |states| == |steps| + 1 && states[0] == INITIAL
    && forall i {:trigger Moves(cfg, states, steps[i], i)} | 0 <= i < |steps| :: Moves(cfg, states, steps[i], i)
  }

  lemma {:induction false} ExecutionKeeps(cfg: Settings, states: seq<System>, steps: seq<Step>, n: nat)
    requires Execution(cfg, states, steps) && n <= |steps|
    ensures Inv(states[n])
  {
    if n > 0 {
      ExecutionKeeps(cfg, states, steps, n - 1);
      assert Moves(cfg, states, steps[n - 1], n - 1);
      StepKeeps(states[n - 1], cfg, steps[n - 1]);
    }
  }

  /** Over every run the attached mark exists only beside a running record, expires with it, and is not there when
      a new run takes the key. */
  lemma MarkIsNeverInherited(cfg: Settings, states: seq<System>, steps: seq<Step>, n: nat)
    requires Execution(cfg, states, steps) && n <= |steps|
    ensures MarkBeside(states[n].slot, states[n].now)
    ensures n < |steps| && steps[n].Write? ==>
      At(states[n + 1], steps[n].caller) && (states[n + 1].callers[steps[n].caller].phase.Written? ==>
                                               Alive(states[n + 1].slot.mark, states[n + 1].now).None?)
  {
    ExecutionKeeps(cfg, states, steps, n);
    if n < |steps| && steps[n].Write? {
      assert Moves(cfg, states, steps[n], n);
    }
  }

  /** A call whose running record a repeat's attach script marked has its storable outcome kept when its finish
      script runs on that record, whatever the method and whatever happened in between. */
  lemma MarkedOutcomeIsKept(cfg: Settings, states: seq<System>, steps: seq<Step>, n: nat, repeat: nat)
    requires Execution(cfg, states, steps) && n < |steps| && steps[n].Finish?
    requires steps[n].encodes && steps[n].reached && Storable(steps[n].ending)
    requires At(states[n], repeat) && Enabled(states[n], steps[n])
    requires var running := RunningOf(states[n], states[n].callers[steps[n].caller].phase.owner);
             states[n].callers[repeat].marked == Some(running) && Alive(states[n].slot.record, states[n].now) == Some(running)
    ensures var fingerprint := states[n].callers[steps[n].caller].fingerprint;
            states[n + 1].slot.record ==
              Some(Entry(DoneValue(fingerprint, steps[n].ending.outcome), states[n].now + cfg.ttl))
  {
    ExecutionKeeps(cfg, states, steps, n);
    assert Moves(cfg, states, steps[n], n);
    assert MarkOk(states[n], states[n].callers[repeat]);
    assert PhaseOk(states[n], states[n].callers[steps[n].caller]);
  }

  /** A run whose record is not the one in Redis changes neither key. */
  lemma LostRunChangesNothing(cfg: Settings, states: seq<System>, steps: seq<Step>, n: nat)
    requires Execution(cfg, states, steps) && n < |steps| && (steps[n].Renew? || steps[n].Finish?)
    requires Enabled(states[n], steps[n])
    requires Alive(states[n].slot.record, states[n].now) !=
             Some(RunningOf(states[n], states[n].callers[steps[n].caller].phase.owner))
    ensures states[n + 1].slot == states[n].slot
  {
    assert Moves(cfg, states, steps[n], n);
  }

  // ---- whose outcome a repeat gets ------------------------------------------------------------------------

  /** The request attaches to its process's run of the key although that run is of another fingerprint. */
  predicate AttachesElsewhere(s: System, step: Step) {
    && step.Decide? && Enabled(s, step)
    && var caller := s.callers[step.caller];
       && Answering(caller.phase.value, caller.fingerprint).None?
       && caller.process in s.runs && s.runs[caller.process] in s.claims
       && s.claims[s.runs[caller.process]].fingerprint != caller.fingerprint
  }

  ghost predicate Own(s: System, caller: Caller) {
    match caller.phase
    case WaitsHere(o) => o in s.claims && s.claims[o].fingerprint == caller.fingerprint
    case Answered(Replayed(outcome)) => Produced(s, caller.fingerprint, outcome)
    case _ => true
  }

  ghost predicate AllOwn(s: System) {
    forall i | 0 <= i < |s.callers| :: Own(s, s.callers[i])
  }

  lemma OwnStays(s: System, t: System, caller: Caller)
    requires Grows(s, t) && Own(s, caller)
    ensures Own(t, caller)
  {
    match caller.phase
    case Answered(Replayed(outcome)) => ProducedStays(s, t, caller.fingerprint, outcome);
    case _ =>
  }

  lemma StepGrows(s: System, cfg: Settings, step: Step)
    requires Inv(s) && Enabled(s, step)
    ensures Grows(s, Next(s, cfg, step))
  {
    match step
    case Write(c, owner) => WriteGrows(s, cfg, c, owner);
    case Finish(c, ending, encodes, reached) => FinishSlotOk(s, cfg, c, ending, encodes, reached);
    case _ =>
  }

  /** The callers a step leaves alone. */
  lemma StepMovesOne(s: System, cfg: Settings, step: Step, i: nat)
    requires Enabled(s, step) && i < |s.callers| && (step.Arrive? || step.Tick? || step.caller != i)
    ensures var t := Next(s, cfg, step);
            i < |t.callers| && t.callers[i] == s.callers[i]
  {
  }

  lemma MoverOwn(s: System, cfg: Settings, step: Step)
    requires Inv(s) && AllOwn(s) && Enabled(s, step) && !AttachesElsewhere(s, step)
    requires !step.Arrive? && !step.Tick?
    ensures step.caller < |Next(s, cfg, step).callers|
    ensures Own(Next(s, cfg, step), Next(s, cfg, step).callers[step.caller])
  {
    var t := Next(s, cfg, step);
    StepGrows(s, cfg, step);
    assert PhaseOk(s, s.callers[step.caller]) && Own(s, s.callers[step.caller]);
    match step
    case Decide(c) =>
    case Look(c) =>
      var call := s.calls[s.callers[c].phase.owner];
      if call.resolved && call.ended.Some? && call.ended.value.Some? {
        assert EndedWith(t, s.callers[c].phase.owner, s.callers[c].fingerprint, call.ended.value.value);
      }
    case _ =>
  }

  lemma StepOwn(s: System, cfg: Settings, step: Step)
    requires Inv(s) && AllOwn(s) && Enabled(s, step) && !AttachesElsewhere(s, step)
    ensures AllOwn(Next(s, cfg, step))
  {
    var t := Next(s, cfg, step);
    StepGrows(s, cfg, step);
    forall i | 0 <= i < |t.callers|
      ensures Own(t, t.callers[i])
    {
      if step.Arrive? && i == |s.callers| {
        assert t.callers[i].phase == Trying;
      } else if step.Arrive? || step.Tick? || step.caller != i {
        StepMovesOne(s, cfg, step, i);
        OwnStays(s, t, s.callers[i]);
      } else {
        MoverOwn(s, cfg, step);
      }
    }
  }

  /** Over every run in which no request attaches to a run of another fingerprint, every replay is the outcome of
      a run claimed with the request's own. */
  lemma {:induction false} ReplaysAreOwn(cfg: Settings, states: seq<System>, steps: seq<Step>, n: nat)
    requires Execution(cfg, states, steps) && n <= |steps|
    requires forall i | 0 <= i < n :: !AttachesElsewhere(states[i], steps[i])
    ensures AllOwn(states[n])
  {
    if n > 0 {
      ReplaysAreOwn(cfg, states, steps, n - 1);
      ExecutionKeeps(cfg, states, steps, n - 1);
      assert Moves(cfg, states, steps[n - 1], n - 1);
      StepOwn(states[n - 1], cfg, steps[n - 1]);
    }
  }

  /** No step is shut out but by how far its request is. */
  lemma OnlyPhasesGuard(s: System, c: nat, ending: Ending, encodes: bool, reached: bool)
    requires Inv(s) && At(s, c)
    ensures s.callers[c].phase.Read? ==> Enabled(s, Decide(c))
    ensures s.callers[c].phase.WaitsHere? ==> Enabled(s, Look(c))
    ensures s.callers[c].phase.Executing? ==> Enabled(s, Renew(c)) && Enabled(s, Finish(c, ending, encodes, reached))
    ensures s.callers[c].phase.Closing? ==> Enabled(s, Forget(c))
  {
    assert PhaseOk(s, s.callers[c]);
  }
}
