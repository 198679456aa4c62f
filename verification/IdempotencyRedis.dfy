/** The Redis keys of one idempotency key, the commands used on them and the three scripts. */
module IdempotencyRedis {
  import opened Basics
  import opened IdempotencyMemory

  /** What a Redis key holds. Encoded records are injective, so they are compared as values. */
  datatype Value = RunningValue(fingerprint: string, owner: int) | DoneValue(fingerprint: string, outcome: Outcome) | Flag

  datatype Entry = Entry(value: Value, expiresAt: int)

  /** The record and the attached mark of an idempotency key, expired ones included. */
  datatype Slot = Slot(record: Option<Entry>, mark: Option<Entry>)

  function Alive(e: Option<Entry>, now: int): Option<Value> {
    if e.Some? && e.value.expiresAt > now then Some(e.value.value) else None
  }

  // ---- the scripts as functions of the two keys ---------------------------------------------------------

  function ClaimSlot(s: Slot, running: Value, lockMs: int, now: int): (Slot, bool) {
    if Alive(s.record, now).Some? then (s, false) else (s.(record := Some(Entry(running, now + lockMs))), true)
  }

  function AttachSlot(s: Slot, running: Value, now: int): (Slot, bool) {
    if Alive(s.record, now) != Some(running) then (s, false)
    else (s.(mark := Some(Entry(Flag, s.record.value.expiresAt))), true)
  }

  function RenewSlot(s: Slot, running: Value, lockMs: int, now: int): (Slot, bool) {
    if Alive(s.record, now) != Some(running) then (s, false)
    else
      (Slot(Some(Entry(running, now + lockMs)),
            if Alive(s.mark, now).Some? then Some(Entry(s.mark.value.value, now + lockMs)) else s.mark), true)
  }

  datatype Finished = Stored | Deleted | NotOurs

  function FinishSlot(s: Slot, running: Value, done: Value, ttlMs: int, mode: Mode, attached: bool, now: int)
    : (Slot, Finished)
  {
    if Alive(s.record, now) != Some(running) then (s, NotOurs)
    else if mode == Always || (mode == Attached && (attached || Alive(s.mark, now).Some?)) then
      (Slot(Some(Entry(done, now + ttlMs)), None), Stored)
    else (Slot(None, None), Deleted)
  }

  // ---- the server -------------------------------------------------------------------------------------

  class Redis {
    var entries: map<string, Entry>

    function At(key: string): Option<Entry>
      reads this
    {
      if key in entries then Some(entries[key]) else None
    }

    function SlotAt(key: string, mark: string): Slot
      reads this
    {
      Slot(At(key), At(mark))
    }

    method Get(key: string, now: int) returns (r: Option<Value>)
      ensures r == Alive(At(key), now)
    {
      r := if key in entries && entries[key].expiresAt > now then Some(entries[key].value) else None;
    }

    method Exists(key: string, now: int) returns (r: bool)
      ensures r == Alive(At(key), now).Some?
    {
      r := key in entries && entries[key].expiresAt > now;
    }

    method Pttl(key: string, now: int) returns (ms: int)
      ensures ms == if Alive(At(key), now).Some? then At(key).value.expiresAt - now else -2
    {
      ms := if key in entries && entries[key].expiresAt > now then entries[key].expiresAt - now else -2;
    }

    method SetPx(key: string, value: Value, ms: int, now: int)
      modifies this
      ensures entries == old(entries)[key := Entry(value, now + ms)]
    {
      entries := entries[key := Entry(value, now + ms)];
    }

    method PExpire(key: string, ms: int, now: int)
      modifies this
      ensures entries == if Alive(old(At(key)), now).Some? then old(entries)[key := Entry(old(entries)[key].value, now + ms)]
                         else old(entries)
    {
      if key in entries && entries[key].expiresAt > now {
        entries := entries[key := Entry(entries[key].value, now + ms)];
      }
    }

    method Del(key: string)
      modifies this
      ensures entries == old(entries) - {key}
    {
      entries := entries - {key};
    }

    /** `SET key value NX PX ms`. */
    method Claim(key: string, ghost mark: string, running: Value, lockMs: int, now: int) returns (claimed: bool)
      requires key != mark
      modifies this
      ensures (SlotAt(key, mark), claimed) == ClaimSlot(old(SlotAt(key, mark)), running, lockMs, now)
      ensures forall k | k != key && k != mark :: At(k) == old(At(k))
    {
      var taken := Exists(key, now);
      if taken {
        return false;
      }
      SetPx(key, running, lockMs, now);
      claimed := true;
    }

    method AttachScript(key: string, mark: string, running: Value, now: int) returns (attached: bool)
      requires key != mark
      modifies this
      ensures (SlotAt(key, mark), attached) == AttachSlot(old(SlotAt(key, mark)), running, now)
      ensures forall k | k != key && k != mark :: At(k) == old(At(k))
    {
      var value := Get(key, now);
      if value != Some(running) {
        return false;
      }
      var ttl := Pttl(key, now);
      if ttl <= 0 {
        return false;
      }
      SetPx(mark, Flag, ttl, now);
      attached := true;
    }

    method RenewScript(key: string, mark: string, running: Value, lockMs: int, now: int) returns (renewed: bool)
      requires key != mark
      modifies this
      ensures (SlotAt(key, mark), renewed) == RenewSlot(old(SlotAt(key, mark)), running, lockMs, now)
      ensures forall k | k != key && k != mark :: At(k) == old(At(k))
    {
      var value := Get(key, now);
      if value != Some(running) {
        return false;
      }
      PExpire(key, lockMs, now);
      var marked := Exists(mark, now);
      if marked {
        PExpire(mark, lockMs, now);
      }
      renewed := true;
    }

    method FinishScript(
      key: string, mark: string, running: Value, done: Value, ttlMs: int, mode: Mode, attached: bool, now: int)
      returns (r: Finished)
      requires key != mark
      modifies this
      ensures (SlotAt(key, mark), r) == FinishSlot(old(SlotAt(key, mark)), running, done, ttlMs, mode, attached, now)
      ensures forall k | k != key && k != mark :: At(k) == old(At(k))
    {
      var value := Get(key, now);
      if value != Some(running) {
        return NotOurs;
      }
      var store := mode == Always;
      if mode == Attached {
        var marked := Exists(mark, now);
        store := attached || marked;
      }
      Del(mark);
      if store {
        SetPx(key, done, ttlMs, now);
        return Stored;
      }
      Del(key);
      r := Deleted;
    }
  }

  // ---- the mark ---------------------------------------------------------------------------------------

  /** An unexpired mark stands beside an unexpired running record and expires with it. */
  predicate MarkBeside(s: Slot, now: int) {
    Alive(s.mark, now).Some? ==>
      && Alive(s.record, now).Some? && s.record.value.value.RunningValue?
      && s.mark.value.expiresAt == s.record.value.expiresAt
  }

  /** A new run starts without a mark, whatever an earlier one left. */
  lemma ClaimInheritsNoMark(s: Slot, running: Value, lockMs: int, now: int)
    requires MarkBeside(s, now) && ClaimSlot(s, running, lockMs, now).1
    ensures Alive(s.mark, now).None? && MarkBeside(ClaimSlot(s, running, lockMs, now).0, now)
  {
  }

  lemma ScriptsKeepMarkBeside(
    s: Slot, running: Value, done: Value, lockMs: int, ttlMs: int, mode: Mode, attached: bool, now: int, later: int)
    requires MarkBeside(s, now) && running.RunningValue? && now <= later
    ensures MarkBeside(s, later)
    ensures MarkBeside(AttachSlot(s, running, now).0, now)
    ensures MarkBeside(RenewSlot(s, running, lockMs, now).0, now)
    ensures MarkBeside(FinishSlot(s, running, done, ttlMs, mode, attached, now).0, now)
  {
  }

  /** Once the attach script set the mark, the run's record is marked as long as it is there: renewals, other
      attaches, other runs' scripts and time do not separate them. */
  predicate MarkedWhileThere(s: Slot, running: Value, now: int) {
    Alive(s.record, now) == Some(running) ==> Alive(s.mark, now).Some?
  }

  // ---- what the scripts leave, as later reads see it --------------------------------------------------------

  /** A claim of a free key is read for the lock TTL and is gone then; of a taken one, nothing changes. */
  lemma ClaimIsRead(s: Slot, running: Value, lockMs: int, now: int, later: int)
    requires now <= later
    ensures var (t, claimed) := ClaimSlot(s, running, lockMs, now);
            && (claimed <==> s.record.None? || s.record.value.expiresAt <= now)
            && t.mark == s.mark && (!claimed ==> t == s)
            && (claimed ==> Alive(t.record, later) == if later < now + lockMs then Some(running) else None)
  {
  }

  /** The mark set on a running record is read as long as that record. */
  lemma AttachIsRead(s: Slot, running: Value, now: int, later: int)
    requires now <= later
    ensures var (t, marked) := AttachSlot(s, running, now);
            && (marked <==> Alive(s.record, now) == Some(running))
            && t.record == s.record && (!marked ==> t == s)
            && (marked ==> (Alive(t.mark, later) == Some(Flag) <==> Alive(s.record, later) == Some(running)))
  {
  }

  /** A renewal of the record that is there answers true; the record is read for a whole lock TTL from then on and is
      gone after it, and so is a mark that was there. No mark comes with it, and another's record stays as it is. */
  lemma RenewIsRead(s: Slot, running: Value, lockMs: int, now: int, later: int)
    requires now <= later
    ensures var (t, renewed) := RenewSlot(s, running, lockMs, now);
            && (renewed <==> Alive(s.record, now) == Some(running)) && (!renewed ==> t == s)
            && (renewed ==> Alive(t.record, later) == if later < now + lockMs then Some(running) else None)
            && (renewed ==> Alive(t.mark, later) == if later < now + lockMs then Alive(s.mark, now) else None)
  {
  }

  /** What the finish script leaves of its record: the outcome for the TTL, always or when a repeat attached here or
      marked it elsewhere, or nothing; the mark goes. */
  lemma FinishIsRead(
    s: Slot, running: Value, done: Value, ttlMs: int, mode: Mode, attached: bool, now: int, later: int)
    requires now <= later
    ensures var (t, r) := FinishSlot(s, running, done, ttlMs, mode, attached, now);
            && (r == NotOurs <==> Alive(s.record, now) != Some(running)) && (r == NotOurs ==> t == s)
            && (r == Stored <==> Alive(s.record, now) == Some(running)
                                 && (mode == Always || (mode == Attached && (attached || Alive(s.mark, now).Some?))))
            && (r == Stored ==> Alive(t.record, later) == if later < now + ttlMs then Some(done) else None)
            && (r == Deleted ==> Alive(t.record, later).None?)
            && (r != NotOurs ==> Alive(t.mark, later).None?)
  {
  }
}
