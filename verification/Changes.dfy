/** Patching a list of rows with a `records_changed` event. */
module Changes {
  import opened Basics

  /** `pk` is the row's pk field as text. */
  datatype Row = Row(pk: string, fields: string)

  datatype Change = Change(pk: string, record: Option<Row>)

  datatype Op = Saved | Deleted

  /** A JavaScript Map: it iterates in the order its keys were first set. */
  datatype Table = Table(keys: seq<string>, values: map<string, Row>)

  const EMPTY := Table([], map[])

  function Set(t: Table, key: string, value: Row): Table {
    Table(if key in t.values then t.keys else t.keys + [key], t.values[key := value])
  }

  // ---- what it computes ------------------------------------------------------------------------------------

  function RecordsOf(changes: seq<Change>): Table {
    if changes == [] then EMPTY
    else
      var c := changes[|changes| - 1];
      var t := RecordsOf(changes[..|changes| - 1]);
      if c.record.Some? then Set(t, c.pk, c.record.value) else t
  }

  function PksOf(changes: seq<Change>): set<string> {
    set c | c in changes :: c.pk
  }

  function Replaced(rows: seq<Row>, values: map<string, Row>): (r: seq<Row>)
    ensures |r| == |rows|
  {
    seq(|rows|, i requires 0 <= i < |rows| => if rows[i].pk in values then values[rows[i].pk] else rows[i])
  }

  /** The keys of `values` that are rows' pks. */
  function PlacedOf(rows: seq<Row>, values: map<string, Row>): set<string> {
    set r | r in rows && r.pk in values :: r.pk
  }

  function Rest(keys: seq<string>, values: map<string, Row>, placed: set<string>): seq<Row>
    requires forall k | k in keys :: k in values
  {
    if keys == [] then []
    else
      var k := keys[|keys| - 1];
      Rest(keys[..|keys| - 1], values, placed) + if k in placed then [] else [values[k]]
  }

  function Kept(rows: seq<Row>, removed: set<string>): seq<Row> {
    if rows == [] then []
    else
      var r := rows[|rows| - 1];
      Kept(rows[..|rows| - 1], removed) + if r.pk in removed then [] else [r]
  }

  ghost predicate TableOk(t: Table) {
    && (forall k :: k in t.keys <==> k in t.values)
    && (forall i, j | 0 <= i < j < |t.keys| :: t.keys[i] != t.keys[j])
  }

  lemma {:induction false} RecordsAreTable(changes: seq<Change>)
    ensures TableOk(RecordsOf(changes))
    decreases |changes|
  {
    if changes != [] {
      RecordsAreTable(changes[..|changes| - 1]);
    }
  }

  function Applied(rows: seq<Row>, op: Op, changes: seq<Change>): seq<Row> {
    if op.Deleted? then Kept(rows, PksOf(changes))
    else
      var t := RecordsOf(changes);
      RecordsAreTable(changes);
      Replaced(rows, t.values) + Rest(t.keys, t.values, PlacedOf(rows, t.values))
  }

  method ApplyChanges(rows: seq<Row>, op: Op, changes: seq<Change>) returns (out: seq<Row>)
    ensures out == Applied(rows, op, changes)
  {
    out := [];
    if op.Deleted? {
      var removed := PksOf(changes);
      for i := 0 to |rows|
        invariant out == Kept(rows[..i], removed)
      {
        assert rows[..i + 1][..i] == rows[..i];
        if rows[i].pk !in removed {
          out := out + [rows[i]];
        }
      }
      assert rows[..|rows|] == rows;
      return;
    }
    var records := Collect(changes);
    RecordsAreTable(changes);
    var placed: set<string> := {};
    for i := 0 to |rows|
      invariant out == Replaced(rows[..i], records.values)
      invariant placed == PlacedOf(rows[..i], records.values)
    {
      assert rows[..i + 1] == rows[..i] + [rows[i]];
      if rows[i].pk in records.values {
        placed := placed + {rows[i].pk};
        out := out + [records.values[rows[i].pk]];
      } else {
        out := out + [rows[i]];
      }
    }
    assert rows[..|rows|] == rows;
    ghost var replaced := out;
    for i := 0 to |records.keys|
      invariant out == replaced + Rest(records.keys[..i], records.values, placed)
    {
      assert records.keys[..i + 1][..i] == records.keys[..i];
      if records.keys[i] !in placed {
        out := out + [records.values[records.keys[i]]];
      }
    }
    assert records.keys[..|records.keys|] == records.keys;
  }

  method Collect(changes: seq<Change>) returns (records: Table)
    ensures records == RecordsOf(changes)
  {
    records := EMPTY;
    for i := 0 to |changes|
      invariant records == RecordsOf(changes[..i])
    {
      assert changes[..i + 1][..i] == changes[..i];
      if changes[i].record.Some? {
        records := Set(records, changes[i].pk, changes[i].record.value);
      }
    }
    assert changes[..|changes|] == changes;
  }

  // ---- what it means: an update of a map ------------------------------------------------------------------

  /** The row with the pk. */
  function RowAt(rows: seq<Row>, pk: string): Option<Row> {
    if rows == [] then None
    else if rows[|rows| - 1].pk == pk then Some(rows[|rows| - 1])
    else RowAt(rows[..|rows| - 1], pk)
  }

  /** The last record the changes carry for the pk. */
  function RecordAt(changes: seq<Change>, pk: string): Option<Row> {
    if changes == [] then None
    else
      var c := changes[|changes| - 1];
      if c.pk == pk && c.record.Some? then c.record else RecordAt(changes[..|changes| - 1], pk)
  }

  /** A record carries the pk of its change. */
  predicate Carried(changes: seq<Change>) {
    forall c | c in changes && c.record.Some? :: c.record.value.pk == c.pk
  }

  predicate Distinct(rows: seq<Row>) {
    forall i, j | 0 <= i < j < |rows| :: rows[i].pk != rows[j].pk
  }

  predicate Keyed(values: map<string, Row>) {
    forall k | k in values :: values[k].pk == k
  }

  lemma {:induction false} RecordsMean(changes: seq<Change>, pk: string)
    ensures var v := RecordsOf(changes).values;
            RecordAt(changes, pk) == if pk in v then Some(v[pk]) else None
    ensures Carried(changes) ==> Keyed(RecordsOf(changes).values)
    decreases |changes|
  {
    if changes != [] {
      var n := |changes| - 1;
      assert Carried(changes) ==> Carried(changes[..n]);
      RecordsMean(changes[..n], pk);
      assert changes[n] in changes;
    }
  }

  lemma {:induction false} RowAtConcat(a: seq<Row>, b: seq<Row>, pk: string)
    ensures RowAt(a + b, pk) == if RowAt(b, pk).Some? then RowAt(b, pk) else RowAt(a, pk)
    decreases |b|
  {
    if b == [] {
      assert a + b == a;
    } else {
      assert (a + b)[..|a + b| - 1] == a + b[..|b| - 1];
      RowAtConcat(a, b[..|b| - 1], pk);
    }
  }

  lemma {:induction false} RowAtReplaced(rows: seq<Row>, values: map<string, Row>, pk: string)
    requires Keyed(values)
    ensures RowAt(Replaced(rows, values), pk) ==
      if RowAt(rows, pk).None? then None else if pk in values then Some(values[pk]) else RowAt(rows, pk)
    decreases |rows|
  {
    if rows != [] {
      var n := |rows| - 1;
      assert Replaced(rows, values)[..n] == Replaced(rows[..n], values);
      RowAtReplaced(rows[..n], values, pk);
    }
  }

  lemma RowAtAppend(rows: seq<Row>, r: Row, pk: string)
    ensures RowAt(rows + [r], pk) == if r.pk == pk then Some(r) else RowAt(rows, pk)
  {
    assert (rows + [r])[..|rows|] == rows;
  }

  lemma InLast(keys: seq<string>, k: string)
    requires keys != []
    ensures k in keys <==> k in keys[..|keys| - 1] || k == keys[|keys| - 1]
  {
  }

  lemma {:induction false} RowAtRest(keys: seq<string>, values: map<string, Row>, placed: set<string>, pk: string)
    requires Keyed(values) && forall k | k in keys :: k in values
    ensures RowAt(Rest(keys, values, placed), pk) == if pk in keys && pk !in placed then Some(values[pk]) else None
    decreases |keys|
  {
    if keys != [] {
      var n := |keys| - 1;
      RowAtRest(keys[..n], values, placed, pk);
      InLast(keys, pk);
      RestLast(keys, values, placed);
      if keys[n] !in placed {
        RowAtAppend(Rest(keys[..n], values, placed), values[keys[n]], pk);
      }
    }
  }

  lemma RestLast(keys: seq<string>, values: map<string, Row>, placed: set<string>)
    requires keys != [] && forall k | k in keys :: k in values
    ensures var n := |keys| - 1;
            Rest(keys, values, placed) ==
              if keys[n] in placed then Rest(keys[..n], values, placed)
              else Rest(keys[..n], values, placed) + [values[keys[n]]]
  {
  }

  lemma {:induction false} PlacedMeans(rows: seq<Row>, values: map<string, Row>, pk: string)
    ensures pk in PlacedOf(rows, values) <==> pk in values && RowAt(rows, pk).Some?
    decreases |rows|
  {
    if rows != [] {
      var n := |rows| - 1;
      PlacedMeans(rows[..n], values, pk);
      assert rows == rows[..n] + [rows[n]];
    }
  }

  /** Saved records update the map of rows by pk: the last record of a pk wins, every other row stays. */
  lemma SaveUpdatesTheMap(rows: seq<Row>, changes: seq<Change>, pk: string)
    requires Carried(changes)
    ensures RowAt(Applied(rows, Saved, changes), pk) ==
      if RecordAt(changes, pk).Some? then RecordAt(changes, pk) else RowAt(rows, pk)
  {
    var t := RecordsOf(changes);
    RecordsAreTable(changes);
    RecordsMean(changes, pk);
    RowAtConcat(Replaced(rows, t.values), Rest(t.keys, t.values, PlacedOf(rows, t.values)), pk);
    RowAtReplaced(rows, t.values, pk);
    RowAtRest(t.keys, t.values, PlacedOf(rows, t.values), pk);
    PlacedMeans(rows, t.values, pk);
  }

  lemma {:induction false} DeleteRemovesFromTheMap(rows: seq<Row>, changes: seq<Change>, pk: string)
    ensures RowAt(Applied(rows, Deleted, changes), pk) ==
      if exists c | c in changes :: c.pk == pk then None else RowAt(rows, pk)
    decreases |rows|
  {
    if rows != [] {
      var n := |rows| - 1;
      DeleteRemovesFromTheMap(rows[..n], changes, pk);
      var last := if rows[n].pk in PksOf(changes) then [] else [rows[n]];
      RowAtConcat(Kept(rows[..n], PksOf(changes)), last, pk);
      assert [rows[n]][..0] == [];
    }
  }

  /** Rows keep their places and new ones come after them; a delete keeps the order of what is left. */
  lemma SaveKeepsPlaces(rows: seq<Row>, changes: seq<Change>, i: nat)
    requires Carried(changes) && i < |rows|
    ensures |Applied(rows, Saved, changes)| >= |rows|
    ensures Applied(rows, Saved, changes)[i].pk == rows[i].pk
    ensures RecordAt(changes, rows[i].pk).None? ==> Applied(rows, Saved, changes)[i] == rows[i]
  {
    RecordsMean(changes, rows[i].pk);
  }

  lemma {:induction false} DeleteKeepsOrder(a: seq<Row>, b: seq<Row>, changes: seq<Change>)
    ensures Applied(a + b, Deleted, changes) == Applied(a, Deleted, changes) + Applied(b, Deleted, changes)
    decreases |b|
  {
    if b == [] {
      assert a + b == a;
    } else {
      var n := |b| - 1;
      assert (a + b)[..|a + b| - 1] == a + b[..n];
      DeleteKeepsOrder(a, b[..n], changes);
    }
  }

  // ---- the order of new rows ----------------------------------------------------------------------------------

  /** The first change that carries a record of the pk; their number when none does. */
  function FirstRecord(changes: seq<Change>, pk: string): nat {
    if changes == [] then 0
    else if changes[0].pk == pk && changes[0].record.Some? then 0
    else 1 + FirstRecord(changes[1..], pk)
  }

  lemma {:induction false} FirstRecordAppend(changes: seq<Change>, c: Change, pk: string)
    ensures FirstRecord(changes, pk) <= |changes|
    ensures FirstRecord(changes + [c], pk) ==
      if FirstRecord(changes, pk) < |changes| || (c.pk == pk && c.record.Some?) then FirstRecord(changes, pk)
      else |changes| + 1
  {
    if changes == [] {
      assert [c][1..] == [];
    } else {
      assert (changes + [c])[1..] == changes[1..] + [c] && (changes + [c])[0] == changes[0];
      FirstRecordAppend(changes[1..], c, pk);
    }
  }

  /** The keys stand in the order in which they first carry a record, and are those that do. */
  ghost predicate ByFirstRecord(keys: seq<string>, changes: seq<Change>) {
    && (forall i, j | 0 <= i < j < |keys| :: FirstRecord(changes, keys[i]) < FirstRecord(changes, keys[j]))
    && (forall k :: k in keys <==> FirstRecord(changes, k) < |changes|)
  }

  lemma {:induction false} RecordsByFirst(changes: seq<Change>)
    ensures TableOk(RecordsOf(changes)) && ByFirstRecord(RecordsOf(changes).keys, changes)
    decreases |changes|
  {
    RecordsAreTable(changes);
    if changes == [] {
      assert forall k :: FirstRecord(changes, k) == 0;
    } else {
      var n := |changes| - 1;
      var before, c := changes[..n], changes[n];
      assert changes == before + [c];
      RecordsByFirst(before);
      SetKeepsOrder(RecordsOf(before), before, c);
    }
  }

  lemma SetKeepsOrder(t: Table, before: seq<Change>, c: Change)
    requires TableOk(t) && ByFirstRecord(t.keys, before)
    ensures ByFirstRecord((if c.record.Some? then Set(t, c.pk, c.record.value) else t).keys, before + [c])
  {
    forall k
      ensures FirstRecord(before, k) <= |before|
      ensures FirstRecord(before + [c], k) ==
        if FirstRecord(before, k) < |before| || (c.pk == k && c.record.Some?) then FirstRecord(before, k) else |before| + 1
    {
      FirstRecordAppend(before, c, k);
    }
  }

  ghost predicate RowsByFirst(rows: seq<Row>, changes: seq<Change>) {
    forall i, j | 0 <= i < j < |rows| :: FirstRecord(changes, rows[i].pk) < FirstRecord(changes, rows[j].pk)
  }

  lemma LaterAppends(rows: seq<Row>, row: Row, changes: seq<Change>)
    requires RowsByFirst(rows, changes)
    requires forall r | r in rows :: FirstRecord(changes, r.pk) < FirstRecord(changes, row.pk)
    ensures RowsByFirst(rows + [row], changes)
  {
  }

  lemma {:induction false} RestInOrder(
    keys: seq<string>, values: map<string, Row>, placed: set<string>, changes: seq<Change>)
    requires Keyed(values) && (forall k | k in keys :: k in values)
    requires forall i, j | 0 <= i < j < |keys| :: FirstRecord(changes, keys[i]) < FirstRecord(changes, keys[j])
    ensures (forall r | r in Rest(keys, values, placed) :: r.pk in keys)
    ensures RowsByFirst(Rest(keys, values, placed), changes)
    decreases |keys|
  {
    if keys != [] {
      var n := |keys| - 1;
      RestInOrder(keys[..n], values, placed, changes);
      RestLast(keys, values, placed);
      var rest := Rest(keys[..n], values, placed);
      forall r | r in rest
        ensures FirstRecord(changes, r.pk) < FirstRecord(changes, keys[n])
      {
        var m :| 0 <= m < n && keys[..n][m] == r.pk;
      }
      LaterAppends(rest, values[keys[n]], changes);
    }
  }

  /** The rows a save adds: each of a pk that no row had and some change carries a record of, in the order in which the
      changes first do. */
  ghost predicate AddedInOrder(rows: seq<Row>, changes: seq<Change>, added: seq<Row>) {
    && (forall r | r in added :: RowAt(rows, r.pk).None? && FirstRecord(changes, r.pk) < |changes|)
    && RowsByFirst(added, changes)
    && (forall pk | RowAt(rows, pk).None? && FirstRecord(changes, pk) < |changes| :: exists r | r in added :: r.pk == pk)
  }

  lemma SaveAddsInOrder(rows: seq<Row>, changes: seq<Change>)
    requires Carried(changes)
    ensures var out := Applied(rows, Saved, changes);
            |rows| <= |out| && AddedInOrder(rows, changes, out[|rows|..])
  {
    var t := RecordsOf(changes);
    RecordsByFirst(changes);
    RecordsMean(changes, "");
    RestIsAdded(rows, changes, t);
    assert Applied(rows, Saved, changes)[|rows|..] == Rest(t.keys, t.values, PlacedOf(rows, t.values));
  }

  lemma RestIsAdded(rows: seq<Row>, changes: seq<Change>, t: Table)
    requires TableOk(t) && Keyed(t.values) && ByFirstRecord(t.keys, changes)
    ensures AddedInOrder(rows, changes, Rest(t.keys, t.values, PlacedOf(rows, t.values)))
  {
    var placed := PlacedOf(rows, t.values);
    var rest := Rest(t.keys, t.values, placed);
    RestInOrder(t.keys, t.values, placed, changes);
    RestIsDistinct(t.keys, t.values, placed);
    forall r | r in rest
      ensures RowAt(rows, r.pk).None? && FirstRecord(changes, r.pk) < |changes|
    {
      PlacedMeans(rows, t.values, r.pk);
    }
    forall pk | RowAt(rows, pk).None? && FirstRecord(changes, pk) < |changes|
      ensures exists r | r in rest :: r.pk == pk
    {
      PlacedMeans(rows, t.values, pk);
      var i := RestHas(t.keys, t.values, placed, pk);
      assert rest[i] in rest;
    }
  }

  lemma {:induction false} RestHas(keys: seq<string>, values: map<string, Row>, placed: set<string>, pk: string)
    returns (i: nat)
    requires Keyed(values) && (forall k | k in keys :: k in values) && pk in keys && pk !in placed
    ensures i < |Rest(keys, values, placed)| && Rest(keys, values, placed)[i].pk == pk
    decreases |keys|
  {
    var n := |keys| - 1;
    if keys[n] == pk {
      i := |Rest(keys[..n], values, placed)|;
    } else {
      i := RestHas(keys[..n], values, placed, pk);
    }
  }

  // ---- distinct pks, and twice is once ----------------------------------------------------------------------

  lemma {:induction false} NoRowAt(rows: seq<Row>, pk: string)
    ensures RowAt(rows, pk).None? <==> forall r | r in rows :: r.pk != pk
    decreases |rows|
  {
    if rows != [] {
      var n := |rows| - 1;
      NoRowAt(rows[..n], pk);
      assert rows == rows[..n] + [rows[n]];
    }
  }

  lemma {:induction false} RestIsDistinct(keys: seq<string>, values: map<string, Row>, placed: set<string>)
    requires Keyed(values) && forall k | k in keys :: k in values
    requires forall i, j | 0 <= i < j < |keys| :: keys[i] != keys[j]
    ensures Distinct(Rest(keys, values, placed))
    ensures forall r | r in Rest(keys, values, placed) :: r.pk in keys && r.pk !in placed
    decreases |keys|
  {
    if keys != [] {
      var n := |keys| - 1;
      RestIsDistinct(keys[..n], values, placed);
      assert keys[n] !in keys[..n];
    }
  }

  lemma SaveKeepsDistinct(rows: seq<Row>, changes: seq<Change>)
    requires Carried(changes) && Distinct(rows)
    ensures Distinct(Applied(rows, Saved, changes))
  {
    var t := RecordsOf(changes);
    RecordsAreTable(changes);
    RecordsMean(changes, "");
    var placed := PlacedOf(rows, t.values);
    RestIsDistinct(t.keys, t.values, placed);
    var a, b := Replaced(rows, t.values), Rest(t.keys, t.values, placed);
    assert forall i | 0 <= i < |a| :: a[i].pk == rows[i].pk;
    forall i, j | 0 <= i < |a| && 0 <= j < |b|
      ensures a[i].pk != b[j].pk
    {
      assert b[j] in b && rows[i] in rows;
    }
  }

  lemma {:induction false} DeleteKeepsDistinct(rows: seq<Row>, changes: seq<Change>)
    requires Distinct(rows)
    ensures Distinct(Applied(rows, Deleted, changes))
    ensures forall r | r in Applied(rows, Deleted, changes) :: r in rows
    decreases |rows|
  {
    if rows != [] {
      var n := |rows| - 1;
      DeleteKeepsDistinct(rows[..n], changes);
      assert rows == rows[..n] + [rows[n]];
      assert forall r | r in rows[..n] :: r.pk != rows[n].pk;
    }
  }

  lemma {:induction false} NothingRest(keys: seq<string>, values: map<string, Row>, placed: set<string>)
    requires forall k | k in keys :: k in values && k in placed
    ensures Rest(keys, values, placed) == []
    decreases |keys|
  {
    if keys != [] {
      NothingRest(keys[..|keys| - 1], values, placed);
    }
  }

  lemma SaveTwiceIsOnce(rows: seq<Row>, changes: seq<Change>)
    requires Carried(changes)
    ensures Applied(Applied(rows, Saved, changes), Saved, changes) == Applied(rows, Saved, changes)
  {
    var t, once := RecordsOf(changes), Applied(rows, Saved, changes);
    RecordsAreTable(changes);
    RecordsMean(changes, "");
    forall k | k in t.keys
      ensures k in PlacedOf(once, t.values)
    {
      SaveUpdatesTheMap(rows, changes, k);
      RecordsMean(changes, k);
      PlacedMeans(once, t.values, k);
    }
    NothingRest(t.keys, t.values, PlacedOf(once, t.values));
    forall i | 0 <= i < |once|
      ensures Replaced(once, t.values)[i] == once[i]
    {
      if i >= |rows| {
        RestAreValues(t.keys, t.values, PlacedOf(rows, t.values), i - |rows|);
      }
    }
  }

  lemma {:induction false} RestAreValues(keys: seq<string>, values: map<string, Row>, placed: set<string>, i: nat)
    requires Keyed(values) && (forall k | k in keys :: k in values) && i < |Rest(keys, values, placed)|
    ensures var r := Rest(keys, values, placed)[i]; r.pk in values && r == values[r.pk]
    decreases |keys|
  {
    var n := |keys| - 1;
    if i < |Rest(keys[..n], values, placed)| {
      RestAreValues(keys[..n], values, placed, i);
    }
  }

  lemma {:induction false} DeleteTwiceIsOnce(rows: seq<Row>, changes: seq<Change>)
    ensures Applied(Applied(rows, Deleted, changes), Deleted, changes) == Applied(rows, Deleted, changes)
    decreases |rows|
  {
    if rows != [] {
      var n := |rows| - 1;
      DeleteTwiceIsOnce(rows[..n], changes);
      var last := if rows[n].pk in PksOf(changes) then [] else [rows[n]];
      DeleteKeepsOrder(Applied(rows[..n], Deleted, changes), last, changes);
      assert [rows[n]][..0] == [];
    }
  }
}
