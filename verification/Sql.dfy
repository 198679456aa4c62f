/** The SQL a Django list compiles to: conditions under three-valued logic, the cursor predicate as a
    condition, and ORDER BY with explicit NULL placement. */
module Sql {
  import opened Ordering
  import opened Cursor

  datatype Truth = Yes | No | Unknown

  /** A WHERE condition. `Everything` is the empty `Q()`; `RowCompare` compares row constructors. */
  datatype Cond =
    | Everything
    | Nothing
    | IsNull(column: string, wanted: bool)
    | Equal(column: string, value: Cell)
    | Beyond(column: string, greater: bool, value: Cell)
    | Both(left: Cond, right: Cond)
    | Either(left: Cond, right: Cond)
    | RowCompare(greater: bool, columns: seq<string>, values: seq<Cell>)

  function Of(b: bool): Truth {
    if b then Yes else No
  }

  function And(a: Truth, b: Truth): Truth {
    if a == No || b == No then No else if a == Yes && b == Yes then Yes else Unknown
  }

  function Or(a: Truth, b: Truth): Truth {
    if a == Yes || b == Yes then Yes else if a == No && b == No then No else Unknown
  }

  /** `a = b`: unknown as soon as an operand is NULL. */
  function SqlEqual(a: Cell, b: Cell): Truth {
    if a.Null? || b.Null? then Unknown else Of(a == b)
  }

  /** `a > b`, or `a < b`. */
  function SqlBeyond(greater: bool, a: Cell, b: Cell): Truth {
    if a.Null? || b.Null? then Unknown else Of(if greater then CellLess(b, a) else CellLess(a, b))
  }

  /** `(a, b, ...) > (x, y, ...)` as SQL defines it: the first columns decide, and on their equality the rest. */
  function RowBeyond(greater: bool, columns: seq<string>, values: seq<Cell>, row: Row): Truth {
    if columns == [] || values == [] then No
    else
      var cell := Read(row, columns[0]);
      Or(SqlBeyond(greater, cell, values[0]),
         And(SqlEqual(cell, values[0]), RowBeyond(greater, columns[1..], values[1..], row)))
  }

  function Eval(c: Cond, row: Row): Truth {
    match c
    case Everything => Yes
    case Nothing => No
    case IsNull(column, wanted) => Of(Read(row, column).Null? == wanted)
    case Equal(column, value) => SqlEqual(Read(row, column), value)
    case Beyond(column, greater, value) => SqlBeyond(greater, Read(row, column), value)
    case Both(left, right) => And(Eval(left, row), Eval(right, row))
    case Either(left, right) => Or(Eval(left, row), Eval(right, row))
    case RowCompare(greater, columns, values) => RowBeyond(greater, columns, values, row)
  }

  /** A query returns the rows whose condition is true; unknown drops the row like false. */
  predicate Accepts(c: Cond, row: Row) {
    Eval(c, row) == Yes
  }

  // ---- the segment form ---------------------------------------------------------------------

  /** `IS NULL` rather than `= NULL`, which is never true. */
  function EqualsCond(name: string, value: Cell): Cond {
    if value.Null? then IsNull(name, true) else Equal(name, value)
  }

  /** Whether NULLs come first as the page is read: the placement flipped by descending and by backwards. */
  predicate NullsLead(key: Key, backwards: bool, nullsFirst: bool) {
    (nullsFirst != key.descending) != backwards
  }

  function PrefixCond(keys: Keys, position: Row): Cond {
    if keys == [] then Everything
    else Both(PrefixCond(keys[..|keys| - 1], position),
              EqualsCond(keys[|keys| - 1].name, Read(position, keys[|keys| - 1].name)))
  }

  /** The rows past the anchor on one key, whose anchor has a value: SQL comparisons never match NULL, so
      NULLs ordered past the anchor are added. */
  function PastValueCond(key: Key, value: Cell, backwards: bool, nullsFirst: bool): Cond {
    var beyond := Beyond(key.name, WantsGreater(key.descending, backwards), value);
    if NullsLead(key, backwards, nullsFirst) then beyond else Either(beyond, IsNull(key.name, true))
  }

  /** The rows equal to the anchor on the keys before `i` and past it on key `i`; no segment when
      nothing lies past a NULL anchor. */
  function Segment(keys: Keys, i: nat, position: Row, backwards: bool, nullsFirst: bool): seq<Cond>
    requires i < |keys|
  {
    var key := keys[i];
    var value := Read(position, key.name);
    var prefix := PrefixCond(keys[..i], position);
    if !value.Null? then [Both(prefix, PastValueCond(key, value, backwards, nullsFirst))]
    else if NullsLead(key, backwards, nullsFirst) then [Both(prefix, IsNull(key.name, false))]
    else []
  }

  function Segments(keys: Keys, n: nat, position: Row, backwards: bool, nullsFirst: bool): seq<Cond>
    requires n <= |keys|
  {
    if n == 0 then []
    else Segments(keys, n - 1, position, backwards, nullsFirst) + Segment(keys, n - 1, position, backwards, nullsFirst)
  }

  /** The row agrees with the anchor on the keys from `lo` up to `hi`. */
  ghost predicate SameOn(keys: Keys, lo: nat, hi: nat, position: Row, row: Row)
    requires lo <= hi <= |keys|
  {
    forall j | lo <= j < hi :: Read(row, keys[j].name) == Read(position, keys[j].name)
  }

  /** The row's value of `key` lies past the anchor's as the page is read. */
  ghost predicate PastAt(key: Key, position: Row, backwards: bool, nullsFirst: bool, row: Row) {
    var order := CompareInOrder(Read(row, key.name), Read(position, key.name), key.descending, nullsFirst);
    if backwards then order < 0 else order > 0
  }

  /** Key `i` is the first on which the row differs from the anchor, and it puts the row past it. */
  ghost predicate DecidedAt(keys: Keys, i: nat, position: Row, backwards: bool, nullsFirst: bool, row: Row)
    requires i < |keys|
  {
    SameOn(keys, 0, i, position, row) && PastAt(keys[i], position, backwards, nullsFirst, row)
  }

  lemma EqualsMeaning(name: string, value: Cell, row: Row)
    ensures Accepts(EqualsCond(name, value), row) <==> Read(row, name) == value
  {
  }

  lemma {:induction false} PrefixMeaning(keys: Keys, n: nat, position: Row, row: Row)
    requires n <= |keys|
    ensures Accepts(PrefixCond(keys[..n], position), row) <==> SameOn(keys, 0, n, position, row)
  {
    if n > 0 {
      assert keys[..n][..n - 1] == keys[..n - 1];
      EqualsMeaning(keys[n - 1].name, Read(position, keys[n - 1].name), row);
      PrefixMeaning(keys, n - 1, position, row);
      assert Accepts(PrefixCond(keys[..n], position), row) <==>
             SameOn(keys, 0, n - 1, position, row) && Read(row, keys[n - 1].name) == Read(position, keys[n - 1].name);
    }
  }

  lemma PastValueMeaning(key: Key, position: Row, backwards: bool, nullsFirst: bool, row: Row)
    requires !Read(position, key.name).Null? && Comparable(Read(row, key.name), Read(position, key.name))
    ensures Accepts(PastValueCond(key, Read(position, key.name), backwards, nullsFirst), row) <==>
            PastAt(key, position, backwards, nullsFirst, row)
  {
    var a, b := Read(row, key.name), Read(position, key.name);
    if a.Text? && b.Text? {
      TextTrichotomy(a.s, b.s);
    }
    var beyond := Beyond(key.name, WantsGreater(key.descending, backwards), b);
    var orNull := Either(beyond, IsNull(key.name, true));
    assert Eval(orNull.right, row) == Of(a.Null?);
    assert Accepts(orNull, row) <==> Accepts(beyond, row) || a.Null?;
  }

  lemma SegmentMeaning(schema: Schema, keys: Keys, i: nat, position: Row, backwards: bool, nullsFirst: bool, row: Row)
    requires i < |keys| && Typed(schema, keys, row) && Typed(schema, keys, position)
    ensures var segment := Segment(keys, i, position, backwards, nullsFirst);
            (exists c | c in segment :: Accepts(c, row)) <==> DecidedAt(keys, i, position, backwards, nullsFirst, row)
  {
    var key := keys[i];
    PrefixMeaning(keys, i, position, row);
    TypedComparable(schema, keys, row, position, i);
    var segment := Segment(keys, i, position, backwards, nullsFirst);
    if !Read(position, key.name).Null? {
      PastValueMeaning(key, position, backwards, nullsFirst, row);
    }
    if segment != [] {
      assert Accepts(segment[0].right, row) <==> PastAt(key, position, backwards, nullsFirst, row);
      assert Accepts(segment[0], row) <==> Accepts(segment[0].left, row) && Accepts(segment[0].right, row);
      assert segment[0] in segment;
    }
  }

  lemma {:induction false} SegmentsMeaning(
    schema: Schema, keys: Keys, n: nat, position: Row, backwards: bool, nullsFirst: bool, row: Row)
    requires n <= |keys| && Typed(schema, keys, row) && Typed(schema, keys, position)
    ensures var segments := Segments(keys, n, position, backwards, nullsFirst);
            (exists c | c in segments :: Accepts(c, row)) <==>
            exists i: nat | i < n :: DecidedAt(keys, i, position, backwards, nullsFirst, row)
  {
    if n > 0 {
      SegmentsMeaning(schema, keys, n - 1, position, backwards, nullsFirst, row);
      SegmentMeaning(schema, keys, n - 1, position, backwards, nullsFirst, row);
      var before := Segments(keys, n - 1, position, backwards, nullsFirst);
      var last := Segment(keys, n - 1, position, backwards, nullsFirst);
      var segments := Segments(keys, n, position, backwards, nullsFirst);
      assert forall c :: c in segments <==> c in before || c in last;
    }
  }

  /** The union of the conditions. */
  function AnyOf(conds: seq<Cond>): Cond
    requires conds != []
  {
    if |conds| == 1 then conds[0] else Either(AnyOf(conds[..|conds| - 1]), conds[|conds| - 1])
  }

  lemma {:induction false} AnyOfMeaning(conds: seq<Cond>, row: Row)
    requires conds != []
    ensures Accepts(AnyOf(conds), row) <==> exists c | c in conds :: Accepts(c, row)
  {
    if |conds| == 1 {
      assert forall c :: c in conds <==> c == conds[0];
    } else {
      var init, last := conds[..|conds| - 1], conds[|conds| - 1];
      AnyOfMeaning(init, row);
      assert conds == init + [last];
      assert Accepts(AnyOf(conds), row) <==> Accepts(AnyOf(init), row) || Accepts(last, row);
      assert last in conds;
      assert forall c :: c in conds <==> c in init || c == last;
    }
  }

  /** `Matches` from key `n` on, spelled out: some key decides, or all are equal and the read is inclusive. */
  lemma {:induction false} MatchesMeaning(
    schema: Schema, keys: Keys, n: nat, position: Row, backwards: bool, inclusive: bool, nullsFirst: bool, row: Row)
    requires n <= |keys| && Typed(schema, keys, row) && Typed(schema, keys, position)
    ensures Matches(keys[n..], position, backwards, inclusive, nullsFirst, row) <==>
            || (exists i: nat | n <= i < |keys| ::
                 SameOn(keys, n, i, position, row) && PastAt(keys[i], position, backwards, nullsFirst, row))
            || (inclusive && SameOn(keys, n, |keys|, position, row))
    decreases |keys| - n
  {
    if n < |keys| {
      assert keys[n..][1..] == keys[n + 1..];
      MatchesMeaning(schema, keys, n + 1, position, backwards, inclusive, nullsFirst, row);
      TypedComparable(schema, keys, row, position, n);
      CellZero(Read(row, keys[n].name), Read(position, keys[n].name), keys[n].descending, nullsFirst);
      if Read(row, keys[n].name) == Read(position, keys[n].name) {
        assert forall i: nat | n + 1 <= i <= |keys| ::
            SameOn(keys, n, i, position, row) <==> SameOn(keys, n + 1, i, position, row);
      } else {
        assert SameOn(keys, n, n, position, row);
        assert forall i: nat | n + 1 <= i <= |keys| :: !SameOn(keys, n, i, position, row);
      }
    }
  }

  /** The segments, and the anchor's own condition when the read is inclusive. */
  function AllSegments(keys: Keys, position: Row, backwards: bool, inclusive: bool, nullsFirst: bool): seq<Cond> {
    Segments(keys, |keys|, position, backwards, nullsFirst) + if inclusive then [PrefixCond(keys, position)] else []
  }

  lemma SegmentUnion(
    schema: Schema, keys: Keys, position: Row, backwards: bool, inclusive: bool, nullsFirst: bool, row: Row)
    requires Typed(schema, keys, row) && Typed(schema, keys, position)
    ensures (exists c | c in AllSegments(keys, position, backwards, inclusive, nullsFirst) :: Accepts(c, row)) <==>
            Matches(keys, position, backwards, inclusive, nullsFirst, row)
  {
    assert keys[0..] == keys == keys[..|keys|];
    MatchesMeaning(schema, keys, 0, position, backwards, inclusive, nullsFirst, row);
    SegmentsMeaning(schema, keys, |keys|, position, backwards, nullsFirst, row);
    assert forall i: nat | i < |keys| :: DecidedAt(keys, i, position, backwards, nullsFirst, row) <==>
        SameOn(keys, 0, i, position, row) && PastAt(keys[i], position, backwards, nullsFirst, row);
    PrefixMeaning(keys, |keys|, position, row);
    var past := Segments(keys, |keys|, position, backwards, nullsFirst);
    var all := AllSegments(keys, position, backwards, inclusive, nullsFirst);
    assert forall c :: c in all <==> c in past || (inclusive && c == PrefixCond(keys, position));
  }

  /** Equality on the first `n` keys. */
  method EqualOn(keys: Keys, n: nat, position: Row) returns (c: Cond)
    requires n <= |keys|
    ensures c == PrefixCond(keys[..n], position) && (c.Both? || c.Everything?)
  {
    c := Everything;
    for i := 0 to n
      invariant c == PrefixCond(keys[..i], position) && (c.Both? || c.Everything?)
    {
      assert keys[..i + 1][..i] == keys[..i];
      c := Both(c, EqualsCond(keys[i].name, Read(position, keys[i].name)));
    }
  }

  /** One segment per key whose anchor something lies past, and the anchor itself when inclusive. */
  method SegmentList(keys: Keys, position: Row, backwards: bool, inclusive: bool, nullsFirst: bool)
    returns (segments: seq<Cond>)
    ensures segments == AllSegments(keys, position, backwards, inclusive, nullsFirst)
    ensures forall s | s in segments :: !s.RowCompare?
  {
    segments := [];
    for index := 0 to |keys|
      invariant segments == Segments(keys, index, position, backwards, nullsFirst)
      invariant forall s | s in segments :: !s.RowCompare?
    {
      var segment := EqualOn(keys, index, position);
      var key := keys[index];
      var value := Read(position, key.name);
      var greater := WantsGreater(key.descending, backwards);
      var nullsLead := NullsLead(key, backwards, nullsFirst);
      if value.Null? {
        if !nullsLead {
          continue;
        }
        segment := Both(segment, IsNull(key.name, false));
      } else {
        var beyond := Beyond(key.name, greater, value);
        segment := Both(segment, if nullsLead then beyond else Either(beyond, IsNull(key.name, true)));
      }
      segments := segments + [segment];
    }
    if inclusive {
      var anchor := EqualOn(keys, |keys|, position);
      assert keys[..|keys|] == keys;
      segments := segments + [anchor];
    }
  }

  /** The union of segments, accepting exactly the rows the cursor predicate matches, whatever the
      directions, the NULL placement and the NULLs of the anchor. */
  method SegmentCondition(
    ghost schema: Schema, keys: Keys, position: Row, backwards: bool, inclusive: bool, nullsFirst: bool)
    returns (c: Cond)
    requires Typed(schema, keys, position)
    ensures !c.RowCompare?
    ensures forall row | Typed(schema, keys, row) ::
      Accepts(c, row) <==> Matches(keys, position, backwards, inclusive, nullsFirst, row)
  {
    var segments := SegmentList(keys, position, backwards, inclusive, nullsFirst);
    c := Union(segments);
    forall row | Typed(schema, keys, row)
      ensures Accepts(c, row) <==> Matches(keys, position, backwards, inclusive, nullsFirst, row)
    {
      SegmentUnion(schema, keys, position, backwards, inclusive, nullsFirst, row);
    }
  }

  /** The segments combined with OR; no segment is the condition nothing meets. */
  method Union(segments: seq<Cond>) returns (c: Cond)
    requires forall s | s in segments :: !s.RowCompare?
    ensures !c.RowCompare?
    ensures forall row :: Accepts(c, row) <==> exists s | s in segments :: Accepts(s, row)
  {
    if segments == [] {
      return Nothing;
    }
    c := segments[0];
    for i := 1 to |segments|
      invariant c == AnyOf(segments[..i]) && !c.RowCompare?
    {
      assert segments[..i + 1][..i] == segments[..i];
      c := Either(c, segments[i]);
    }
    assert segments[..|segments|] == segments;
    forall row
      ensures Accepts(c, row) <==> exists s | s in segments :: Accepts(s, row)
    {
      AnyOfMeaning(segments, row);
    }
  }

  // ---- the row-value form ---------------------------------------------------------------------

  function Columns(keys: Keys): (r: seq<string>)
    ensures |r| == |keys|
  {
    if keys == [] then [] else [keys[0].name] + Columns(keys[1..])
  }

  function Values(keys: Keys, position: Row): (r: seq<Cell>)
    ensures |r| == |keys|
  {
    if keys == [] then [] else [Read(position, keys[0].name)] + Values(keys[1..], position)
  }

  function RowValueCondition(keys: Keys, position: Row, backwards: bool): Cond
    requires keys != []
  {
    RowCompare(WantsGreater(keys[0].descending, backwards), Columns(keys), Values(keys, position))
  }

  predicate Uniform(keys: Keys) {
    keys != [] && forall k | k in keys :: k.descending == keys[0].descending
  }

  /** The first key whose anchor is NULL reads its NULLs first, so rows of that key's values lie past it. */
  predicate LeadingNullAnchor(keys: Keys, position: Row, backwards: bool, nullsFirst: bool) {
    keys != [] &&
    if Read(position, keys[0].name).Null? then NullsLead(keys[0], backwards, nullsFirst)
    else LeadingNullAnchor(keys[1..], position, backwards, nullsFirst)
  }

  /** The row has a value for every key. */
  ghost predicate Filled(keys: Keys, row: Row) {
    forall k | k in keys :: !Read(row, k.name).Null?
  }

  lemma {:induction false} RowValueMeaning(
    schema: Schema, keys: Keys, descending: bool, position: Row, backwards: bool, nullsFirst: bool, row: Row)
    requires forall k | k in keys :: k.descending == descending
    requires Typed(schema, keys, row) && Typed(schema, keys, position) && Filled(keys, row)
    requires !LeadingNullAnchor(keys, position, backwards, nullsFirst)
    ensures RowBeyond(WantsGreater(descending, backwards), Columns(keys), Values(keys, position), row) == Yes <==>
            Matches(keys, position, backwards, false, nullsFirst, row)
  {
    if keys != [] {
      assert keys[0] in keys;
      TypedComparable(schema, keys, row, position, 0);
      var a, b := Read(row, keys[0].name), Read(position, keys[0].name);
      CellZero(a, b, descending, nullsFirst);
      CellAntisymmetric(a, b, descending, nullsFirst);
      if !b.Null? {
        RowValueMeaning(schema, keys[1..], descending, position, backwards, nullsFirst, row);
      }
    }
  }

  /** A row with the anchor's values, and some value where the anchor is NULL. */
  ghost function Completed(schema: Schema, keys: Keys, position: Row): Row {
    map name | name in Names(keys) ::
      if !Read(position, name).Null? then Read(position, name)
      else if schema(name) == NumKind then Num(0) else Text("")
  }

  /** On a NULL of the anchor that reads NULLs first, a row with a value is past it and no row value is. */
  lemma NullHere(rest: Keys, position: Row, greater: bool, backwards: bool, nullsFirst: bool, row: Row)
    requires rest != [] && Read(position, rest[0].name).Null? && NullsLead(rest[0], backwards, nullsFirst)
    requires !Read(row, rest[0].name).Null?
    ensures Matches(rest, position, backwards, false, nullsFirst, row)
    ensures RowBeyond(greater, Columns(rest), Values(rest, position), row) != Yes
  {
  }

  /** On a value the row shares with the anchor, both forms leave it to the keys after. */
  lemma SameHere(rest: Keys, position: Row, greater: bool, backwards: bool, nullsFirst: bool, row: Row)
    requires rest != [] && !Read(position, rest[0].name).Null? && Read(row, rest[0].name) == Read(position, rest[0].name)
    ensures Matches(rest, position, backwards, false, nullsFirst, row) ==
            Matches(rest[1..], position, backwards, false, nullsFirst, row)
    ensures RowBeyond(greater, Columns(rest), Values(rest, position), row) ==
            RowBeyond(greater, Columns(rest[1..]), Values(rest[1..], position), row)
  {
    var b := Read(position, rest[0].name);
    CellZero(b, b, rest[0].descending, nullsFirst);
    if b.Text? {
      TextTrichotomy(b.s, b.s);
    }
  }

  lemma CompletedAt(schema: Schema, keys: Keys, position: Row, key: Key)
    requires key in keys
    ensures var a, b := Read(Completed(schema, keys, position), key.name), Read(position, key.name);
            !a.Null? && (!b.Null? ==> a == b)
  {
    assert key.name in Names(keys);
  }

  lemma {:induction false} LeadingNullMeaning(
    schema: Schema, keys: Keys, rest: Keys, position: Row, greater: bool, backwards: bool, nullsFirst: bool)
    requires LeadingNullAnchor(rest, position, backwards, nullsFirst)
    requires forall k | k in rest :: k in keys
    ensures var row := Completed(schema, keys, position);
            Matches(rest, position, backwards, false, nullsFirst, row) &&
            RowBeyond(greater, Columns(rest), Values(rest, position), row) != Yes
  {
    var row := Completed(schema, keys, position);
    assert rest[0] in keys;
    CompletedAt(schema, keys, position, rest[0]);
    if Read(position, rest[0].name).Null? {
      NullHere(rest, position, greater, backwards, nullsFirst, row);
    } else {
      SameHere(rest, position, greater, backwards, nullsFirst, row);
      LeadingNullMeaning(schema, keys, rest[1..], position, greater, backwards, nullsFirst);
    }
  }

  /** The row-value form selects the rows the cursor predicate does, over every row its columns can hold. */
  ghost predicate RowValueAgrees(schema: Schema, keys: Keys, position: Row, backwards: bool, nullsFirst: bool)
    requires keys != []
  {
    forall row | Typed(schema, keys, row) && Filled(keys, row) ::
      Accepts(RowValueCondition(keys, position, backwards), row) <==>
      Matches(keys, position, backwards, false, nullsFirst, row)
  }

  lemma LeadingNullDropsRow(schema: Schema, keys: Keys, position: Row, backwards: bool, nullsFirst: bool)
    requires keys != [] && Typed(schema, keys, position)
    requires LeadingNullAnchor(keys, position, backwards, nullsFirst)
    ensures !RowValueAgrees(schema, keys, position, backwards, nullsFirst)
  {
    var row := Completed(schema, keys, position);
    LeadingNullMeaning(schema, keys, keys, position, WantsGreater(keys[0].descending, backwards), backwards, nullsFirst);
    forall k | k in keys
      ensures OfKind(Read(row, k.name), schema(k.name)) && !Read(row, k.name).Null?
    {
      assert k.name in Names(keys);
    }
    assert !Accepts(RowValueCondition(keys, position, backwards), row);
  }

  /** The row-value form is right unless the anchor carries a NULL whose column reads NULLs first; then
      it drops rows that lie past the anchor. */
  lemma RowValueAgreesExactly(schema: Schema, keys: Keys, position: Row, backwards: bool, nullsFirst: bool)
    requires Uniform(keys) && Typed(schema, keys, position)
    ensures RowValueAgrees(schema, keys, position, backwards, nullsFirst) <==>
            !LeadingNullAnchor(keys, position, backwards, nullsFirst)
  {
    if LeadingNullAnchor(keys, position, backwards, nullsFirst) {
      LeadingNullDropsRow(schema, keys, position, backwards, nullsFirst);
    } else {
      forall row | Typed(schema, keys, row) && Filled(keys, row)
        ensures Accepts(RowValueCondition(keys, position, backwards), row) <==>
                Matches(keys, position, backwards, false, nullsFirst, row)
      {
        RowValueMeaning(schema, keys, keys[0].descending, position, backwards, nullsFirst, row);
      }
    }
  }

  /** An anchor taken from a row of the table never leads with a NULL in a column that has none. */
  lemma {:induction false} RowAnchorsDoNotLead(keys: Keys, position: Row, backwards: bool, nullsFirst: bool)
    requires Filled(keys, position)
    ensures !LeadingNullAnchor(keys, position, backwards, nullsFirst)
  {
    if keys != [] {
      assert keys[0] in keys;
      RowAnchorsDoNotLead(keys[1..], position, backwards, nullsFirst);
    }
  }

  predicate RowValueChosen(keys: Keys, inclusive: bool, nullable: set<string>) {
    Uniform(keys) && !inclusive && forall k | k in keys :: k.name !in nullable
  }

  /** A row the model's columns can hold: NULL only where the column allows it. */
  ghost predicate Storable(schema: Schema, keys: Keys, nullable: set<string>, row: Row) {
    Typed(schema, keys, row) && forall k | k in keys && k.name !in nullable :: !Read(row, k.name).Null?
  }

  /** "Everything past this row" as SQL: row values when the keys share a direction and none is
      nullable, segments otherwise. */
  method CursorCondition(
    ghost schema: Schema, keys: Keys, position: Row, backwards: bool, inclusive: bool, nullsFirst: bool,
    nullable: set<string>)
    returns (c: Cond)
    requires Typed(schema, keys, position)
    ensures RowValueChosen(keys, inclusive, nullable) <==> c.RowCompare?
    ensures c.RowCompare? ==> c == RowValueCondition(keys, position, backwards)
    ensures (RowValueChosen(keys, inclusive, nullable) ==> !LeadingNullAnchor(keys, position, backwards, nullsFirst)) <==>
      forall row | Storable(schema, keys, nullable, row) ::
        Accepts(c, row) <==> Matches(keys, position, backwards, inclusive, nullsFirst, row)
  {
    if Uniform(keys) && !inclusive && forall k | k in keys :: k.name !in nullable {
      c := RowValueCondition(keys, position, backwards);
      RowValueAgreesExactly(schema, keys, position, backwards, nullsFirst);
      assert forall row :: Storable(schema, keys, nullable, row) <==> Typed(schema, keys, row) && Filled(keys, row);
    } else {
      c := SegmentCondition(schema, keys, position, backwards, inclusive, nullsFirst);
    }
  }

  // ---- ORDER BY ---------------------------------------------------------------------------------

  /** One ORDER BY term. `nullsFirst` is the literal `NULLS FIRST`, whatever the direction. */
  datatype OrderTerm = OrderTerm(column: string, descending: bool, nullsFirst: bool)

  function TermOrder(term: OrderTerm, a: Row, b: Row): int {
    var x, y := Read(a, term.column), Read(b, term.column);
    if x.Null? && y.Null? then 0
    else if x.Null? then (if term.nullsFirst then -1 else 1)
    else if y.Null? then (if term.nullsFirst then 1 else -1)
    else if x == y then 0
    else if CellLess(x, y) != term.descending then -1 else 1
  }

  function SqlOrder(terms: seq<OrderTerm>, a: Row, b: Row): int {
    if terms == [] then 0
    else if TermOrder(terms[0], a, b) != 0 then TermOrder(terms[0], a, b)
    else SqlOrder(terms[1..], a, b)
  }

  function Terms(sort: Keys, nullsFirst: bool): (r: seq<OrderTerm>)
    ensures |r| == |sort|
  {
    if sort == [] then []
    else [OrderTerm(sort[0].name, sort[0].descending, nullsFirst != sort[0].descending)] + Terms(sort[1..], nullsFirst)
  }

  lemma {:induction false} TermsOrder(schema: Schema, sort: Keys, nullsFirst: bool, a: Row, b: Row)
    requires Typed(schema, sort, a) && Typed(schema, sort, b)
    ensures SqlOrder(Terms(sort, nullsFirst), a, b) == CompareRows(sort, a, b, nullsFirst)
  {
    if sort != [] {
      var x, y := Read(a, sort[0].name), Read(b, sort[0].name);
      TypedComparable(schema, sort, a, b, 0);
      CellZero(x, y, sort[0].descending, nullsFirst);
      if x.Text? && y.Text? {
        TextTrichotomy(x.s, y.s);
      }
      TermsOrder(schema, sort[1..], nullsFirst, a, b);
    }
  }

  lemma {:induction false} TermsAppend(sort: Keys, key: Key, nullsFirst: bool)
    ensures Terms(sort + [key], nullsFirst) ==
            Terms(sort, nullsFirst) + [OrderTerm(key.name, key.descending, nullsFirst != key.descending)]
  {
    if sort != [] {
      assert (sort + [key])[1..] == sort[1..] + [key];
      TermsAppend(sort[1..], key, nullsFirst);
    }
  }

  /** The ORDER BY of a sort orders any two rows as the in-memory comparison does. */
  method ApplySort(ghost schema: Schema, sort: Keys, nullsFirst: bool) returns (ordering: seq<OrderTerm>)
    ensures forall a, b | Typed(schema, sort, a) && Typed(schema, sort, b) ::
      SqlOrder(ordering, a, b) == CompareRows(sort, a, b, nullsFirst)
  {
    ordering := [];
    for i := 0 to |sort|
      invariant ordering == Terms(sort[..i], nullsFirst)
    {
      var first := nullsFirst != sort[i].descending;
      ordering := ordering + [OrderTerm(sort[i].name, sort[i].descending, first)];
      TermsAppend(sort[..i], sort[i], nullsFirst);
      assert sort[..i + 1] == sort[..i] + [sort[i]];
    }
    assert sort[..|sort|] == sort;
    forall a, b | Typed(schema, sort, a) && Typed(schema, sort, b)
      ensures SqlOrder(ordering, a, b) == CompareRows(sort, a, b, nullsFirst)
    {
      TermsOrder(schema, sort, nullsFirst, a, b);
    }
  }
}
