/** The list pipeline's stages over rows: filter, stable sort and the page cut. */
module ListStages {
  import opened Basics
  import opened Ordering
  import opened Cursor

  // ---- filter -------------------------------------------------------------------------------

  function Filter(rows: seq<Row>, keep: Row -> bool): (r: seq<Row>)
    ensures forall x :: x in r <==> x in rows && keep(x)
    ensures |r| <= |rows|
  {
    if rows == [] then []
    else if keep(rows[0]) then [rows[0]] + Filter(rows[1..], keep)
    else Filter(rows[1..], keep)
  }

  lemma {:induction false} FilterAppend(a: seq<Row>, b: seq<Row>, keep: Row -> bool)
    ensures Filter(a + b, keep) == Filter(a, keep) + Filter(b, keep)
  {
    if a == [] {
      assert a + b == b;
    } else {
      assert (a + b)[1..] == a[1..] + b;
      FilterAppend(a[1..], b, keep);
    }
  }

  lemma {:induction false} FilterAll(rows: seq<Row>, keep: Row -> bool)
    requires forall x | x in rows :: keep(x)
    ensures Filter(rows, keep) == rows
  {
    if rows != [] {
      FilterAll(rows[1..], keep);
    }
  }

  lemma {:induction false} FilterNone(rows: seq<Row>, keep: Row -> bool)
    requires forall x | x in rows :: !keep(x)
    ensures Filter(rows, keep) == []
  {
    if rows != [] {
      FilterNone(rows[1..], keep);
    }
  }

  // ---- sort ---------------------------------------------------------------------------------

  function Insert(keys: Keys, nullsFirst: bool, x: Row, sorted: seq<Row>): (r: seq<Row>)
    ensures forall y :: y in r <==> y == x || y in sorted
    ensures |r| == |sorted| + 1
  {
    if sorted == [] then [x]
    else if CompareRows(keys, x, sorted[0], nullsFirst) <= 0 then [x] + sorted
    else [sorted[0]] + Insert(keys, nullsFirst, x, sorted[1..])
  }

  /** The stable sort `sort_list` runs. */
  function SortRows(keys: Keys, nullsFirst: bool, rows: seq<Row>): (r: seq<Row>)
    ensures forall y :: y in r <==> y in rows
    ensures |r| == |rows|
  {
    if rows == [] then [] else Insert(keys, nullsFirst, rows[0], SortRows(keys, nullsFirst, rows[1..]))
  }

  ghost predicate AllTyped(schema: Schema, keys: Keys, rows: seq<Row>) {
    forall r | r in rows :: Typed(schema, keys, r)
  }

  ghost predicate Sorted(keys: Keys, nullsFirst: bool, rows: seq<Row>) {
    forall i, j | 0 <= i < j < |rows| :: CompareRows(keys, rows[i], rows[j], nullsFirst) <= 0
  }

  ghost predicate StrictlySorted(keys: Keys, nullsFirst: bool, rows: seq<Row>) {
    forall i, j | 0 <= i < j < |rows| :: CompareRows(keys, rows[i], rows[j], nullsFirst) < 0
  }

  lemma ConsSorted(keys: Keys, nullsFirst: bool, x: Row, rows: seq<Row>)
    requires Sorted(keys, nullsFirst, rows)
    requires forall y | y in rows :: CompareRows(keys, x, y, nullsFirst) <= 0
    ensures Sorted(keys, nullsFirst, [x] + rows)
  {
    var all := [x] + rows;
    forall i, j | 0 <= i < j < |all|
      ensures CompareRows(keys, all[i], all[j], nullsFirst) <= 0
    {
      assert all[j] == rows[j - 1] && all[j] in rows;
      if i > 0 {
        assert all[i] == rows[i - 1];
      }
    }
  }

  lemma TailSorted(keys: Keys, nullsFirst: bool, rows: seq<Row>)
    requires rows != [] && Sorted(keys, nullsFirst, rows)
    ensures Sorted(keys, nullsFirst, rows[1..])
    ensures forall y | y in rows[1..] :: CompareRows(keys, rows[0], y, nullsFirst) <= 0
  {
    forall i | 0 <= i < |rows| - 1
      ensures rows[1..][i] == rows[i + 1]
    {
    }
  }

  lemma {:induction false} InsertSorted(schema: Schema, keys: Keys, nullsFirst: bool, x: Row, sorted: seq<Row>)
    requires Typed(schema, keys, x) && AllTyped(schema, keys, sorted) && Sorted(keys, nullsFirst, sorted)
    ensures Sorted(keys, nullsFirst, Insert(keys, nullsFirst, x, sorted))
  {
    if sorted != [] {
      TailSorted(keys, nullsFirst, sorted);
      if CompareRows(keys, x, sorted[0], nullsFirst) <= 0 {
        forall y | y in sorted
          ensures CompareRows(keys, x, y, nullsFirst) <= 0
        {
          if y in sorted[1..] {
            RowsTransitive(schema, keys, x, sorted[0], y, nullsFirst);
          }
        }
        ConsSorted(keys, nullsFirst, x, sorted);
      } else {
        InsertSorted(schema, keys, nullsFirst, x, sorted[1..]);
        RowsAntisymmetric(keys, x, sorted[0], nullsFirst);
        ConsSorted(keys, nullsFirst, sorted[0], Insert(keys, nullsFirst, x, sorted[1..]));
      }
    }
  }

  lemma {:induction false} SortIsSorted(schema: Schema, keys: Keys, nullsFirst: bool, rows: seq<Row>)
    requires AllTyped(schema, keys, rows)
    ensures Sorted(keys, nullsFirst, SortRows(keys, nullsFirst, rows))
  {
    if rows != [] {
      SortIsSorted(schema, keys, nullsFirst, rows[1..]);
      InsertSorted(schema, keys, nullsFirst, rows[0], SortRows(keys, nullsFirst, rows[1..]));
    }
  }

  /** The rows with the key tuple of `x`, in their order. */
  function TiesOf(keys: Keys, nullsFirst: bool, x: Row, rows: seq<Row>): seq<Row> {
    Filter(rows, (r: Row) => CompareRows(keys, r, x, nullsFirst) == 0)
  }

  lemma {:induction false} InsertTies(
    schema: Schema, keys: Keys, nullsFirst: bool, y: Row, sorted: seq<Row>, x: Row)
    requires Typed(schema, keys, x) && Typed(schema, keys, y) && AllTyped(schema, keys, sorted)
    ensures TiesOf(keys, nullsFirst, x, Insert(keys, nullsFirst, y, sorted)) ==
            TiesOf(keys, nullsFirst, x, [y] + sorted)
  {
    if sorted != [] && CompareRows(keys, y, sorted[0], nullsFirst) > 0 {
      var head, tail := sorted[0], sorted[1..];
      InsertTies(schema, keys, nullsFirst, y, tail, x);
      var keep := (r: Row) => CompareRows(keys, r, x, nullsFirst) == 0;
      RowsZero(schema, keys, y, x, nullsFirst);
      RowsZero(schema, keys, head, x, nullsFirst);
      RowsZero(schema, keys, y, head, nullsFirst);
      assert !(keep(y) && keep(head));
      FilterAppend([head], Insert(keys, nullsFirst, y, tail), keep);
      FilterAppend([y], tail, keep);
      FilterAppend([y], sorted, keep);
      FilterAppend([head], tail, keep);
      assert sorted == [head] + tail;
    }
  }

  /** The sort is stable: rows with one key tuple keep their order, and none is lost or repeated. */
  lemma {:induction false} SortIsStable(schema: Schema, keys: Keys, nullsFirst: bool, rows: seq<Row>, x: Row)
    requires AllTyped(schema, keys, rows) && Typed(schema, keys, x)
    ensures TiesOf(keys, nullsFirst, x, SortRows(keys, nullsFirst, rows)) == TiesOf(keys, nullsFirst, x, rows)
  {
    if rows != [] {
      var rest := SortRows(keys, nullsFirst, rows[1..]);
      SortIsStable(schema, keys, nullsFirst, rows[1..], x);
      InsertTies(schema, keys, nullsFirst, rows[0], rest, x);
      assert rows == [rows[0]] + rows[1..];
      var keep := (r: Row) => CompareRows(keys, r, x, nullsFirst) == 0;
      FilterAppend([rows[0]], rest, keep);
      FilterAppend([rows[0]], rows[1..], keep);
    }
  }

  /** The first row of a strictly sorted sequence comes before all others and appears once. */
  lemma StrictHead(keys: Keys, nullsFirst: bool, rows: seq<Row>)
    requires rows != [] && StrictlySorted(keys, nullsFirst, rows)
    ensures StrictlySorted(keys, nullsFirst, rows[1..])
    ensures forall r | r in rows[1..] :: CompareRows(keys, rows[0], r, nullsFirst) < 0
    ensures rows[0] !in rows[1..]
    ensures forall r :: r in rows[1..] <==> r in rows && r != rows[0]
  {
    RowsAntisymmetric(keys, rows[0], rows[0], nullsFirst);
    forall i | 0 <= i < |rows| - 1
      ensures rows[1..][i] == rows[i + 1]
    {
    }
    assert rows == [rows[0]] + rows[1..];
  }

  lemma Inhabited(rows: seq<Row>)
    ensures rows == [] || exists r :: r in rows
  {
    if rows != [] {
      assert rows[0] in rows;
    }
  }

  /** Two strictly sorted sequences of the same rows are equal: where no two rows tie, any ORDER BY of the
      same order returns what the in-memory sort does. */
  lemma {:induction false} StrictOrderIsUnique(keys: Keys, nullsFirst: bool, a: seq<Row>, b: seq<Row>)
    requires StrictlySorted(keys, nullsFirst, a) && StrictlySorted(keys, nullsFirst, b)
    requires forall r :: r in a <==> r in b
    ensures a == b
  {
    if a == [] {
      Inhabited(b);
    } else {
      assert a[0] in b;
      StrictHead(keys, nullsFirst, a);
      StrictHead(keys, nullsFirst, b);
      assert b[0] in a;
      RowsAntisymmetric(keys, a[0], b[0], nullsFirst);
      assert a[0] == b[0];
      StrictOrderIsUnique(keys, nullsFirst, a[1..], b[1..]);
      assert a == [a[0]] + a[1..] && b == [b[0]] + b[1..];
    }
  }

  // ---- the page cut ---------------------------------------------------------------------------

  /** At most `limit` rows past `offset`. */
  function Slice(rows: seq<Row>, offset: nat, limit: nat): seq<Row> {
    rows[Min(offset, |rows|)..Min(offset + limit, |rows|)]
  }

  /** The page of a list by slicing one row beyond it, as LIMIT/OFFSET does in SQL. */
  method TakePageOfList(records: seq<Row>, offset: nat, limit: nat) returns (page: seq<Row>, hasMore: bool)
    ensures page == Slice(records, offset, limit)
    ensures |page| == Max(0, Min(limit, |records| - offset)) && forall i | 0 <= i < |page| :: page[i] == records[offset + i]
    ensures hasMore <==> |records| > offset + limit
  {
    var rows := records[Min(offset, |records|)..Min(offset + limit + 1, |records|)];
    page := rows[..Min(limit, |rows|)];
    hasMore := |rows| > limit;
  }

  lemma OneMoreRow(records: seq<Row>, from: nat, to: nat)
    requires from <= to < |records|
    ensures records[from..to] + [records[to]] == records[from..to + 1]
  {
  }

  /** The page of a lazy source, read one record at a time; `consumed` counts the records taken from it. */
  method TakePageLazily(records: seq<Row>, offset: nat, limit: nat)
    returns (page: seq<Row>, hasMore: bool, consumed: nat)
    ensures page == Slice(records, offset, limit)
    ensures |page| == Max(0, Min(limit, |records| - offset)) && forall i | 0 <= i < |page| :: page[i] == records[offset + i]
    ensures hasMore <==> |records| > offset + limit
    ensures consumed == Min(|records|, offset + limit + 1)
  {
    page, hasMore, consumed := [], false, 0;
    var index := 0;
    while consumed < |records|
      invariant 0 <= consumed <= |records| && consumed <= offset + limit
      invariant index == consumed && !hasMore
      invariant page == records[Min(offset, consumed)..consumed]
    {
      var record := records[consumed];
      consumed := consumed + 1;
      if index < offset {
        index := index + 1;
        continue;
      }
      if |page| == limit {
        hasMore := true;
        break;
      }
      OneMoreRow(records, offset, consumed - 1);
      page := page + [record];
      index := index + 1;
    }
  }
}
