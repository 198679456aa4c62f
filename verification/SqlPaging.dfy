/** The cursor page read in SQL: WHERE the compiled cursor condition, ORDER BY the directed keys, LIMIT one
    row more than the page. */
module SqlPaging {
  import opened Basics
  import opened Ordering
  import opened Cursor
  import opened ListStages
  import opened CursorPaging
  import opened Sql

  /** What the database may answer: the accepted rows, each once, in an order the ORDER BY allows. */
  ghost predicate QueryAnswer(where: Cond, orderBy: seq<OrderTerm>, rows: seq<Row>, answer: seq<Row>) {
    && (forall r :: r in answer <==> r in rows && Accepts(where, r))
    && (forall i, j | 0 <= i < j < |answer| :: answer[i] != answer[j])
    && (forall i, j | 0 <= i < j < |answer| :: SqlOrder(orderBy, answer[i], answer[j]) <= 0)
  }

  ghost predicate AllStorable(schema: Schema, keys: Keys, nullable: set<string>, rows: seq<Row>) {
    forall r | r in rows :: Storable(schema, keys, nullable, r)
  }

  ghost predicate OrdersAs(schema: Schema, orderBy: seq<OrderTerm>, keys: Keys, nullsFirst: bool) {
    forall a, b | Typed(schema, keys, a) && Typed(schema, keys, b) ::
      SqlOrder(orderBy, a, b) == CompareRows(keys, a, b, nullsFirst)
  }

  /** Where the condition accepts what the cursor selects, the database's answer is the in-memory one. */
  lemma AnswerIsSorted(
    schema: Schema, keys: Keys, pk: string, nullsFirst: bool, cursor: Option<CursorState>, rows: seq<Row>,
    where: Cond, orderBy: seq<OrderTerm>, answer: seq<Row>)
    requires Table(schema, keys, pk, rows)
    requires forall r | r in rows :: Accepts(where, r) <==> Selects(keys, nullsFirst, cursor, r)
    requires OrdersAs(schema, orderBy, Directed(keys, Backwards(cursor)), nullsFirst)
    requires QueryAnswer(where, orderBy, rows, answer)
    ensures answer == SortRows(Directed(keys, Backwards(cursor)), nullsFirst, Selected(keys, nullsFirst, cursor, rows))
  {
    var directed := Directed(keys, Backwards(cursor));
    var keep := (r: Row) => Selects(keys, nullsFirst, cursor, r);
    var kept := Filter(rows, keep);
    FilterTable(schema, keys, pk, rows, keep);
    if Backwards(cursor) {
      FlipTable(schema, keys, pk, kept);
    }
    SortIsStrict(schema, directed, pk, nullsFirst, kept);
    forall i, j | 0 <= i < j < |answer|
      ensures CompareRows(directed, answer[i], answer[j], nullsFirst) < 0
    {
      assert answer[i] in kept && answer[j] in kept;
      DistinctDiffer(schema, directed, pk, kept, answer[i], answer[j], nullsFirst);
    }
    StrictOrderIsUnique(directed, nullsFirst, answer, SortRows(directed, nullsFirst, kept));
  }

  lemma DistinctDiffer(
    schema: Schema, keys: Keys, pk: string, rows: seq<Row>, a: Row, b: Row, nullsFirst: bool)
    requires Table(schema, keys, pk, rows) && a in rows && b in rows && a != b
    ensures CompareRows(keys, a, b, nullsFirst) != 0
  {
    var i :| 0 <= i < |rows| && rows[i] == a;
    var j :| 0 <= j < |rows| && rows[j] == b;
    assert Read(a, pk) != Read(b, pk) by {
      if i < j {
      } else {
        assert j < i;
      }
    }
    DifferentRows(schema, keys, pk, a, b, nullsFirst);
  }

  /** The page a database's answer makes, and whether more follow it. */
  function PageOfAnswer(answer: seq<Row>, limit: nat, backwards: bool): (seq<Row>, bool) {
    var page := Slice(answer, 0, limit);
    (if backwards then Reverse(page) else page, |answer| > limit)
  }

  /** Pushing a request down to the database, its first page as well as one past a cursor, returns the page, and
      the `has_more`, that reading in memory does. The anchor may be any position a client sends; the one family
      of cursors this leaves out is the one `RowValueAgreesExactly` names. */
  method CursorQuery(
    ghost schema: Schema, keys: Keys, ghost pk: string, nullsFirst: bool, limit: nat, cursor: Option<CursorState>,
    nullable: set<string>)
    returns (where: Cond, orderBy: seq<OrderTerm>)
    requires cursor.Some? ==> Typed(schema, keys, cursor.value.position)
    requires cursor.Some? && RowValueChosen(keys, cursor.value.inclusive, nullable) ==>
      !LeadingNullAnchor(keys, cursor.value.position, cursor.value.backwards, nullsFirst)
    ensures forall rows, answer |
      Table(schema, keys, pk, rows) && AllStorable(schema, keys, nullable, rows) &&
      QueryAnswer(where, orderBy, rows, answer) ::
        ReadPage(keys, nullsFirst, limit, cursor, rows) == PageOfAnswer(answer, limit, Backwards(cursor))
  {
    where := Everything;
    if cursor.Some? {
      where := CursorCondition(schema, keys, cursor.value.position, cursor.value.backwards, cursor.value.inclusive,
                               nullsFirst, nullable);
    }
    orderBy := ApplySort(schema, Directed(keys, Backwards(cursor)), nullsFirst);
    assert OrdersAs(schema, orderBy, Directed(keys, Backwards(cursor)), nullsFirst);
    forall rows, answer |
      Table(schema, keys, pk, rows) && AllStorable(schema, keys, nullable, rows) &&
      QueryAnswer(where, orderBy, rows, answer)
      ensures ReadPage(keys, nullsFirst, limit, cursor, rows) == PageOfAnswer(answer, limit, Backwards(cursor))
    {
      AnswerIsSorted(schema, keys, pk, nullsFirst, cursor, rows, where, orderBy, answer);
    }
  }
}
