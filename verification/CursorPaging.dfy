/** Cursor pages: what one request reads, how a page's anchors continue it, and the walk along `next`
    over a collection that changes between the requests. */
module CursorPaging {
  import opened Basics
  import opened Ordering
  import opened Cursor
  import opened ListStages

  /** Rows with values of their columns' kinds and distinct primary keys. */
  ghost predicate Table(schema: Schema, keys: Keys, pk: string, rows: seq<Row>) {
    && AllTyped(schema, keys, rows)
    && pk in Names(keys)
    && forall i, j | 0 <= i < j < |rows| :: Read(rows[i], pk) != Read(rows[j], pk)
  }

  function Take(rows: seq<Row>, n: nat): seq<Row> {
    rows[..Min(n, |rows|)]
  }

  predicate Selects(keys: Keys, nullsFirst: bool, cursor: Option<CursorState>, row: Row) {
    cursor.None? ||
    Matches(keys, cursor.value.position, cursor.value.backwards, cursor.value.inclusive, nullsFirst, row)
  }

  predicate Backwards(cursor: Option<CursorState>) {
    cursor.Some? && cursor.value.backwards
  }

  function Selected(keys: Keys, nullsFirst: bool, cursor: Option<CursorState>, rows: seq<Row>): seq<Row> {
    Filter(rows, (r: Row) => Selects(keys, nullsFirst, cursor, r))
  }

  /** The ordering a request runs with: the cursor keys, reversed when reading backwards. */
  function Directed(keys: Keys, backwards: bool): Keys {
    if backwards then Flip(keys) else keys
  }

  /** The rows of one page in reading order, and whether more follow in the direction read. */
  function ReadPage(keys: Keys, nullsFirst: bool, limit: nat, cursor: Option<CursorState>, rows: seq<Row>)
    : (r: (seq<Row>, bool))
  {
    var sorted := SortRows(Directed(keys, Backwards(cursor)), nullsFirst, Selected(keys, nullsFirst, cursor, rows));
    var page := Take(sorted, limit);
    (if Backwards(cursor) then Reverse(page) else page, |sorted| > limit)
  }

  /** `next` and `previous` are exclusive, `first` and `last` the same anchors read inclusively. */
  datatype CursorPage = CursorPage(
    results: seq<Row>, limit: nat, hasMore: bool, hasPrevious: bool,
    next: Option<Token>, previous: Option<Token>, first: Option<Token>, last: Option<Token>)

  function Anchor(row: Row, keys: Keys, backwards: bool, inclusive: bool, query: Query): Token {
    Encode(CursorState(PositionOf(row, keys), backwards, inclusive, query))
  }

  /** The page of `results`: its anchors are its own edge rows, and "more" means before it when read backwards. */
  function Assemble(
    keys: Keys, limit: nat, query: Query, resumed: bool, backwards: bool, results: seq<Row>, more: bool): CursorPage
  {
    var hasMore := if backwards then resumed else more;
    var hasPrevious := if backwards then more else resumed;
    if results == [] then CursorPage(results, limit, hasMore, hasPrevious, None, None, None, None)
    else
      var head, tail := results[0], results[|results| - 1];
      CursorPage(results, limit, hasMore, hasPrevious,
                 if hasMore then Some(Anchor(tail, keys, false, false, query)) else None,
                 if hasPrevious then Some(Anchor(head, keys, true, false, query)) else None,
                 Some(Anchor(head, keys, true, true, query)),
                 Some(Anchor(tail, keys, false, true, query)))
  }

  function PageOf(
    keys: Keys, nullsFirst: bool, limit: nat, query: Query, cursor: Option<CursorState>, rows: seq<Row>): CursorPage
  {
    var (results, more) := ReadPage(keys, nullsFirst, limit, cursor, rows);
    Assemble(keys, limit, query, cursor.Some?, Backwards(cursor), results, more)
  }

  // ---- the request --------------------------------------------------------------------------------

  datatype CursorPredicate = CursorPredicate(keys: Keys, state: CursorState, nullsFirst: bool)

  datatype Answer = Page(page: CursorPage) | Refused(error: CursorError)

  /** Where a request reads from: its decoded cursor, if it has one that can be read. */
  datatype Resumed = From(state: Option<CursorState>) | Unusable(error: CursorError)

  function Resumes(cursor: Option<Token>, keys: Keys, filters: string, coerce: Coercion): Resumed {
    if cursor.None? then From(None)
    else
      match Decoding(cursor.value, keys, Query(keys, filters), coerce)
      case Ok(state) => From(Some(state))
      case Err(error) => Unusable(error)
  }

  /** The anchor of a row is never refused. */
  lemma AnchorsResume(cursor: Option<Token>, keys: Keys, filters: string, coerce: Coercion)
    ensures forall row, b, i | cursor.Some? && Carries(coerce, cursor.value, row, keys, b, i, Query(keys, filters)) ::
      Resumes(cursor, keys, filters, coerce) == From(Some(CursorState(PositionOf(row, keys), b, i, Query(keys, filters))))
  {
    forall row, b, i | cursor.Some? && Carries(coerce, cursor.value, row, keys, b, i, Query(keys, filters))
      ensures Resumes(cursor, keys, filters, coerce) ==
              From(Some(CursorState(PositionOf(row, keys), b, i, Query(keys, filters))))
    {
      AnchorDecodes(coerce, cursor.value, row, keys, b, i, Query(keys, filters));
    }
  }

  /** The keys in the direction read. */
  method DirectedKeys(keys: Keys, backwards: bool) returns (directed: Keys)
    ensures directed == Directed(keys, backwards)
  {
    directed := [];
    for i := 0 to |keys|
      invariant directed == Directed(keys, backwards)[..i]
    {
      directed := directed + [Key(keys[i].name, keys[i].descending != backwards)];
    }
  }

  /** The list request of the cursor shape. */
  class ListQuery {
    var sort: Keys
    const limit: nat
    const cursor: Option<Token>
    const filters: string
    var extraFilters: seq<CursorPredicate>
    var cursorKeys: Keys
    var cursorQuery: Query
    var cursorBackwards: bool

    constructor (sort: Keys, limit: nat, cursor: Option<Token>, filters: string)
      ensures this.sort == sort && this.limit == limit && this.cursor == cursor && this.filters == filters
      ensures extraFilters == []
    {
      this.sort, this.limit, this.cursor, this.filters := sort, limit, cursor, filters;
      extraFilters, cursorKeys, cursorQuery, cursorBackwards := [], [], Query([], ""), false;
    }

    /** Rewrites the ordering to the cursor keys, reversed when reading backwards, and adds the cursor
        predicate to the filters; an unusable cursor refuses the request and changes nothing. */
    method PrepareCursor(pk: string, nullsFirst: bool, coerce: Coercion) returns (error: Option<CursorError>)
      modifies this
      ensures error.Some? <==> Resumes(cursor, CursorKeys(old(sort), pk), filters, coerce).Unusable?
      ensures error.Some? ==>
        unchanged(this) && Resumes(cursor, CursorKeys(old(sort), pk), filters, coerce) == Unusable(error.value)
      ensures error.None? ==>
        && cursorKeys == CursorKeys(old(sort), pk) && cursorQuery == Query(cursorKeys, filters)
        && var from := Resumes(cursor, cursorKeys, filters, coerce).state;
           && extraFilters == old(extraFilters) +
                (if from.None? then [] else [CursorPredicate(cursorKeys, from.value, nullsFirst)])
           && cursorBackwards == Backwards(from) && sort == Directed(cursorKeys, cursorBackwards)
    {
      var keys := CursorKeys(sort, pk);
      var query := Query(keys, filters);
      var backwards := false;
      if cursor.Some? {
        var decoded := DecodeCursor(cursor.value, keys, query, coerce);
        if decoded.Err? {
          return Some(decoded.error);
        }
        extraFilters := extraFilters + [CursorPredicate(keys, decoded.state, nullsFirst)];
        backwards := decoded.state.backwards;
      }
      var directed := DirectedKeys(keys, backwards);
      sort, cursorKeys, cursorQuery, cursorBackwards := directed, keys, query, backwards;
      error := None;
    }
  }

  /** What a request answers: the page past its cursor, or why the cursor is refused. */
  function Answering(
    resumed: Resumed, keys: Keys, nullsFirst: bool, limit: nat, filters: string, rows: seq<Row>): Answer
  {
    match resumed
    case Unusable(error) => Refused(error)
    case From(state) => Page(PageOf(keys, nullsFirst, limit, Query(keys, filters), state, rows))
  }

  /** One cursor request over `source`, with the client's own filter `declared`. */
  method GetList(
    query: ListQuery, source: seq<Row>, declared: Row -> bool, pk: string, nullsFirst: bool, coerce: Coercion)
    returns (answer: Answer)
    requires query.extraFilters == []
    modifies query
    ensures var keys := CursorKeys(old(query.sort), pk);
            answer == Answering(Resumes(query.cursor, keys, query.filters, coerce), keys, nullsFirst, query.limit,
                                query.filters, Filter(source, declared))
    ensures var keys := CursorKeys(old(query.sort), pk);
            forall row, b, i | query.cursor.Some?
                               && Carries(coerce, query.cursor.value, row, keys, b, i, Query(keys, query.filters)) ::
              answer == Page(PageOf(keys, nullsFirst, query.limit, Query(keys, query.filters),
                                    Some(CursorState(PositionOf(row, keys), b, i, Query(keys, query.filters))),
                                    Filter(source, declared)))
  {
    ghost var resumed := Resumes(query.cursor, CursorKeys(query.sort, pk), query.filters, coerce);
    AnchorsResume(query.cursor, CursorKeys(query.sort, pk), query.filters, coerce);
    var error := query.PrepareCursor(pk, nullsFirst, coerce);
    if error.Some? {
      return Refused(error.value);
    }
    var keys := query.cursorKeys;
    var results, more := RunQuery(query, source, declared, nullsFirst, resumed.state);
    answer := Page(
      Assemble(keys, query.limit, query.cursorQuery, query.cursor.Some?, query.cursorBackwards, results, more));
  }

  /** The stages of a prepared query: filter, sort, cut, and the reading order restored. */
  method RunQuery(query: ListQuery, source: seq<Row>, declared: Row -> bool, nullsFirst: bool, ghost from: Option<CursorState>)
    returns (results: seq<Row>, more: bool)
    requires query.extraFilters == if from.None? then [] else [CursorPredicate(query.cursorKeys, from.value, nullsFirst)]
    requires query.cursorBackwards == Backwards(from) && query.sort == Directed(query.cursorKeys, Backwards(from))
    ensures (results, more) == ReadPage(query.cursorKeys, nullsFirst, query.limit, from, Filter(source, declared))
  {
    var keys := query.cursorKeys;
    var records := Filter(source, declared);
    if query.extraFilters == [] {
      FilterAll(records, (r: Row) => Selects(keys, nullsFirst, from, r));
    } else {
      var state := query.extraFilters[0].state;
      records := Filter(records, (r: Row) => Selects(keys, nullsFirst, Some(state), r));
    }
    assert records == Selected(keys, nullsFirst, from, Filter(source, declared));
    records := SortRows(query.sort, nullsFirst, records);
    results, more := TakePageOfList(records, 0, query.limit);
    assert results == Take(records, query.limit);
    if query.cursorBackwards {
      results := Reverse(results);
    }
  }

  // ---- what one page holds ----------------------------------------------------------------------------

  lemma {:induction false} InsertStrict(schema: Schema, keys: Keys, nullsFirst: bool, x: Row, sorted: seq<Row>)
    requires Typed(schema, keys, x) && AllTyped(schema, keys, sorted) && StrictlySorted(keys, nullsFirst, sorted)
    requires forall y | y in sorted :: CompareRows(keys, x, y, nullsFirst) != 0
    ensures StrictlySorted(keys, nullsFirst, Insert(keys, nullsFirst, x, sorted))
  {
    if sorted != [] {
      StrictHead(keys, nullsFirst, sorted);
      if CompareRows(keys, x, sorted[0], nullsFirst) <= 0 {
        forall y | y in sorted
          ensures CompareRows(keys, x, y, nullsFirst) < 0
        {
          if y in sorted[1..] {
            RowsTransitive(schema, keys, x, sorted[0], y, nullsFirst);
          }
        }
        ConsStrict(keys, nullsFirst, x, sorted);
      } else {
        InsertStrict(schema, keys, nullsFirst, x, sorted[1..]);
        RowsAntisymmetric(keys, x, sorted[0], nullsFirst);
        ConsStrict(keys, nullsFirst, sorted[0], Insert(keys, nullsFirst, x, sorted[1..]));
      }
    }
  }

  lemma ConsStrict(keys: Keys, nullsFirst: bool, x: Row, rows: seq<Row>)
    requires StrictlySorted(keys, nullsFirst, rows)
    requires forall y | y in rows :: CompareRows(keys, x, y, nullsFirst) < 0
    ensures StrictlySorted(keys, nullsFirst, [x] + rows)
  {
    var all := [x] + rows;
    forall i, j | 0 <= i < j < |all|
      ensures CompareRows(keys, all[i], all[j], nullsFirst) < 0
    {
      assert all[j] == rows[j - 1] && all[j] in rows;
      if i > 0 {
        assert all[i] == rows[i - 1];
      }
    }
  }

  lemma DifferentRows(schema: Schema, keys: Keys, pk: string, a: Row, b: Row, nullsFirst: bool)
    requires Typed(schema, keys, a) && Typed(schema, keys, b) && pk in Names(keys) && Read(a, pk) != Read(b, pk)
    ensures CompareRows(keys, a, b, nullsFirst) != 0
  {
    RowsZero(schema, keys, a, b, nullsFirst);
  }

  /** The primary key makes the order of a table's rows strict. */
  lemma {:induction false} SortIsStrict(schema: Schema, keys: Keys, pk: string, nullsFirst: bool, rows: seq<Row>)
    requires Table(schema, keys, pk, rows)
    ensures StrictlySorted(keys, nullsFirst, SortRows(keys, nullsFirst, rows))
  {
    if rows != [] {
      SortIsStrict(schema, keys, pk, nullsFirst, rows[1..]);
      forall y | y in rows[1..]
        ensures CompareRows(keys, rows[0], y, nullsFirst) != 0
      {
        DifferentRows(schema, keys, pk, rows[0], y, nullsFirst);
      }
      InsertStrict(schema, keys, nullsFirst, rows[0], SortRows(keys, nullsFirst, rows[1..]));
    }
  }

  lemma {:induction false} FilterStrict(keys: Keys, nullsFirst: bool, rows: seq<Row>, keep: Row -> bool)
    requires StrictlySorted(keys, nullsFirst, rows)
    ensures StrictlySorted(keys, nullsFirst, Filter(rows, keep))
  {
    if rows != [] {
      StrictHead(keys, nullsFirst, rows);
      FilterStrict(keys, nullsFirst, rows[1..], keep);
      if keep(rows[0]) {
        ConsStrict(keys, nullsFirst, rows[0], Filter(rows[1..], keep));
      }
    }
  }

  lemma {:induction false} FilterTable(schema: Schema, keys: Keys, pk: string, rows: seq<Row>, keep: Row -> bool)
    requires Table(schema, keys, pk, rows)
    ensures Table(schema, keys, pk, Filter(rows, keep))
  {
    if rows != [] {
      FilterTable(schema, keys, pk, rows[1..], keep);
      var rest := Filter(rows[1..], keep);
      if keep(rows[0]) {
        var all := [rows[0]] + rest;
        forall i, j | 0 <= i < j < |all|
          ensures Read(all[i], pk) != Read(all[j], pk)
        {
          assert all[j] == rest[j - 1] && all[j] in rest;
          if i > 0 {
            assert all[i] == rest[i - 1];
          } else {
            assert all[j] in rows[1..];
          }
        }
      }
    }
  }

  /** Sorting the selected rows is selecting from the sorted rows. */
  lemma SortFiltered(schema: Schema, keys: Keys, pk: string, nullsFirst: bool, rows: seq<Row>, keep: Row -> bool)
    requires Table(schema, keys, pk, rows)
    ensures SortRows(keys, nullsFirst, Filter(rows, keep)) == Filter(SortRows(keys, nullsFirst, rows), keep)
  {
    FilterTable(schema, keys, pk, rows, keep);
    SortIsStrict(schema, keys, pk, nullsFirst, Filter(rows, keep));
    SortIsStrict(schema, keys, pk, nullsFirst, rows);
    FilterStrict(keys, nullsFirst, SortRows(keys, nullsFirst, rows), keep);
    StrictOrderIsUnique(keys, nullsFirst,
                        SortRows(keys, nullsFirst, Filter(rows, keep)), Filter(SortRows(keys, nullsFirst, rows), keep));
  }

  lemma FlipTable(schema: Schema, keys: Keys, pk: string, rows: seq<Row>)
    requires Table(schema, keys, pk, rows)
    ensures Table(schema, Flip(keys), pk, rows)
  {
    FlipNames(keys);
    forall r, k | r in rows && k in Flip(keys)
      ensures OfKind(Read(r, k.name), schema(k.name))
    {
      var i :| 0 <= i < |keys| && Flip(keys)[i] == k;
      assert keys[i] in keys;
    }
  }

  lemma FlipNames(keys: Keys)
    ensures Names(Flip(keys)) == Names(keys)
  {
    forall name
      ensures name in Names(Flip(keys)) <==> name in Names(keys)
    {
      if name in Names(keys) {
        var i :| 0 <= i < |keys| && keys[i].name == name;
        assert Flip(keys)[i] in Flip(keys);
      }
      if name in Names(Flip(keys)) {
        var i :| 0 <= i < |keys| && Flip(keys)[i].name == name;
        assert keys[i] in keys;
      }
    }
  }

  /** Reversing every direction reverses the sorted collection, NULLs included. */
  lemma SortFlipped(schema: Schema, keys: Keys, pk: string, nullsFirst: bool, rows: seq<Row>)
    requires Table(schema, keys, pk, rows)
    ensures SortRows(Flip(keys), nullsFirst, rows) == Reverse(SortRows(keys, nullsFirst, rows))
  {
    FlipTable(schema, keys, pk, rows);
    SortIsStrict(schema, keys, pk, nullsFirst, rows);
    SortIsStrict(schema, Flip(keys), pk, nullsFirst, rows);
    var sorted := SortRows(keys, nullsFirst, rows);
    ReversedIsFlipped(keys, nullsFirst, sorted);
    ReverseMembers(sorted);
    StrictOrderIsUnique(Flip(keys), nullsFirst, SortRows(Flip(keys), nullsFirst, rows), Reverse(sorted));
  }

  lemma ReversedIsFlipped(keys: Keys, nullsFirst: bool, sorted: seq<Row>)
    requires StrictlySorted(keys, nullsFirst, sorted)
    ensures StrictlySorted(Flip(keys), nullsFirst, Reverse(sorted))
  {
    var reversed := Reverse(sorted);
    forall i, j | 0 <= i < j < |reversed|
      ensures CompareRows(Flip(keys), reversed[i], reversed[j], nullsFirst) < 0
    {
      RowsFlip(keys, reversed[i], reversed[j], nullsFirst);
      RowsAntisymmetric(keys, reversed[i], reversed[j], nullsFirst);
    }
  }

  lemma ReverseMembers(rows: seq<Row>)
    ensures forall r :: r in Reverse(rows) <==> r in rows
  {
    forall r
      ensures r in Reverse(rows) <==> r in rows
    {
      if r in rows {
        var i :| 0 <= i < |rows| && rows[i] == r;
        assert Reverse(rows)[|rows| - 1 - i] == r;
      }
    }
  }

  /** The rows a cursor selects, in the order of the list. */
  function Window(keys: Keys, nullsFirst: bool, cursor: Option<CursorState>, rows: seq<Row>): seq<Row> {
    Selected(keys, nullsFirst, cursor, SortRows(keys, nullsFirst, rows))
  }

  /** A forward page is the first `limit` rows of its window, a backward page the last `limit`, both in
      list order; `more` tells whether the window holds others. */
  lemma PageIsWindowEdge(
    schema: Schema, keys: Keys, pk: string, nullsFirst: bool, limit: nat, cursor: Option<CursorState>, rows: seq<Row>)
    requires Table(schema, keys, pk, rows)
    ensures var (page, more) := ReadPage(keys, nullsFirst, limit, cursor, rows);
            var window := Window(keys, nullsFirst, cursor, rows);
            && page == (if Backwards(cursor) then LastN(window, limit) else Take(window, limit))
            && (more <==> |window| > limit)
  {
    var keep := (r: Row) => Selects(keys, nullsFirst, cursor, r);
    var window := Window(keys, nullsFirst, cursor, rows);
    SortFiltered(schema, keys, pk, nullsFirst, rows, keep);
    if Backwards(cursor) {
      FilterTable(schema, keys, pk, rows, keep);
      SortFlipped(schema, keys, pk, nullsFirst, Filter(rows, keep));
      ReverseTake(window, limit);
    }
  }

  lemma ReverseTake(window: seq<Row>, limit: nat)
    ensures Reverse(Take(Reverse(window), limit)) == LastN(window, limit)
  {
  }

  /** A window in terms of the order: the rows after the anchor (before it when reading backwards), and
      the anchor itself when inclusive. */
  lemma WindowMembers(keys: Keys, nullsFirst: bool, state: CursorState, rows: seq<Row>, row: Row)
    ensures row in Window(keys, nullsFirst, Some(state), rows) <==>
            row in rows &&
            var order := CompareRows(keys, row, state.position, nullsFirst);
            if order == 0 then state.inclusive else (order < 0) == state.backwards
  {
    MatchesIsPast(keys, state.position, state.backwards, state.inclusive, nullsFirst, row);
  }

  lemma PositionHasKeys(row: Row, keys: Keys)
    ensures SameKeys(keys, PositionOf(row, keys), row)
  {
    forall k | k in keys
      ensures Read(PositionOf(row, keys), k.name) == Read(row, k.name)
    {
      assert k.name in Names(keys);
    }
  }

  // ---- the walk along `next` ----------------------------------------------------------------------------

  /** The cursor of a request past `at`; the first request has none. */
  function NextState(keys: Keys, at: Option<Row>): Option<CursorState> {
    if at.None? then None else Some(CursorState(PositionOf(at.value, keys), false, false, Query(keys, "")))
  }

  function PageAt(keys: Keys, nullsFirst: bool, limit: nat, at: Option<Row>, rows: seq<Row>): seq<Row> {
    ReadPage(keys, nullsFirst, limit, NextState(keys, at), rows).0
  }

  /** The row the page's `next` cursor is anchored on; None when `next` is null. */
  function NextAnchor(keys: Keys, nullsFirst: bool, limit: nat, at: Option<Row>, rows: seq<Row>): Option<Row> {
    var (page, more) := ReadPage(keys, nullsFirst, limit, NextState(keys, at), rows);
    if page == [] || !more then None else Some(page[|page| - 1])
  }

  /** The anchor is the page's own `next` token. */
  lemma NextAnchorIsToken(
    keys: Keys, nullsFirst: bool, limit: nat, filters: string, at: Option<Row>, rows: seq<Row>)
    ensures var query := Query(keys, filters);
            var cursor := if at.None? then None
                          else Some(CursorState(PositionOf(at.value, keys), false, false, query));
            var page := PageOf(keys, nullsFirst, limit, query, cursor, rows);
            var next := NextAnchor(keys, nullsFirst, limit, at, rows);
            && page.results == PageAt(keys, nullsFirst, limit, at, rows)
            && page.next == if next.None? then None else Some(Anchor(next.value, keys, false, false, query))
  {
    if at.Some? {
      QueryIsNotRead(keys, nullsFirst, limit, PositionOf(at.value, keys), Query(keys, filters), rows);
    }
  }

  /** The walk is closed over the tokens it hands out: a page's `next` token is never refused, and the request that
      carries it reads on past the page's last row, when that row's key values survive their coercion. */
  lemma NextTokenContinues(
    keys: Keys, nullsFirst: bool, limit: nat, filters: string, coerce: Coercion, at: Option<Row>, rows: seq<Row>,
    later: seq<Row>)
    requires var next := NextAnchor(keys, nullsFirst, limit, at, rows);
             next.Some? && Survives(keys, coerce, next.value)
    ensures var query := Query(keys, filters);
            var cursor := if at.None? then None
                          else Some(CursorState(PositionOf(at.value, keys), false, false, query));
            var token := PageOf(keys, nullsFirst, limit, query, cursor, rows).next;
            var next := NextAnchor(keys, nullsFirst, limit, at, rows);
            var answer := Answering(Resumes(token, keys, filters, coerce), keys, nullsFirst, limit, filters, later);
            answer.Page? && answer.page.results == PageAt(keys, nullsFirst, limit, next, later)
  {
    var query, next := Query(keys, filters), NextAnchor(keys, nullsFirst, limit, at, rows);
    NextAnchorIsToken(keys, nullsFirst, limit, filters, at, rows);
    NextAnchorIsToken(keys, nullsFirst, limit, filters, next, later);
    AnchorDecodes(coerce, Anchor(next.value, keys, false, false, query), next.value, keys, false, false, query);
  }

  /** The query a cursor is tied to decides nothing about the page. */
  lemma QueryIsNotRead(keys: Keys, nullsFirst: bool, limit: nat, position: Row, query: Query, rows: seq<Row>)
    ensures ReadPage(keys, nullsFirst, limit, Some(CursorState(position, false, false, query)), rows) ==
            ReadPage(keys, nullsFirst, limit, Some(CursorState(position, false, false, Query(keys, ""))), rows)
  {
    var cursor, plain := CursorState(position, false, false, query), CursorState(position, false, false, Query(keys, ""));
    FilterCongruent(rows, (r: Row) => Selects(keys, nullsFirst, Some(cursor), r),
                    (r: Row) => Selects(keys, nullsFirst, Some(plain), r));
  }

  lemma {:induction false} FilterCongruent(rows: seq<Row>, f: Row -> bool, g: Row -> bool)
    requires forall r | r in rows :: f(r) == g(r)
    ensures Filter(rows, f) == Filter(rows, g)
  {
    if rows != [] {
      FilterCongruent(rows[1..], f, g);
    }
  }

  /** How one request continues a walk: the rows it returns past `at`, and the row its `next` is anchored on. */
  type Reader = (Option<Row>, seq<Row>) -> (seq<Row>, Option<Row>)

  function PageReader(keys: Keys, nullsFirst: bool, limit: nat): Reader {
    (at: Option<Row>, rows: seq<Row>) =>
      (PageAt(keys, nullsFirst, limit, at, rows), NextAnchor(keys, nullsFirst, limit, at, rows))
  }

  /** The rows a client receives that follows `next` from `at`, the collection being `requests[i]` at its
      i-th request. */
  function Walk(read: Reader, at: Option<Row>, requests: seq<seq<Row>>): seq<Row>
    decreases |requests|
  {
    if requests == [] then []
    else
      var (page, next) := read(at, requests[0]);
      page + if next.None? then [] else Walk(read, next, requests[1..])
  }

  /** The walk reaches a null `next` within the requests. */
  predicate Finished(read: Reader, at: Option<Row>, requests: seq<seq<Row>>)
    decreases |requests|
  {
    requests != [] &&
    var next := read(at, requests[0]).1;
    next.None? || Finished(read, next, requests[1..])
  }

  ghost predicate Tables(schema: Schema, keys: Keys, pk: string, requests: seq<seq<Row>>) {
    forall rows | rows in requests :: Table(schema, keys, pk, rows)
  }

  ghost predicate After(keys: Keys, nullsFirst: bool, at: Option<Row>, row: Row) {
    at.None? || CompareRows(keys, at.value, row, nullsFirst) < 0
  }

  lemma WindowIsAfter(keys: Keys, nullsFirst: bool, at: Option<Row>, rows: seq<Row>)
    ensures forall r :: r in Window(keys, nullsFirst, NextState(keys, at), rows) <==>
              r in rows && After(keys, nullsFirst, at, r)
  {
    forall r
      ensures r in Window(keys, nullsFirst, NextState(keys, at), rows) <==> r in rows && After(keys, nullsFirst, at, r)
    {
      if at.Some? {
        WindowMembers(keys, nullsFirst, NextState(keys, at).value, rows, r);
        PositionHasKeys(at.value, keys);
        RowsCongruent(keys, PositionOf(at.value, keys), at.value, r, nullsFirst);
        RowsAntisymmetric(keys, at.value, r, nullsFirst);
      }
    }
  }

  lemma WindowIsStrict(
    schema: Schema, keys: Keys, pk: string, nullsFirst: bool, cursor: Option<CursorState>, rows: seq<Row>)
    requires Table(schema, keys, pk, rows)
    ensures StrictlySorted(keys, nullsFirst, Window(keys, nullsFirst, cursor, rows))
  {
    SortIsStrict(schema, keys, pk, nullsFirst, rows);
    FilterStrict(keys, nullsFirst, SortRows(keys, nullsFirst, rows), (r: Row) => Selects(keys, nullsFirst, cursor, r));
  }

  lemma TakeOfStrict(keys: Keys, nullsFirst: bool, window: seq<Row>, limit: nat)
    requires StrictlySorted(keys, nullsFirst, window) && limit >= 1
    ensures var page := Take(window, limit);
            && StrictlySorted(keys, nullsFirst, page)
            && (forall r | r in page :: r in window)
            && (window != [] ==> page != [])
            && (forall r | r in window && r !in page ::
                  |window| > limit && CompareRows(keys, page[|page| - 1], r, nullsFirst) < 0)
  {
    var page := Take(window, limit);
    forall r | r in window && r !in page
      ensures |window| > limit && CompareRows(keys, page[|page| - 1], r, nullsFirst) < 0
    {
      var i :| 0 <= i < |window| && window[i] == r;
      assert forall j | 0 <= j < |page| :: page[j] == window[j];
      assert i >= |page|;
      assert page[|page| - 1] == window[limit - 1];
    }
  }

  lemma NextFromWindow(
    keys: Keys, nullsFirst: bool, limit: nat, at: Option<Row>, rows: seq<Row>, window: seq<Row>)
    requires ReadPage(keys, nullsFirst, limit, NextState(keys, at), rows) == (Take(window, limit), |window| > limit)
    requires limit >= 1
    ensures PageAt(keys, nullsFirst, limit, at, rows) == Take(window, limit)
    ensures NextAnchor(keys, nullsFirst, limit, at, rows) ==
            if |window| > limit then Some(window[limit - 1]) else None
  {
  }

  /** One step of the walk: the page is strictly sorted and past the anchor, and every other row past the
      anchor comes after the page, whose last row is then the next anchor. */
  ghost predicate Steps(
    keys: Keys, nullsFirst: bool, at: Option<Row>, rows: seq<Row>, page: seq<Row>, next: Option<Row>)
  {
    && StrictlySorted(keys, nullsFirst, page)
    && (forall r | r in page :: r in rows && After(keys, nullsFirst, at, r))
    && (next.Some? ==> page != [] && next.value == page[|page| - 1])
    && (forall r | r in rows && After(keys, nullsFirst, at, r) && r !in page ::
          next.Some? && After(keys, nullsFirst, next, r))
  }

  lemma StepOfWindow(
    keys: Keys, nullsFirst: bool, limit: nat, at: Option<Row>, rows: seq<Row>, window: seq<Row>, next: Option<Row>)
    requires StrictlySorted(keys, nullsFirst, window) && limit >= 1
    requires forall r :: r in window <==> r in rows && After(keys, nullsFirst, at, r)
    requires next == if |window| > limit then Some(window[limit - 1]) else None
    ensures Steps(keys, nullsFirst, at, rows, Take(window, limit), next)
  {
    TakeOfStrict(keys, nullsFirst, window, limit);
  }

  lemma PageStep(
    schema: Schema, keys: Keys, pk: string, nullsFirst: bool, limit: nat, at: Option<Row>, rows: seq<Row>)
    requires Table(schema, keys, pk, rows) && limit >= 1
    ensures Steps(keys, nullsFirst, at, rows, PageAt(keys, nullsFirst, limit, at, rows),
                  NextAnchor(keys, nullsFirst, limit, at, rows))
  {
    var cursor := NextState(keys, at);
    var window := Window(keys, nullsFirst, cursor, rows);
    PageIsWindowEdge(schema, keys, pk, nullsFirst, limit, cursor, rows);
    NextFromWindow(keys, nullsFirst, limit, at, rows, window);
    WindowIsAfter(keys, nullsFirst, at, rows);
    WindowIsStrict(schema, keys, pk, nullsFirst, cursor, rows);
    StepOfWindow(keys, nullsFirst, limit, at, rows, window, NextAnchor(keys, nullsFirst, limit, at, rows));
  }

  /** Rows in strict order, of their columns' kinds and past the anchor. */
  ghost predicate Onwards(schema: Schema, keys: Keys, nullsFirst: bool, at: Option<Row>, rows: seq<Row>) {
    && StrictlySorted(keys, nullsFirst, rows) && AllTyped(schema, keys, rows)
    && forall r | r in rows :: After(keys, nullsFirst, at, r)
  }

  /** The walk emits strictly increasing key tuples, so no row twice, whatever is inserted or deleted
      between its requests. */
  lemma {:induction false} WalkIncreases(
    schema: Schema, keys: Keys, pk: string, nullsFirst: bool, limit: nat, at: Option<Row>, requests: seq<seq<Row>>)
    requires Tables(schema, keys, pk, requests) && limit >= 1
    requires at.Some? ==> Typed(schema, keys, at.value)
    ensures Onwards(schema, keys, nullsFirst, at, Walk(PageReader(keys, nullsFirst, limit), at, requests))
    decreases |requests|
  {
    if requests != [] {
      var rows := requests[0];
      assert rows in requests;
      var page := PageAt(keys, nullsFirst, limit, at, rows);
      var next := NextAnchor(keys, nullsFirst, limit, at, rows);
      PageOnwards(schema, keys, pk, nullsFirst, limit, at, rows);
      if next.Some? {
        WalkIncreases(schema, keys, pk, nullsFirst, limit, next, requests[1..]);
        AppendOnwards(schema, keys, nullsFirst, at, page, next.value,
                      Walk(PageReader(keys, nullsFirst, limit), next, requests[1..]));
      }
      WalkUnfolds(PageReader(keys, nullsFirst, limit), at, requests, page, next);
    }
  }

  lemma WalkUnfolds(read: Reader, at: Option<Row>, requests: seq<seq<Row>>, page: seq<Row>, next: Option<Row>)
    requires requests != [] && read(at, requests[0]) == (page, next)
    ensures Walk(read, at, requests) == if next.None? then page else page + Walk(read, next, requests[1..])
  {
  }

  lemma PageOnwards(
    schema: Schema, keys: Keys, pk: string, nullsFirst: bool, limit: nat, at: Option<Row>, rows: seq<Row>)
    requires Table(schema, keys, pk, rows) && limit >= 1
    ensures var page := PageAt(keys, nullsFirst, limit, at, rows);
            var next := NextAnchor(keys, nullsFirst, limit, at, rows);
            && Onwards(schema, keys, nullsFirst, at, page)
            && (next.Some? ==> page != [] && next.value == page[|page| - 1] && Typed(schema, keys, next.value))
  {
    PageStep(schema, keys, pk, nullsFirst, limit, at, rows);
    var page := PageAt(keys, nullsFirst, limit, at, rows);
    assert page != [] ==> page[|page| - 1] in page;
  }

  /** What follows a page's last row follows the page and its anchor. */
  lemma AppendOnwards(
    schema: Schema, keys: Keys, nullsFirst: bool, at: Option<Row>, page: seq<Row>, last: Row, rest: seq<Row>)
    requires at.Some? ==> Typed(schema, keys, at.value)
    requires Onwards(schema, keys, nullsFirst, at, page) && page != [] && last == page[|page| - 1]
    requires Onwards(schema, keys, nullsFirst, Some(last), rest)
    ensures Onwards(schema, keys, nullsFirst, at, page + rest)
  {
    AppendStrict(schema, keys, nullsFirst, page, rest);
    assert last in page;
    forall r | r in rest
      ensures After(keys, nullsFirst, at, r)
    {
      if at.Some? {
        RowsTransitive(schema, keys, at.value, last, r, nullsFirst);
      }
    }
  }

  lemma AppendStrict(schema: Schema, keys: Keys, nullsFirst: bool, page: seq<Row>, rest: seq<Row>)
    requires page != [] && AllTyped(schema, keys, page) && AllTyped(schema, keys, rest)
    requires StrictlySorted(keys, nullsFirst, page) && StrictlySorted(keys, nullsFirst, rest)
    requires forall r | r in rest :: CompareRows(keys, page[|page| - 1], r, nullsFirst) < 0
    ensures StrictlySorted(keys, nullsFirst, page + rest)
  {
    var all, n := page + rest, |page|;
    forall i, j | 0 <= i < j < |all|
      ensures CompareRows(keys, all[i], all[j], nullsFirst) < 0
    {
      if i < n <= j {
        assert all[j] == rest[j - n] && all[j] in rest && all[i] in page;
        if i < n - 1 {
          RowsTransitive(schema, keys, all[i], page[n - 1], all[j], nullsFirst);
        }
      }
    }
  }

  /** A row past the anchor that is there, unchanged, at every request has been emitted by the time `next`
      is null. */
  lemma {:induction false} WalkIsComplete(
    schema: Schema, keys: Keys, pk: string, nullsFirst: bool, limit: nat, at: Option<Row>, requests: seq<seq<Row>>,
    row: Row)
    requires Tables(schema, keys, pk, requests) && limit >= 1
    requires at.Some? ==> Typed(schema, keys, at.value)
    requires Finished(PageReader(keys, nullsFirst, limit), at, requests)
    requires (forall rows | rows in requests :: row in rows) && After(keys, nullsFirst, at, row)
    ensures row in Walk(PageReader(keys, nullsFirst, limit), at, requests)
    decreases |requests|
  {
    assert requests[0] in requests;
    PageStep(schema, keys, pk, nullsFirst, limit, at, requests[0]);
    var page := PageAt(keys, nullsFirst, limit, at, requests[0]);
    var next := NextAnchor(keys, nullsFirst, limit, at, requests[0]);
    if row !in page {
      assert next.value in page;
      WalkIsComplete(schema, keys, pk, nullsFirst, limit, next, requests[1..], row);
    }
  }

  /** Exactly once: the positions of the walk that hold the row are one. */
  lemma WalkEmitsOnce(
    schema: Schema, keys: Keys, pk: string, nullsFirst: bool, limit: nat, requests: seq<seq<Row>>, row: Row)
    requires Tables(schema, keys, pk, requests) && limit >= 1
    requires Finished(PageReader(keys, nullsFirst, limit), None, requests)
    requires forall rows | rows in requests :: row in rows
    ensures var walk := Walk(PageReader(keys, nullsFirst, limit), None, requests);
            exists i | 0 <= i < |walk| :: walk[i] == row && forall j | 0 <= j < |walk| && j != i :: walk[j] != row
  {
    var walk := Walk(PageReader(keys, nullsFirst, limit), None, requests);
    WalkIsComplete(schema, keys, pk, nullsFirst, limit, None, requests, row);
    WalkIncreases(schema, keys, pk, nullsFirst, limit, None, requests);
    var i :| 0 <= i < |walk| && walk[i] == row;
    RowsAntisymmetric(keys, row, row, nullsFirst);
    forall j | 0 <= j < |walk| && j != i
      ensures walk[j] != row
    {
    }
  }

  // ---- a fixed collection ---------------------------------------------------------------------------------

  function Repeat(rows: seq<Row>, n: nat): (r: seq<seq<Row>>)
    ensures |r| == n && forall x | x in r :: x == rows
  {
    if n == 0 then [] else [rows] + Repeat(rows, n - 1)
  }

  lemma FilterTail(rows: seq<Row>, keep: Row -> bool, m: nat)
    requires m <= |rows| && forall i | 0 <= i < |rows| :: keep(rows[i]) <==> i >= m
    ensures Filter(rows, keep) == rows[m..]
  {
    FilterNone(rows[..m], keep);
    FilterAll(rows[m..], keep);
    FilterParts(rows, keep, m);
  }

  lemma FilterHead(rows: seq<Row>, keep: Row -> bool, m: nat)
    requires m <= |rows| && forall i | 0 <= i < |rows| :: keep(rows[i]) <==> i < m
    ensures Filter(rows, keep) == rows[..m]
  {
    FilterAll(rows[..m], keep);
    FilterNone(rows[m..], keep);
    FilterParts(rows, keep, m);
  }

  lemma FilterParts(rows: seq<Row>, keep: Row -> bool, m: nat)
    requires m <= |rows|
    ensures Filter(rows, keep) == Filter(rows[..m], keep) + Filter(rows[m..], keep)
  {
    FilterAppend(rows[..m], rows[m..], keep);
    Rejoin(rows, m);
  }

  /** The window past the m-th row of the sorted collection is the rest of it. */
  lemma WindowPast(schema: Schema, keys: Keys, pk: string, nullsFirst: bool, rows: seq<Row>, m: nat)
    requires Table(schema, keys, pk, rows) && m <= |rows|
    ensures var sorted := SortRows(keys, nullsFirst, rows);
            var at := if m == 0 then None else Some(sorted[m - 1]);
            Window(keys, nullsFirst, NextState(keys, at), rows) == sorted[m..]
  {
    var sorted := SortRows(keys, nullsFirst, rows);
    SortIsStrict(schema, keys, pk, nullsFirst, rows);
    if m == 0 {
      FilterAll(sorted, (r: Row) => Selects(keys, nullsFirst, None, r));
      assert Selected(keys, nullsFirst, None, sorted) == sorted;
      assert sorted[0..] == sorted;
    } else {
      var at := sorted[m - 1];
      var cursor := NextState(keys, Some(at));
      var keep := (r: Row) => Selects(keys, nullsFirst, cursor, r);
      PositionHasKeys(at, keys);
      forall i | 0 <= i < |sorted|
        ensures keep(sorted[i]) <==> i >= m
      {
        MatchesIsPast(keys, cursor.value.position, false, false, nullsFirst, sorted[i]);
        RowsCongruent(keys, PositionOf(at, keys), at, sorted[i], nullsFirst);
        RowsAntisymmetric(keys, sorted[i], at, nullsFirst);
      }
      FilterTail(sorted, keep, m);
    }
  }

  ghost function AtRow(sorted: seq<Row>, m: nat): Option<Row>
    requires m <= |sorted|
  {
    if m == 0 then None else Some(sorted[m - 1])
  }

  lemma FixedStep(
    schema: Schema, keys: Keys, pk: string, nullsFirst: bool, limit: nat, rows: seq<Row>, sorted: seq<Row>, m: nat)
    requires Table(schema, keys, pk, rows) && limit >= 1 && m <= |rows|
    requires sorted == SortRows(keys, nullsFirst, rows)
    ensures PageAt(keys, nullsFirst, limit, AtRow(sorted, m), rows) == Take(sorted[m..], limit)
    ensures NextAnchor(keys, nullsFirst, limit, AtRow(sorted, m), rows) ==
            if |rows| - m > limit then Some(sorted[m + limit - 1]) else None
  {
    var at := AtRow(sorted, m);
    WindowPast(schema, keys, pk, nullsFirst, rows, m);
    PageIsWindowEdge(schema, keys, pk, nullsFirst, limit, NextState(keys, at), rows);
    NextFromWindow(keys, nullsFirst, limit, at, rows, sorted[m..]);
  }

  /** `n` pages of `limit` rows hold `left` rows. */
  predicate Enough(n: nat, limit: nat, left: int) {
    n >= 1 && (left <= limit || Enough(n - 1, limit, left - limit))
  }

  lemma {:induction false} EnoughRequests(n: nat, limit: nat, left: int)
    requires n >= 1 && n * limit >= left
    ensures Enough(n, limit, left)
  {
    if left > limit {
      assert (n - 1) * limit == n * limit - limit;
      EnoughRequests(n - 1, limit, left - limit);
    }
  }

  /** Read past its m-th row, `sorted` gives its next slice. */
  ghost predicate SliceAt(read: Reader, limit: nat, rows: seq<Row>, sorted: seq<Row>, m: nat)
    requires m <= |sorted|
  {
    read(AtRow(sorted, m), rows) ==
      (Take(sorted[m..], limit), if |sorted| - m > limit then AtRow(sorted, m + limit) else None)
  }

  lemma SliceAndRest(sorted: seq<Row>, m: nat, limit: nat)
    requires m <= |sorted|
    ensures |sorted| - m > limit ==>
      Take(sorted[m..], limit) == sorted[m..m + limit] && sorted[m..m + limit] + sorted[m + limit..] == sorted[m..]
    ensures |sorted| - m <= limit ==> Take(sorted[m..], limit) == sorted[m..]
  {
  }

  lemma {:induction false} WalkOfSlices(
    read: Reader, limit: nat, rows: seq<Row>, sorted: seq<Row>, m: nat, n: nat)
    requires forall k: nat | k <= |sorted| :: SliceAt(read, limit, rows, sorted, k)
    requires limit >= 1 && m <= |sorted| && Enough(n, limit, |sorted| - m)
    ensures Walk(read, AtRow(sorted, m), Repeat(rows, n)) == sorted[m..]
    ensures Finished(read, AtRow(sorted, m), Repeat(rows, n))
    decreases n
  {
    assert SliceAt(read, limit, rows, sorted, m);
    assert Repeat(rows, n)[1..] == Repeat(rows, n - 1);
    if |sorted| - m > limit {
      WalkOfSlices(read, limit, rows, sorted, m + limit, n - 1);
    }
    SliceAndRest(sorted, m, limit);
  }

  /** On a fixed collection the pages concatenate to the sorted rows, and the walk ends once it has made
      enough requests for them. */
  lemma WalkOfFixedCollection(
    schema: Schema, keys: Keys, pk: string, nullsFirst: bool, limit: nat, rows: seq<Row>, n: nat)
    requires Table(schema, keys, pk, rows) && limit >= 1
    requires n >= 1 && n * limit >= |rows|
    ensures Walk(PageReader(keys, nullsFirst, limit), None, Repeat(rows, n)) == SortRows(keys, nullsFirst, rows)
    ensures Finished(PageReader(keys, nullsFirst, limit), None, Repeat(rows, n))
  {
    var sorted := SortRows(keys, nullsFirst, rows);
    var read := PageReader(keys, nullsFirst, limit);
    forall m: nat | m <= |sorted|
      ensures SliceAt(read, limit, rows, sorted, m)
    {
      FixedStep(schema, keys, pk, nullsFirst, limit, rows, sorted, m);
    }
    EnoughRequests(n, limit, |rows|);
    WalkOfSlices(read, limit, rows, sorted, 0, n);
    assert sorted[0..] == sorted;
  }

  // ---- reading back ------------------------------------------------------------------------------------------

  /** A page's `previous` cursor reads, in list order, exactly the rows immediately before the page's head:
      `limit` of them, fewer only at the start. The head may be gone from the collection by then. */
  lemma PreviousPage(
    schema: Schema, keys: Keys, pk: string, nullsFirst: bool, limit: nat, head: Row, filters: string, rows: seq<Row>)
    requires Table(schema, keys, pk, rows)
    ensures var cursor := CursorState(PositionOf(head, keys), true, false, Query(keys, filters));
            var before := Filter(SortRows(keys, nullsFirst, rows), (r: Row) => CompareRows(keys, r, head, nullsFirst) < 0);
            ReadPage(keys, nullsFirst, limit, Some(cursor), rows) == (LastN(before, limit), |before| > limit)
  {
    var cursor := CursorState(PositionOf(head, keys), true, false, Query(keys, filters));
    PageIsWindowEdge(schema, keys, pk, nullsFirst, limit, Some(cursor), rows);
    PositionHasKeys(head, keys);
    var sorted := SortRows(keys, nullsFirst, rows);
    var f := (r: Row) => CompareRows(keys, r, head, nullsFirst) < 0;
    var g := (r: Row) => Selects(keys, nullsFirst, Some(cursor), r);
    forall r | r in sorted
      ensures f(r) == g(r)
    {
      MatchesIsPast(keys, cursor.position, true, false, nullsFirst, r);
      RowsCongruent(keys, PositionOf(head, keys), head, r, nullsFirst);
    }
    FilterCongruent(sorted, f, g);
  }

  /** On a fixed collection, the page before the one that starts at row `m` of the sorted list. */
  lemma PreviousOfFixedCollection(
    schema: Schema, keys: Keys, pk: string, nullsFirst: bool, limit: nat, rows: seq<Row>, filters: string,
    sorted: seq<Row>, m: nat)
    requires Table(schema, keys, pk, rows) && m < |rows|
    requires sorted == SortRows(keys, nullsFirst, rows)
    ensures var cursor := CursorState(PositionOf(sorted[m], keys), true, false, Query(keys, filters));
            ReadPage(keys, nullsFirst, limit, Some(cursor), rows) == (sorted[m - Min(limit, m)..m], m > limit)
  {
    RowsBefore(schema, keys, pk, nullsFirst, rows, sorted, m);
    PreviousPage(schema, keys, pk, nullsFirst, limit, sorted[m], filters, rows);
    LastOfHead(sorted, m, limit);
  }

  lemma LastOfHead(sorted: seq<Row>, m: nat, limit: nat)
    requires m <= |sorted|
    ensures LastN(sorted[..m], limit) == sorted[m - Min(limit, m)..m]
  {
  }

  lemma RowsBefore(
    schema: Schema, keys: Keys, pk: string, nullsFirst: bool, rows: seq<Row>, sorted: seq<Row>, m: nat)
    requires Table(schema, keys, pk, rows) && m < |rows|
    requires sorted == SortRows(keys, nullsFirst, rows)
    ensures Filter(sorted, (r: Row) => CompareRows(keys, r, sorted[m], nullsFirst) < 0) == sorted[..m]
  {
    var head := sorted[m];
    SortIsStrict(schema, keys, pk, nullsFirst, rows);
    forall i | 0 <= i < |sorted|
      ensures CompareRows(keys, sorted[i], head, nullsFirst) < 0 <==> i < m
    {
      RowsAntisymmetric(keys, sorted[i], head, nullsFirst);
    }
    FilterHead(sorted, (r: Row) => CompareRows(keys, r, head, nullsFirst) < 0, m);
  }

  // ---- the tokens of a page ----------------------------------------------------------------------------------

  /** The rows beside an anchor: before it when reading backwards, after it otherwise, and its own when inclusive. */
  predicate Beside(keys: Keys, nullsFirst: bool, anchor: Row, backwards: bool, inclusive: bool, row: Row) {
    var order := CompareRows(keys, row, anchor, nullsFirst);
    if backwards then order < 0 || (inclusive && order == 0) else order > 0 || (inclusive && order == 0)
  }

  /** What a client gets that reads on from an anchor: the `limit` rows of the list nearest to it on that side, in
      list order. */
  function Continued(
    keys: Keys, nullsFirst: bool, limit: nat, anchor: Row, backwards: bool, inclusive: bool, rows: seq<Row>): seq<Row>
  {
    var beside :=
      Filter(SortRows(keys, nullsFirst, rows), (r: Row) => Beside(keys, nullsFirst, anchor, backwards, inclusive, r));
    if backwards then LastN(beside, limit) else Take(beside, limit)
  }

  /** The request that carries the token is never refused and reads on from the row. */
  ghost predicate ReadsOn(
    keys: Keys, nullsFirst: bool, limit: nat, filters: string, coerce: Coercion, token: Option<Token>, row: Row,
    backwards: bool, inclusive: bool, later: seq<Row>)
  {
    var answer := Answering(Resumes(token, keys, filters, coerce), keys, nullsFirst, limit, filters, later);
    answer.Page? && answer.page.results == Continued(keys, nullsFirst, limit, row, backwards, inclusive, later)
  }

  lemma AnchorReads(
    schema: Schema, keys: Keys, pk: string, nullsFirst: bool, limit: nat, anchor: Row, state: CursorState, rows: seq<Row>)
    requires Table(schema, keys, pk, rows) && state.position == PositionOf(anchor, keys)
    ensures ReadPage(keys, nullsFirst, limit, Some(state), rows).0 ==
            Continued(keys, nullsFirst, limit, anchor, state.backwards, state.inclusive, rows)
  {
    PageIsWindowEdge(schema, keys, pk, nullsFirst, limit, Some(state), rows);
    PositionHasKeys(anchor, keys);
    var sorted := SortRows(keys, nullsFirst, rows);
    var f := (r: Row) => Beside(keys, nullsFirst, anchor, state.backwards, state.inclusive, r);
    var g := (r: Row) => Selects(keys, nullsFirst, Some(state), r);
    forall r | r in sorted
      ensures f(r) == g(r)
    {
      MatchesIsPast(keys, state.position, state.backwards, state.inclusive, nullsFirst, r);
      RowsCongruent(keys, state.position, anchor, r, nullsFirst);
    }
    FilterCongruent(sorted, f, g);
  }

  lemma AnchorReadsOn(
    schema: Schema, keys: Keys, pk: string, nullsFirst: bool, limit: nat, filters: string, coerce: Coercion,
    token: Option<Token>, row: Row, backwards: bool, inclusive: bool, later: seq<Row>)
    requires Table(schema, keys, pk, later) && Survives(keys, coerce, row)
    requires token == Some(Anchor(row, keys, backwards, inclusive, Query(keys, filters)))
    ensures ReadsOn(keys, nullsFirst, limit, filters, coerce, token, row, backwards, inclusive, later)
  {
    var state := CursorState(PositionOf(row, keys), backwards, inclusive, Query(keys, filters));
    AnchorDecodes(coerce, token.value, row, keys, backwards, inclusive, Query(keys, filters));
    AnchorReads(schema, keys, pk, nullsFirst, limit, row, state, later);
  }

  /** `previous` reads the rows before the page's first row and `next` those after its last, `first` and `last` the
      same with that row again. */
  ghost predicate TokensRead(
    page: CursorPage, keys: Keys, nullsFirst: bool, limit: nat, filters: string, coerce: Coercion, later: seq<Row>)
    requires page.results != []
  {
    var head, tail := page.results[0], page.results[|page.results| - 1];
    && (page.previous.Some? ==>
          ReadsOn(keys, nullsFirst, limit, filters, coerce, page.previous, head, true, false, later))
    && (page.next.Some? ==> ReadsOn(keys, nullsFirst, limit, filters, coerce, page.next, tail, false, false, later))
    && page.first.Some? && ReadsOn(keys, nullsFirst, limit, filters, coerce, page.first, head, true, true, later)
    && page.last.Some? && ReadsOn(keys, nullsFirst, limit, filters, coerce, page.last, tail, false, true, later)
  }

  /** Every token of every page, first or later, read forwards or backwards: none is ever refused, and each reads on
      from its edge of the page in whatever the collection has become by then. */
  lemma TokensReadOn(
    schema: Schema, keys: Keys, pk: string, nullsFirst: bool, limit: nat, filters: string, coerce: Coercion,
    cursor: Option<CursorState>, rows: seq<Row>, later: seq<Row>)
    requires Table(schema, keys, pk, later)
    requires forall r | r in ReadPage(keys, nullsFirst, limit, cursor, rows).0 :: Survives(keys, coerce, r)
    ensures var page := PageOf(keys, nullsFirst, limit, Query(keys, filters), cursor, rows);
            && page.results == ReadPage(keys, nullsFirst, limit, cursor, rows).0
            && (page.results != [] ==> TokensRead(page, keys, nullsFirst, limit, filters, coerce, later))
            && (page.results == [] ==> page.previous.None? && page.next.None? && page.first.None? && page.last.None?)
  {
    var page := PageOf(keys, nullsFirst, limit, Query(keys, filters), cursor, rows);
    if page.results != [] {
      EdgeTokens(keys, nullsFirst, limit, Query(keys, filters), cursor, rows);
      EdgesRead(schema, keys, pk, nullsFirst, limit, filters, coerce, page, later);
    }
  }

  /** The page's tokens are anchors of its edge rows. */
  predicate EdgeAnchors(page: CursorPage, keys: Keys, query: Query)
    requires page.results != []
  {
    var head, tail := page.results[0], page.results[|page.results| - 1];
    && (page.previous.Some? ==> page.previous == Some(Anchor(head, keys, true, false, query)))
    && (page.next.Some? ==> page.next == Some(Anchor(tail, keys, false, false, query)))
    && page.first == Some(Anchor(head, keys, true, true, query))
    && page.last == Some(Anchor(tail, keys, false, true, query))
  }

  lemma EdgesRead(
    schema: Schema, keys: Keys, pk: string, nullsFirst: bool, limit: nat, filters: string, coerce: Coercion,
    page: CursorPage, later: seq<Row>)
    requires Table(schema, keys, pk, later) && page.results != [] && EdgeAnchors(page, keys, Query(keys, filters))
    requires forall r | r in page.results :: Survives(keys, coerce, r)
    ensures TokensRead(page, keys, nullsFirst, limit, filters, coerce, later)
  {
    var head, tail := page.results[0], page.results[|page.results| - 1];
    if page.previous.Some? {
      AnchorReadsOn(schema, keys, pk, nullsFirst, limit, filters, coerce, page.previous, head, true, false, later);
    }
    if page.next.Some? {
      AnchorReadsOn(schema, keys, pk, nullsFirst, limit, filters, coerce, page.next, tail, false, false, later);
    }
    AnchorReadsOn(schema, keys, pk, nullsFirst, limit, filters, coerce, page.first, head, true, true, later);
    AnchorReadsOn(schema, keys, pk, nullsFirst, limit, filters, coerce, page.last, tail, false, true, later);
  }

  lemma EdgeTokens(
    keys: Keys, nullsFirst: bool, limit: nat, query: Query, cursor: Option<CursorState>, rows: seq<Row>)
    requires PageOf(keys, nullsFirst, limit, query, cursor, rows).results != []
    ensures EdgeAnchors(PageOf(keys, nullsFirst, limit, query, cursor, rows), keys, query)
  {
  }

  /** What a page says beside its rows: its rows are the edge of its cursor's window, `next` and `previous` are there
      exactly when the page says there is more on that side, and it says so exactly: in the direction read, when the
      window holds more rows than the page; against it, when the request carried a cursor. */
  lemma PageTells(
    schema: Schema, keys: Keys, pk: string, nullsFirst: bool, limit: nat, query: Query, cursor: Option<CursorState>,
    rows: seq<Row>)
    requires Table(schema, keys, pk, rows)
    ensures var page, window := PageOf(keys, nullsFirst, limit, query, cursor, rows), Window(keys, nullsFirst, cursor, rows);
            && page.limit == limit
            && page.results == (if Backwards(cursor) then LastN(window, limit) else Take(window, limit))
            && (page.next.Some? <==> page.results != [] && page.hasMore)
            && (page.previous.Some? <==> page.results != [] && page.hasPrevious)
            && (!Backwards(cursor) ==> (page.hasMore <==> |window| > limit) && (page.hasPrevious <==> cursor.Some?))
            && (Backwards(cursor) ==> page.hasMore && (page.hasPrevious <==> |window| > limit))
  {
    PageIsWindowEdge(schema, keys, pk, nullsFirst, limit, cursor, rows);
  }

  /** The answer to the request that carries the token. */
  function Followed(
    token: Option<Token>, keys: Keys, nullsFirst: bool, limit: nat, filters: string, coerce: Coercion, rows: seq<Row>)
    : Answer
  {
    Answering(Resumes(token, keys, filters, coerce), keys, nullsFirst, limit, filters, rows)
  }

  /** The page of a first request, or of one that reads on forwards past the row. */
  function ForwardPage(
    keys: Keys, nullsFirst: bool, limit: nat, filters: string, at: Option<Row>, rows: seq<Row>): CursorPage
  {
    var query := Query(keys, filters);
    PageOf(keys, nullsFirst, limit, query,
           if at.None? then None else Some(CursorState(PositionOf(at.value, keys), false, false, query)), rows)
  }

  lemma TokenAnswers(
    keys: Keys, nullsFirst: bool, limit: nat, filters: string, coerce: Coercion, row: Row, rows: seq<Row>)
    requires Survives(keys, coerce, row)
    ensures Followed(Some(Anchor(row, keys, false, false, Query(keys, filters))), keys, nullsFirst, limit, filters, coerce,
                     rows) == Page(ForwardPage(keys, nullsFirst, limit, filters, Some(row), rows))
  {
    var query := Query(keys, filters);
    AnchorDecodes(coerce, Anchor(row, keys, false, false, query), row, keys, false, false, query);
  }

  /** The page past the m-th row of the sorted list is its next slice. */
  lemma PageFromRow(
    schema: Schema, keys: Keys, pk: string, nullsFirst: bool, limit: nat, filters: string, rows: seq<Row>,
    sorted: seq<Row>, m: nat)
    requires Table(schema, keys, pk, rows) && sorted == SortRows(keys, nullsFirst, rows) && limit >= 1 && m < |rows|
    ensures var page := ForwardPage(keys, nullsFirst, limit, filters, AtRow(sorted, m), rows);
            && page.results == Take(sorted[m..], limit)
            && (m + limit < |rows| ==> page.next == Some(Anchor(sorted[m + limit - 1], keys, false, false, Query(keys, filters))))
  {
    FixedStep(schema, keys, pk, nullsFirst, limit, rows, sorted, m);
    NextAnchorIsToken(keys, nullsFirst, limit, filters, AtRow(sorted, m), rows);
  }

  /** The `previous` of the page after a slice leads to that slice. */
  lemma PageBefore(
    schema: Schema, keys: Keys, pk: string, nullsFirst: bool, limit: nat, filters: string, coerce: Coercion,
    rows: seq<Row>, sorted: seq<Row>, m: nat, page: CursorPage)
    returns (back: CursorPage)
    requires Table(schema, keys, pk, rows) && sorted == SortRows(keys, nullsFirst, rows)
    requires limit >= 1 && m + limit < |rows| && forall r | r in rows :: Survives(keys, coerce, r)
    requires page == ForwardPage(keys, nullsFirst, limit, filters, Some(sorted[m + limit - 1]), rows)
    ensures page.previous.Some? && Followed(page.previous, keys, nullsFirst, limit, filters, coerce, rows) == Page(back)
    ensures back.results == sorted[m..m + limit]
  {
    var head := sorted[m + limit];
    var token := Anchor(head, keys, true, false, Query(keys, filters));
    PageFromRow(schema, keys, pk, nullsFirst, limit, filters, rows, sorted, m + limit);
    assert head in sorted;
    AnchorReadsOn(schema, keys, pk, nullsFirst, limit, filters, coerce, Some(token), head, true, false, rows);
    RowsBeforeHead(schema, keys, pk, nullsFirst, limit, rows, sorted, m + limit);
    back := Followed(page.previous, keys, nullsFirst, limit, filters, coerce, rows).page;
  }

  lemma RowsBeforeHead(
    schema: Schema, keys: Keys, pk: string, nullsFirst: bool, limit: nat, rows: seq<Row>, sorted: seq<Row>, m: nat)
    requires Table(schema, keys, pk, rows) && sorted == SortRows(keys, nullsFirst, rows) && limit <= m < |rows|
    ensures Continued(keys, nullsFirst, limit, sorted[m], true, false, rows) == sorted[m - limit..m]
  {
    RowsBefore(schema, keys, pk, nullsFirst, rows, sorted, m);
    BesideBefore(keys, nullsFirst, sorted[m], sorted);
    LastOfHead(sorted, m, limit);
  }

  lemma BesideBefore(keys: Keys, nullsFirst: bool, head: Row, rows: seq<Row>)
    ensures Filter(rows, (r: Row) => Beside(keys, nullsFirst, head, true, false, r)) ==
            Filter(rows, (r: Row) => CompareRows(keys, r, head, nullsFirst) < 0)
  {
    FilterCongruent(rows, (r: Row) => Beside(keys, nullsFirst, head, true, false, r),
                    (r: Row) => CompareRows(keys, r, head, nullsFirst) < 0);
  }

  /** Its `next` leads to the slice after it. */
  lemma NextPage(
    schema: Schema, keys: Keys, pk: string, nullsFirst: bool, limit: nat, filters: string, coerce: Coercion,
    rows: seq<Row>, sorted: seq<Row>, m: nat)
    returns (page: CursorPage, next: CursorPage)
    requires Table(schema, keys, pk, rows) && sorted == SortRows(keys, nullsFirst, rows)
    requires limit >= 1 && m + limit < |rows| && forall r | r in rows :: Survives(keys, coerce, r)
    ensures page == ForwardPage(keys, nullsFirst, limit, filters, AtRow(sorted, m), rows)
    ensures page.results == sorted[m..m + limit] && page.next.Some?
    ensures Followed(page.next, keys, nullsFirst, limit, filters, coerce, rows) == Page(next)
    ensures next == ForwardPage(keys, nullsFirst, limit, filters, Some(sorted[m + limit - 1]), rows)
  {
    page := ForwardPage(keys, nullsFirst, limit, filters, AtRow(sorted, m), rows);
    next := ForwardPage(keys, nullsFirst, limit, filters, Some(sorted[m + limit - 1]), rows);
    PageFromRow(schema, keys, pk, nullsFirst, limit, filters, rows, sorted, m);
    SliceAndRest(sorted, m, limit);
    assert sorted[m + limit - 1] in sorted;
    TokenAnswers(keys, nullsFirst, limit, filters, coerce, sorted[m + limit - 1], rows);
  }

  /** Forward and back: on a fixed collection the page after a page leads back to it. */
  lemma NextThenPrevious(
    schema: Schema, keys: Keys, pk: string, nullsFirst: bool, limit: nat, filters: string, coerce: Coercion,
    rows: seq<Row>, sorted: seq<Row>, m: nat)
    returns (page: CursorPage, next: CursorPage, back: CursorPage)
    requires Table(schema, keys, pk, rows) && sorted == SortRows(keys, nullsFirst, rows)
    requires limit >= 1 && m + limit < |rows| && forall r | r in rows :: Survives(keys, coerce, r)
    ensures page == ForwardPage(keys, nullsFirst, limit, filters, AtRow(sorted, m), rows)
    ensures Followed(page.next, keys, nullsFirst, limit, filters, coerce, rows) == Page(next)
    ensures Followed(next.previous, keys, nullsFirst, limit, filters, coerce, rows) == Page(back)
    ensures page.next.Some? && next.previous.Some? && back.results == page.results == sorted[m..m + limit]
  {
    page, next := NextPage(schema, keys, pk, nullsFirst, limit, filters, coerce, rows, sorted, m);
    back := PageBefore(schema, keys, pk, nullsFirst, limit, filters, coerce, rows, sorted, m, next);
  }
}
