/** Cursors: the key tuple of a row, the token that carries it, and the "every row past this one" predicate. */
module Cursor {
  import opened Basics
  import opened Ordering

  /** What ties a cursor to its query: the ordering keys and the active filters, standing for their hash. */
  datatype Query = Query(keys: Keys, filters: string)

  datatype CursorState = CursorState(position: Row, backwards: bool, inclusive: bool, query: Query)

  /** A cursor as received: not readable, readable without a position, or a full payload. */
  datatype Token = Garbage | NoPosition | Token(p: Row, b: bool, i: bool, q: Query)

  datatype CursorError = Unreadable | MissingPosition | Stale | MissingKeys | ValueMismatch

  datatype Decoded = Ok(state: CursorState) | Err(error: CursorError)

  /** Coerces a JSON value of a field to the field's type; None when it does not fit. */
  type Coercion = (string, Cell) -> Option<Cell>

  function Names(keys: Keys): set<string> {
    set k | k in keys :: k.name
  }

  /** The client's ordering with the primary key appended when it is absent. */
  function CursorKeys(sort: Keys, pk: string): (keys: Keys)
    ensures pk in Names(keys)
    ensures Names(keys) == Names(sort) + {pk}
    ensures keys == if pk in Names(sort) then sort else sort + [Key(pk, false)]
  {
    if exists k | k in sort :: k.name == pk then sort
    else
      var keys := sort + [Key(pk, false)];
      assert Key(pk, false) in keys;
      keys
  }

  function PositionOf(record: Row, keys: Keys): (position: Row)
    ensures position.Keys == Names(keys)
  {
    map name | name in Names(keys) :: Read(record, name)
  }

  function Encode(state: CursorState): Token {
    Token(state.position, state.backwards, state.inclusive, state.query)
  }

  predicate MissesKey(p: Row, keys: Keys) {
    exists k | k in keys :: k.name !in p
  }

  /** The value read for `name`: NULL stays NULL, anything else is coerced. */
  function Coerced(coerce: Coercion, name: string, value: Cell): Option<Cell> {
    if value.Null? then Some(Null) else coerce(name, value)
  }

  /** What reading a cursor for the query `expected` gives: its state, or the first thing wrong with it. */
  function Decoding(token: Token, keys: Keys, expected: Query, coerce: Coercion): Decoded {
    if token.Garbage? then Err(Unreadable)
    else if token.NoPosition? then Err(MissingPosition)
    else if token.q != expected then Err(Stale)
    else if MissesKey(token.p, keys) then Err(MissingKeys)
    else if exists k | k in keys :: Coerced(coerce, k.name, token.p[k.name]).None? then Err(ValueMismatch)
    else
      Ok(CursorState(map name | name in Names(keys) :: Coerced(coerce, name, token.p[name]).value, token.b, token.i,
                     expected))
  }

  /** The row's key values survive the coercion; a NULL is not coerced. */
  ghost predicate Survives(keys: Keys, coerce: Coercion, row: Row) {
    forall k | k in keys && !Read(row, k.name).Null? :: coerce(k.name, Read(row, k.name)) == Some(Read(row, k.name))
  }

  /** The token is an anchor of `row`, whose key values survive the coercion. */
  ghost predicate Carries(
    coerce: Coercion, token: Token, row: Row, keys: Keys, backwards: bool, inclusive: bool, query: Query)
  {
    && token == Encode(CursorState(PositionOf(row, keys), backwards, inclusive, query))
    && Survives(keys, coerce, row)
  }

  /** An anchor is never refused, and is read as the key tuple it was made of. */
  lemma AnchorDecodes(
    coerce: Coercion, token: Token, row: Row, keys: Keys, backwards: bool, inclusive: bool, query: Query)
    requires Carries(coerce, token, row, keys, backwards, inclusive, query)
    ensures Decoding(token, keys, query, coerce) == Ok(CursorState(PositionOf(row, keys), backwards, inclusive, query))
  {
    forall k | k in keys
      ensures k.name in token.p && Coerced(coerce, k.name, token.p[k.name]) == Some(Read(row, k.name))
    {
      assert k.name in Names(keys);
    }
    assert PositionOf(row, keys) ==
           map name | name in Names(keys) :: Coerced(coerce, name, token.p[name]).value;
  }

  /** Reads a cursor for the query `expected` and coerces its key values. */
  method DecodeCursor(token: Token, keys: Keys, expected: Query, coerce: Coercion) returns (r: Decoded)
    ensures r == Decoding(token, keys, expected, coerce)
    ensures r == Err(Unreadable) <==> token.Garbage?
    ensures r == Err(MissingPosition) <==> token.NoPosition?
    ensures r == Err(Stale) <==> token.Token? && token.q != expected
    ensures r == Err(MissingKeys) <==> token.Token? && token.q == expected && MissesKey(token.p, keys)
    ensures r == Err(ValueMismatch) <==>
      && token.Token? && token.q == expected && !MissesKey(token.p, keys)
      && exists k | k in keys :: Coerced(coerce, k.name, token.p[k.name]).None?
    ensures r.Ok? <==>
      && token.Token? && token.q == expected
      && forall k | k in keys :: k.name in token.p && Coerced(coerce, k.name, token.p[k.name]).Some?
    ensures r.Ok? ==>
      && r.state == CursorState(r.state.position, token.b, token.i, expected)
      && r.state.position.Keys == Names(keys) <= token.p.Keys
      && forall name | name in Names(keys) :: Coerced(coerce, name, token.p[name]) == Some(r.state.position[name])
  {
    if token.Garbage? {
      return Err(Unreadable);
    }
    if token.NoPosition? {
      return Err(MissingPosition);
    }
    if token.q != expected {
      return Err(Stale);
    }
    if MissesKey(token.p, keys) {
      return Err(MissingKeys);
    }
    var coerced: Row := map[];
    for i := 0 to |keys|
      invariant coerced.Keys == Names(keys[..i])
      invariant forall name | name in coerced ::
        name in token.p && Coerced(coerce, name, token.p[name]) == Some(coerced[name])
    {
      var name := keys[i].name;
      assert keys[i] in keys;
      var value := Coerced(coerce, name, token.p[name]);
      if value.None? {
        return Err(ValueMismatch);
      }
      coerced := coerced[name := value.value];
      assert keys[..i + 1] == keys[..i] + [keys[i]];
    }
    assert keys[..|keys|] == keys;
    forall k | k in keys
      ensures Coerced(coerce, k.name, token.p[k.name]).Some?
    {
      assert k.name in coerced;
    }
    assert coerced == map name | name in Names(keys) :: Coerced(coerce, name, token.p[name]).value;
    r := Ok(CursorState(coerced, token.b, token.i, expected));
  }

  /** The key tuple a page puts into a cursor is the one the next request reads out of it. */
  method CursorRoundTrip(record: Row, keys: Keys, backwards: bool, inclusive: bool, query: Query, coerce: Coercion)
    returns (r: Decoded)
    requires Survives(keys, coerce, record)
    ensures r == Ok(CursorState(PositionOf(record, keys), backwards, inclusive, query))
  {
    var token := Encode(CursorState(PositionOf(record, keys), backwards, inclusive, query));
    AnchorDecodes(coerce, token, record, keys, backwards, inclusive, query);
    r := DecodeCursor(token, keys, query, coerce);
  }

  /** Whether a key's value must be greater than the anchor's: descending and backwards each invert it. */
  predicate WantsGreater(descending: bool, backwards: bool) {
    (!descending) != backwards
  }

  /** "Every row past this position": the first key that differs from the anchor decides. */
  predicate Matches(keys: Keys, position: Row, backwards: bool, inclusive: bool, nullsFirst: bool, record: Row) {
    if keys == [] then inclusive
    else
      var order := CompareInOrder(Read(record, keys[0].name), Read(position, keys[0].name),
                                  keys[0].descending, nullsFirst);
      if order != 0 then (if backwards then order < 0 else order > 0)
      else Matches(keys[1..], position, backwards, inclusive, nullsFirst, record)
  }

  /** The predicate selects exactly the rows after the anchor (before it when reading backwards), and
      the anchor's own key tuple when inclusive. */
  lemma {:induction false} MatchesIsPast(
    keys: Keys, position: Row, backwards: bool, inclusive: bool, nullsFirst: bool, record: Row)
    ensures var order := CompareRows(keys, record, position, nullsFirst);
            Matches(keys, position, backwards, inclusive, nullsFirst, record) <==>
            if order == 0 then inclusive else (order < 0) == backwards
  {
    if keys != [] {
      MatchesIsPast(keys[1..], position, backwards, inclusive, nullsFirst, record);
    }
  }
}
