/** The sort order of a list endpoint: one cell comparison with NULL placement, and the
    lexicographic order of rows over a list of keys. */
module Ordering {
  /** A column value: None, a number or a text. Numbers and texts do not compare with each other. */
  datatype Cell = Null | Num(n: int) | Text(s: string)

  datatype Kind = NumKind | TextKind

  /** A record, or a cursor position: field names to values. */
  type Row = map<string, Cell>

  /** An ordering key: a field name and whether it sorts descending. */
  datatype Key = Key(name: string, descending: bool)

  type Keys = seq<Key>

  /** The kind of value each column holds. */
  type Schema = string -> Kind

  function Read(row: Row, name: string): Cell {
    if name in row then row[name] else Null
  }

  predicate OfKind(c: Cell, k: Kind) {
    match c
    case Null => true
    case Num(_) => k == NumKind
    case Text(_) => k == TextKind
  }

  /** Every key of `row` is NULL or of its column's kind. */
  ghost predicate Typed(schema: Schema, keys: Keys, row: Row) {
    forall k | k in keys :: OfKind(Read(row, k.name), schema(k.name))
  }

  predicate Comparable(a: Cell, b: Cell) {
    a.Null? || b.Null? || (a.Num? && b.Num?) || (a.Text? && b.Text?)
  }

  predicate TextLess(a: string, b: string) {
    b != [] && (a == [] || a[0] < b[0] || (a[0] == b[0] && TextLess(a[1..], b[1..])))
  }

  /** `a < b` of two values; false for a NULL and for values that do not compare. */
  predicate CellLess(a: Cell, b: Cell) {
    match (a, b)
    case (Num(x), Num(y)) => x < y
    case (Text(x), Text(y)) => TextLess(x, y)
    case _ => false
  }

  /** Three-way comparison in sort order. NULL is the lowest value (`nullsFirst`) or the highest one;
      values that do not compare are equal. */
  function CompareInOrder(left: Cell, right: Cell, descending: bool, nullsFirst: bool): (r: int)
    ensures -1 <= r <= 1
  {
    var order :=
      if left.Null? && right.Null? then 0
      else if left.Null? then (if nullsFirst then -1 else 1)
      else if right.Null? then (if nullsFirst then 1 else -1)
      else if CellLess(right, left) then 1
      else if CellLess(left, right) then -1
      else 0;
    if descending then -order else order
  }

  /** The order of two rows: the first key on which they differ decides. */
  function CompareRows(keys: Keys, a: Row, b: Row, nullsFirst: bool): (r: int)
    ensures -1 <= r <= 1
  {
    if keys == [] then 0
    else
      var order := CompareInOrder(Read(a, keys[0].name), Read(b, keys[0].name), keys[0].descending, nullsFirst);
      if order != 0 then order else CompareRows(keys[1..], a, b, nullsFirst)
  }

  /** The keys with every direction reversed. */
  function Flip(keys: Keys): (r: Keys)
    ensures |r| == |keys|
    ensures forall i | 0 <= i < |keys| :: r[i] == Key(keys[i].name, !keys[i].descending)
  {
    if keys == [] then [] else [Key(keys[0].name, !keys[0].descending)] + Flip(keys[1..])
  }

  // ---- one cell ---------------------------------------------------------------------------

  lemma {:induction false} TextTrichotomy(a: string, b: string)
    ensures a != b <==> TextLess(a, b) || TextLess(b, a)
    ensures !(TextLess(a, b) && TextLess(b, a))
  {
    if a != [] && b != [] {
      TextTrichotomy(a[1..], b[1..]);
      assert a == [a[0]] + a[1..] && b == [b[0]] + b[1..];
    }
  }

  lemma {:induction false} TextTransitive(a: string, b: string, c: string)
    requires TextLess(a, b) && TextLess(b, c)
    ensures TextLess(a, c)
  {
    if a != [] && a[0] == b[0] == c[0] {
      TextTransitive(a[1..], b[1..], c[1..]);
    }
  }

  /** Swapping the operands negates the comparison. */
  lemma CellAntisymmetric(a: Cell, b: Cell, descending: bool, nullsFirst: bool)
    ensures CompareInOrder(a, b, descending, nullsFirst) == -CompareInOrder(b, a, descending, nullsFirst)
  {
    if a.Text? && b.Text? {
      TextTrichotomy(a.s, b.s);
    }
  }

  /** Equal in the order means equal, except for values that do not compare. */
  lemma CellZero(a: Cell, b: Cell, descending: bool, nullsFirst: bool)
    ensures CompareInOrder(a, b, descending, nullsFirst) == 0 <==> a == b || !Comparable(a, b)
  {
    if a.Text? && b.Text? {
      TextTrichotomy(a.s, b.s);
    }
  }

  lemma CellTransitive(a: Cell, b: Cell, c: Cell, descending: bool, nullsFirst: bool)
    requires Comparable(a, b) && Comparable(b, c) && Comparable(a, c)
    requires CompareInOrder(a, b, descending, nullsFirst) < 0
    requires CompareInOrder(b, c, descending, nullsFirst) < 0
    ensures CompareInOrder(a, c, descending, nullsFirst) < 0
  {
    if a.Text? && b.Text? && c.Text? {
      TextTrichotomy(a.s, b.s);
      TextTrichotomy(b.s, c.s);
      TextTrichotomy(a.s, c.s);
      if descending {
        TextTransitive(c.s, b.s, a.s);
      } else {
        TextTransitive(a.s, b.s, c.s);
      }
    }
  }

  /** Reversing the direction negates the comparison, NULLs included. */
  lemma CellFlip(a: Cell, b: Cell, descending: bool, nullsFirst: bool)
    ensures CompareInOrder(a, b, !descending, nullsFirst) == -CompareInOrder(a, b, descending, nullsFirst)
  {
  }

  // ---- rows ---------------------------------------------------------------------------------

  /** The rows agree on every key. */
  ghost predicate SameKeys(keys: Keys, a: Row, b: Row) {
    forall k | k in keys :: Read(a, k.name) == Read(b, k.name)
  }

  lemma TypedComparable(schema: Schema, keys: Keys, a: Row, b: Row, i: nat)
    requires Typed(schema, keys, a) && Typed(schema, keys, b) && i < |keys|
    ensures Comparable(Read(a, keys[i].name), Read(b, keys[i].name))
  {
    assert keys[i] in keys;
  }

  lemma {:induction false} RowsAntisymmetric(keys: Keys, a: Row, b: Row, nullsFirst: bool)
    ensures CompareRows(keys, a, b, nullsFirst) == -CompareRows(keys, b, a, nullsFirst)
  {
    if keys != [] {
      CellAntisymmetric(Read(a, keys[0].name), Read(b, keys[0].name), keys[0].descending, nullsFirst);
      RowsAntisymmetric(keys[1..], a, b, nullsFirst);
    }
  }

  /** On typed rows the order is zero exactly for rows with the same key tuple. */
  lemma {:induction false} RowsZero(schema: Schema, keys: Keys, a: Row, b: Row, nullsFirst: bool)
    requires Typed(schema, keys, a) && Typed(schema, keys, b)
    ensures CompareRows(keys, a, b, nullsFirst) == 0 <==> SameKeys(keys, a, b)
  {
    if keys != [] {
      TypedComparable(schema, keys, a, b, 0);
      CellZero(Read(a, keys[0].name), Read(b, keys[0].name), keys[0].descending, nullsFirst);
      RowsZero(schema, keys[1..], a, b, nullsFirst);
      assert forall k :: k in keys <==> k == keys[0] || k in keys[1..];
    }
  }

  /** A row with the key tuple of another takes its place in every comparison. */
  lemma {:induction false} RowsCongruent(keys: Keys, a: Row, b: Row, c: Row, nullsFirst: bool)
    requires SameKeys(keys, a, b)
    ensures CompareRows(keys, a, c, nullsFirst) == CompareRows(keys, b, c, nullsFirst)
    ensures CompareRows(keys, c, a, nullsFirst) == CompareRows(keys, c, b, nullsFirst)
  {
    if keys != [] {
      assert keys[0] in keys;
      RowsCongruent(keys[1..], a, b, c, nullsFirst);
    }
  }

  lemma {:induction false} RowsTransitive(schema: Schema, keys: Keys, a: Row, b: Row, c: Row, nullsFirst: bool)
    requires Typed(schema, keys, a) && Typed(schema, keys, b) && Typed(schema, keys, c)
    requires CompareRows(keys, a, b, nullsFirst) <= 0 && CompareRows(keys, b, c, nullsFirst) <= 0
    ensures CompareRows(keys, a, c, nullsFirst) <= 0
    ensures CompareRows(keys, a, c, nullsFirst) == 0 ==>
      CompareRows(keys, a, b, nullsFirst) == 0 && CompareRows(keys, b, c, nullsFirst) == 0
  {
    if keys != [] {
      var x, y, z, d := Read(a, keys[0].name), Read(b, keys[0].name), Read(c, keys[0].name), keys[0].descending;
      TypedComparable(schema, keys, a, b, 0);
      TypedComparable(schema, keys, b, c, 0);
      TypedComparable(schema, keys, a, c, 0);
      CellZero(x, y, d, nullsFirst);
      CellZero(y, z, d, nullsFirst);
      if x == y && y == z {
        RowsTransitive(schema, keys[1..], a, b, c, nullsFirst);
      } else if x != y && y != z {
        CellTransitive(x, y, z, d, nullsFirst);
      }
    }
  }

  /** Reversing every direction reverses the order of rows, NULLs included. */
  lemma {:induction false} RowsFlip(keys: Keys, a: Row, b: Row, nullsFirst: bool)
    ensures CompareRows(Flip(keys), a, b, nullsFirst) == -CompareRows(keys, a, b, nullsFirst)
  {
    if keys != [] {
      CellFlip(Read(a, keys[0].name), Read(b, keys[0].name), keys[0].descending, nullsFirst);
      assert Flip(keys)[1..] == Flip(keys[1..]);
      RowsFlip(keys[1..], a, b, nullsFirst);
    }
  }

  /** Values of two kinds in one column break the order: each equals the text, yet the numbers differ. */
  lemma MixedKindsAreNoOrder()
    ensures CompareInOrder(Num(1), Text("a"), false, true) == 0
    ensures CompareInOrder(Text("a"), Num(2), false, true) == 0
    ensures CompareInOrder(Num(1), Num(2), false, true) < 0
  {
  }
}
