/** The `sort` parameter: the client prints and parses it, the server parses it twice over, for a request and for a
    declared default. `isSpace` is what a language's trim removes. */
module SortParam {
  import opened Basics

  datatype Direction = Asc | Desc

  datatype Column = Column(name: string, direction: Direction)

  type Space = char -> bool

  // ---- text ------------------------------------------------------------------------------------------------

  /** The parts between the commas; one part for a text without any. */
  function Split(text: string): (parts: seq<string>)
    ensures |parts| >= 1
  {
    if text == "" then [""]
    else
      var rest := Split(text[1..]);
      if text[0] == ',' then [""] + rest else [[text[0]] + rest[0]] + rest[1..]
  }

  function Join(parts: seq<string>): string {
    if parts == [] then ""
    else if |parts| == 1 then parts[0]
    else parts[0] + "," + Join(parts[1..])
  }

  /** The index of the first character from `i` on that is no space. */
  function TextStart(text: string, i: nat, isSpace: Space): (start: nat)
    requires i <= |text|
    ensures i <= start <= |text|
    decreases |text| - i
  {
    if i < |text| && isSpace(text[i]) then TextStart(text, i + 1, isSpace) else i
  }

  /** The index after the last character in [start, i) that is no space. */
  function TextEnd(text: string, start: nat, i: nat, isSpace: Space): (end: nat)
    requires start <= i <= |text|
    ensures start <= end <= i
  {
    if start < i && isSpace(text[i - 1]) then TextEnd(text, start, i - 1, isSpace) else i
  }

  function Trim(text: string, isSpace: Space): string {
    var start := TextStart(text, 0, isSpace);
    text[start..TextEnd(text, start, |text|, isSpace)]
  }

  /** The index of the last colon before `i`, or -1. */
  function ColonBefore(text: string, i: nat): (colon: int)
    requires i <= |text|
    ensures -1 <= colon < i
  {
    if i == 0 then -1 else if text[i - 1] == ':' then i - 1 else ColonBefore(text, i - 1)
  }

  function LastColon(text: string): (colon: int)
    ensures -1 <= colon < |text|
  {
    ColonBefore(text, |text|)
  }

  function DirectionOf(text: string): Option<Direction> {
    if text == "asc" then Some(Asc) else if text == "desc" then Some(Desc) else None
  }

  function Text(d: Direction): string {
    match d
    case Asc => "asc"
    case Desc => "desc"
  }

  // ---- what an entry means ---------------------------------------------------------------------------------

  /** A trimmed entry's column and direction: the part after the last colon, or "asc" without a colon that has a
      column before it. */
  function Parts(entry: string): (string, string) {
    var colon := LastColon(entry);
    if colon > 0 then (entry[..colon], entry[colon + 1..]) else (entry, "asc")
  }

  function EntryOf(entry: string): Option<Column> {
    var (name, direction) := Parts(entry);
    if entry == "" || DirectionOf(direction).None? then None
    else Some(Column(name, DirectionOf(direction).value))
  }

  type Reader = string -> Option<Column>

  function Reading(isSpace: Space): Reader {
    (entry: string) => EntryOf(Trim(entry, isSpace))
  }

  /** The columns of the entries that can be read. */
  function ReadAll(entries: seq<string>, read: Reader): seq<Column> {
    if entries == [] then []
    else
      var c := read(entries[|entries| - 1]);
      ReadAll(entries[..|entries| - 1], read) + if c.Some? then [c.value] else []
  }

  /** What a `sort` text means. */
  function StateOf(sort: string, isSpace: Space): seq<Column> {
    ReadAll(Split(sort), Reading(isSpace))
  }

  function Printed(c: Column): string {
    c.name + ":" + Text(c.direction)
  }

  function PrintedAll(state: seq<Column>): seq<string> {
    seq(|state|, i requires 0 <= i < |state| => Printed(state[i]))
  }

  // ---- the client ------------------------------------------------------------------------------------------

  method ParseSort(sort: Option<string>, isSpace: Space) returns (state: seq<Column>)
    ensures state == StateOf(if sort.Some? then sort.value else "", isSpace)
  {
    var raw := Split(if sort.Some? then sort.value else "");
    state := [];
    ghost var read := Reading(isSpace);
    for i := 0 to |raw|
      invariant state == ReadAll(raw[..i], read)
    {
      ReadNext(raw, i, read);
      var c := ParseEntry(Trim(raw[i], isSpace));
      if c.Some? {
        state := state + [c.value];
      }
    }
    assert raw[..|raw|] == raw;
  }

  /** One entry, by the index of its last colon. */
  method ParseEntry(entry: string) returns (c: Option<Column>)
    ensures c == EntryOf(entry)
  {
    if entry == "" {
      return None;
    }
    var colon := LastColon(entry);
    var name := if colon > 0 then entry[..colon] else entry;
    var direction := if colon > 0 then entry[colon + 1..] else "asc";
    if direction == "asc" {
      return Some(Column(name, Asc));
    }
    if direction == "desc" {
      return Some(Column(name, Desc));
    }
    c := None;
  }

  lemma ReadNext(entries: seq<string>, i: nat, read: Reader)
    requires i < |entries|
    ensures ReadAll(entries[..i + 1], read) ==
            ReadAll(entries[..i], read) + if read(entries[i]).Some? then [read(entries[i]).value] else []
  {
    assert entries[..i + 1][..i] == entries[..i];
  }

  // ---- the server ------------------------------------------------------------------------------------------

  /** What `rpartition(":")` leaves before and after the last colon; all of it after when there is none. */
  function RPartition(entry: string): (string, string) {
    var colon := LastColon(entry);
    if colon < 0 then ("", entry) else (entry[..colon], entry[colon + 1..])
  }

  method ParseSortParam(sort: Option<string>, isSpace: Space) returns (state: seq<Column>)
    ensures state == StateOf(if sort.Some? then sort.value else "", isSpace)
  {
    state := [];
    if sort.None? || sort.value == "" {
      EmptyState(isSpace);
      return;
    }
    ghost var read := Reading(isSpace);
    var params := Split(sort.value);
    for i := 0 to |params|
      invariant state == ReadAll(params[..i], read)
    {
      ReadNext(params, i, read);
      var c := ParseParam(Trim(params[i], isSpace));
      if c.Some? {
        state := state + [c.value];
      }
    }
    assert params[..|params|] == params;
  }

  lemma EmptyState(isSpace: Space)
    ensures StateOf("", isSpace) == []
  {
    assert [""][..0] == [];
  }

  /** One entry, by what stands before and after its last colon. */
  method ParseParam(param: string) returns (c: Option<Column>)
    ensures c == EntryOf(param)
  {
    if param == "" {
      return None;
    }
    var (column, direction) := RPartition(param);
    if column == "" {
      column, direction := param, "asc";
    }
    var d := DirectionOf(direction);
    c := if d.Some? then Some(Column(column, d.value)) else None;
  }

  datatype Declared = Accepted(state: seq<Column>) | EmptyEntry | BadDirection(entry: string) | UnknownField(name: string)

  /** A declared default: what a request's parser would read from it, or why it is no default. */
  method CheckDeclaredSort(sort: string, fields: Option<set<string>>, isSpace: Space) returns (r: Declared)
    ensures r.Accepted? ==>
      && r.state == StateOf(sort, isSpace) && |r.state| == |Split(sort)|
      && (fields.Some? ==> forall c | c in r.state :: c.name in fields.value)
    ensures r.EmptyEntry? <==> exists e | e in Split(sort) :: Trim(e, isSpace) == ""
    ensures r.BadDirection? ==>
      r.entry != "" && exists e | e in Split(sort) :: Trim(e, isSpace) == r.entry && Reading(isSpace)(e) == None
    ensures r.UnknownField? ==>
      && fields.Some? && r.name !in fields.value
      && exists e | e in Split(sort) :: Reading(isSpace)(e).Some? && Reading(isSpace)(e).value.name == r.name
  {
    var raw := Split(sort);
    var empty := AnyEmpty(raw, isSpace);
    if empty {
      return EmptyEntry;
    }
    var state: seq<Column> := [];
    ghost var read := Reading(isSpace);
    for j := 0 to |raw|
      invariant state == ReadAll(raw[..j], read) && |state| == j
      invariant fields.Some? ==> forall c | c in state :: c.name in fields.value
    {
      ReadNext(raw, j, read);
      var entry := Trim(raw[j], isSpace);
      var c := ParseParam(entry);
      if c.None? {
        assert read(raw[j]) == None && raw[j] in raw;
        return BadDirection(entry);
      }
      if fields.Some? && c.value.name !in fields.value {
        assert read(raw[j]) == c && raw[j] in raw;
        return UnknownField(c.value.name);
      }
      state := state + [c.value];
    }
    assert raw[..|raw|] == raw;
    r := Accepted(state);
  }

  method AnyEmpty(raw: seq<string>, isSpace: Space) returns (empty: bool)
    ensures empty <==> exists e | e in raw :: Trim(e, isSpace) == ""
  {
    for i := 0 to |raw|
      invariant forall e | e in raw[..i] :: Trim(e, isSpace) != ""
    {
      if Trim(raw[i], isSpace) == "" {
        return true;
      }
      assert raw[..i + 1] == raw[..i] + [raw[i]];
    }
    assert raw[..|raw|] == raw;
    empty := false;
  }

  // ---- round trips -----------------------------------------------------------------------------------------

  /** A column whose printed form is read back: not empty, without commas, not starting with a space. */
  predicate Readable(c: Column, isSpace: Space) {
    c.name != "" && ',' !in c.name && !isSpace(c.name[0])
  }

  /** A direction does not end in a space. */
  predicate LettersAreText(isSpace: Space) {
    !isSpace('c')
  }

  lemma PrintedIsTrimmed(c: Column, isSpace: Space)
    requires Readable(c, isSpace) && LettersAreText(isSpace)
    ensures Trim(Printed(c), isSpace) == Printed(c)
  {
    var t := Printed(c);
    assert t[0] == c.name[0];
    assert t[|t| - 1] == Text(c.direction)[|Text(c.direction)| - 1] == 'c';
  }

  lemma {:induction false} ColonBeforeIs(text: string, colon: nat, i: nat)
    requires colon < i <= |text| && text[colon] == ':' && forall k | colon < k < i :: text[k] != ':'
    ensures ColonBefore(text, i) == colon
    decreases i
  {
    if i > colon + 1 {
      ColonBeforeIs(text, colon, i - 1);
    }
  }

  lemma LastColonAt(a: string, b: string)
    requires ':' !in b
    ensures LastColon(a + ":" + b) == |a|
  {
    var t := a + ":" + b;
    forall k | |a| < k < |t|
      ensures t[k] != ':'
    {
      assert t[k] == b[k - |a| - 1] && b[k - |a| - 1] in b;
    }
    ColonBeforeIs(t, |a|, |t|);
  }

  lemma PrintedIsRead(c: Column, isSpace: Space)
    requires Readable(c, isSpace) && LettersAreText(isSpace)
    ensures EntryOf(Trim(Printed(c), isSpace)) == Some(c)
  {
    PrintedIsTrimmed(c, isSpace);
    LastColonAt(c.name, Text(c.direction));
    assert Printed(c)[..|c.name|] == c.name && Printed(c)[|c.name| + 1..] == Text(c.direction);
  }

  lemma {:induction false} SplitConcat(a: string, text: string)
    requires ',' !in a
    ensures Split(a + text) == [a + Split(text)[0]] + Split(text)[1..]
    decreases |a|
  {
    var parts := Split(text);
    if a == "" {
      assert a + text == text && a + parts[0] == parts[0] && [parts[0]] + parts[1..] == parts;
    } else {
      assert (a + text)[1..] == a[1..] + text;
      SplitConcat(a[1..], text);
      assert [a[0]] + (a[1..] + parts[0]) == a + parts[0];
    }
  }

  lemma {:induction false} SplitJoin(parts: seq<string>)
    requires parts != [] && forall p | p in parts :: ',' !in p
    ensures Split(Join(parts)) == parts
    decreases |parts|
  {
    assert parts[0] in parts;
    if |parts| == 1 {
      SplitConcat(parts[0], "");
      assert parts[0] + "" == parts[0];
    } else {
      SplitJoin(parts[1..]);
      var rest := "," + Join(parts[1..]);
      assert rest[1..] == Join(parts[1..]);
      assert Split(rest) == [""] + parts[1..];
      SplitConcat(parts[0], rest);
      assert parts[0] + "," + Join(parts[1..]) == parts[0] + rest;
      assert parts[0] + "" == parts[0];
    }
  }

  lemma {:induction false} ReadPrinted(state: seq<Column>, read: Reader)
    requires forall c | c in state :: read(Printed(c)) == Some(c)
    ensures ReadAll(PrintedAll(state), read) == state
    decreases |state|
  {
    if state != [] {
      var n := |state| - 1;
      PrintedPrefix(state, n);
      ReadPrinted(state[..n], read);
      ReadLast(PrintedAll(state), read, state[n]);
      TakeNext(state, n);
    }
  }

  lemma PrintedPrefix(state: seq<Column>, n: nat)
    requires n < |state|
    ensures PrintedAll(state)[..n] == PrintedAll(state[..n]) && PrintedAll(state)[n] == Printed(state[n])
    ensures state[n] in state && forall c | c in state[..n] :: c in state
  {
  }

  lemma ReadLast(entries: seq<string>, read: Reader, c: Column)
    requires entries != [] && read(entries[|entries| - 1]) == Some(c)
    ensures ReadAll(entries, read) == ReadAll(entries[..|entries| - 1], read) + [c]
  {
  }

  /** Reading what was printed gives the state back, for the client and the server alike. */
  lemma PrintedStateIsRead(state: seq<Column>, isSpace: Space)
    requires LettersAreText(isSpace) && forall c | c in state :: Readable(c, isSpace)
    ensures StateOf(Join(PrintedAll(state)), isSpace) == state
  {
    if state == [] {
      assert [""][..0] == [];
    } else {
      forall p | p in PrintedAll(state)
        ensures ',' !in p
      {
        var i :| 0 <= i < |state| && p == Printed(state[i]);
        assert state[i] in state;
      }
      SplitJoin(PrintedAll(state));
      forall c | c in state
        ensures Reading(isSpace)(Printed(c)) == Some(c)
      {
        PrintedIsRead(c, isSpace);
      }
      ReadPrinted(state, Reading(isSpace));
    }
  }

  /** What the client prints is what both sides read back. */
  method FormatSort(state: seq<Column>) returns (text: string)
    ensures forall isSpace: Space | LettersAreText(isSpace) && (forall c | c in state :: Readable(c, isSpace)) ::
      StateOf(text, isSpace) == state
    ensures text == "" <==> state == []
  {
    text := Join(PrintedAll(state));
    forall isSpace: Space | LettersAreText(isSpace) && (forall c | c in state :: Readable(c, isSpace))
      ensures StateOf(text, isSpace) == state
    {
      PrintedStateIsRead(state, isSpace);
    }
  }

  /** Where two languages trim the same characters of a text, they read the same state from it. */
  lemma SameTrimSameState(sort: string, a: Space, b: Space)
    requires forall c | c in sort :: a(c) == b(c)
    ensures StateOf(sort, a) == StateOf(sort, b)
  {
    SplitIsText(sort);
    SameEntries(Split(sort), a, b);
  }

  lemma SameEntries(entries: seq<string>, a: Space, b: Space)
    requires forall e, c | e in entries && c in e :: a(c) == b(c)
    ensures ReadAll(entries, Reading(a)) == ReadAll(entries, Reading(b))
  {
    forall e | e in entries
      ensures Reading(a)(e) == Reading(b)(e)
    {
      SameReading(e, a, b);
    }
    ReadAlike(entries, Reading(a), Reading(b));
  }

  lemma {:induction false} SplitIsText(text: string)
    ensures forall e, c | e in Split(text) && c in e :: c in text
    decreases |text|
  {
    if text != "" {
      SplitIsText(text[1..]);
      var rest := Split(text[1..]);
      assert rest == [rest[0]] + rest[1..];
      assert text == [text[0]] + text[1..];
      assert rest[0] in rest;
    }
  }

  lemma {:induction false} ReadAlike(entries: seq<string>, a: Reader, b: Reader)
    requires forall e | e in entries :: a(e) == b(e)
    ensures ReadAll(entries, a) == ReadAll(entries, b)
    decreases |entries|
  {
    if entries != [] {
      ReadAlike(entries[..|entries| - 1], a, b);
      assert entries[|entries| - 1] in entries;
    }
  }

  lemma SameReading(entry: string, a: Space, b: Space)
    requires forall c | c in entry :: a(c) == b(c)
    ensures Reading(a)(entry) == Reading(b)(entry)
  {
    SameTrim(entry, a, b);
  }

  lemma SameTrim(text: string, a: Space, b: Space)
    requires forall c | c in text :: a(c) == b(c)
    ensures Trim(text, a) == Trim(text, b)
  {
    SameStart(text, 0, a, b);
    SameEnd(text, TextStart(text, 0, a), |text|, a, b);
  }

  lemma {:induction false} SameStart(text: string, i: nat, a: Space, b: Space)
    requires i <= |text| && forall c | c in text :: a(c) == b(c)
    ensures TextStart(text, i, a) == TextStart(text, i, b)
    decreases |text| - i
  {
    if i < |text| {
      assert text[i] in text;
      SameStart(text, i + 1, a, b);
    }
  }

  lemma {:induction false} SameEnd(text: string, start: nat, i: nat, a: Space, b: Space)
    requires start <= i <= |text| && forall c | c in text :: a(c) == b(c)
    ensures TextEnd(text, start, i, a) == TextEnd(text, start, i, b)
    decreases i
  {
    if start < i {
      assert text[i - 1] in text;
      SameEnd(text, start, i - 1, a, b);
    }
  }

  // ---- what an entry means ---------------------------------------------------------------------------------------

  predicate AllSpace(text: string, isSpace: Space) {
    forall c | c in text :: isSpace(c)
  }

  /** Trim takes off the spaces at both ends and nothing else. */
  lemma TrimTakesSpaces(before: string, text: string, after: string, isSpace: Space)
    requires AllSpace(before, isSpace) && AllSpace(after, isSpace)
    requires text != "" && !isSpace(text[0]) && !isSpace(text[|text| - 1])
    ensures Trim(before + text + after, isSpace) == text
  {
    var whole := before + text + after;
    StartIs(whole, |before|, 0, isSpace);
    assert whole[|before| + |text| - 1] == text[|text| - 1];
    EndIs(whole, |before|, |before| + |text|, |whole|, isSpace);
    assert whole[|before|..|before| + |text|] == text;
  }

  lemma {:induction false} StartIs(text: string, start: nat, i: nat, isSpace: Space)
    requires i <= start < |text| && !isSpace(text[start]) && forall k | i <= k < start :: isSpace(text[k])
    ensures TextStart(text, i, isSpace) == start
    decreases start - i
  {
    if i < start {
      StartIs(text, start, i + 1, isSpace);
    }
  }

  lemma {:induction false} EndIs(text: string, start: nat, end: nat, i: nat, isSpace: Space)
    requires start < end <= i <= |text| && !isSpace(text[end - 1]) && forall k | end <= k < i :: isSpace(text[k])
    ensures TextEnd(text, start, i, isSpace) == end
    decreases i
  {
    if end < i {
      EndIs(text, start, end, i - 1, isSpace);
    }
  }

  /** A trimmed entry by its last colon: a name alone is ascending, and so is a text whose only colon comes first;
      what follows a later colon must be a direction. */
  lemma EntryExactly(name: string, tail: string)
    requires name != "" && ':' !in tail
    ensures ':' !in name ==> EntryOf(name) == Some(Column(name, Asc))
    ensures EntryOf(":" + tail) == Some(Column(":" + tail, Asc))
    ensures EntryOf(name + ":" + tail) ==
      if tail == "asc" then Some(Column(name, Asc)) else if tail == "desc" then Some(Column(name, Desc)) else None
    ensures EntryOf("") == None
  {
    if ':' !in name {
      NoColon(name, |name|);
    }
    ColonBeforeIs(":" + tail, 0, |":" + tail|);
    var entry := name + ":" + tail;
    ColonBeforeIs(entry, |name|, |entry|);
    assert entry[..|name|] == name && entry[|name| + 1..] == tail;
  }

  lemma {:induction false} NoColon(text: string, i: nat)
    requires i <= |text| && forall c | c in text :: c != ':'
    ensures ColonBefore(text, i) == -1
  {
    if i > 0 {
      assert text[i - 1] in text;
      NoColon(text, i - 1);
    }
  }
}
