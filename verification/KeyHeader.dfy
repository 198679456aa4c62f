/** The Idempotency-Key header: the client prints the key as a Structured Field string (section 3.3.3 of RFC 8941),
    the server parses it. */
module KeyHeader {
  import opened Basics

  predicate Printable(c: char) {
    ' ' <= c <= '~'
  }

  predicate IsKey(key: string) {
    key != "" && forall c | c in key :: Printable(c)
  }

  // ---- the client -------------------------------------------------------------------------------------------

  /** A quote and a backslash take a backslash before them. */
  function Piece(c: char): string {
    if c == '"' || c == '\\' then ['\\', c] else [c]
  }

  function Escaped(key: string): string {
    if key == "" then "" else Piece(key[0]) + Escaped(key[1..])
  }

  /** The header value; None for an empty key or one with a character outside printable ASCII. */
  function Header(key: string): Option<string> {
    if IsKey(key) then Some("\"" + Escaped(key) + "\"") else None
  }

  // ---- the server -------------------------------------------------------------------------------------------

  predicate Blank(c: char) {
    c == ' ' || c == '\t'
  }

  function StripLeft(text: string): string {
    if text != "" && Blank(text[0]) then StripLeft(text[1..]) else text
  }

  function StripRight(text: string): string {
    if text != "" && Blank(text[|text| - 1]) then StripRight(text[..|text| - 1]) else text
  }

  /** `text` without the blanks around it. */
  function Strip(text: string): string {
    StripRight(StripLeft(text))
  }

  /** The key of a header value, or None for what is no non-empty string of it. */
  method ParseKey(value: string) returns (key: Option<string>)
    ensures key.Some? ==> Header(key.value) == Some(Strip(value))
    ensures key.None? ==> forall k: string :: Header(k) != Some(Strip(value))
  {
    var text := Strip(value);
    if |text| < 2 || text[0] != '"' {
      NoHeader(text);
      return None;
    }
    var chars := "";
    var index := 1;
    assert text[..1] == "\"" + Escaped("");
    while index < |text|
      invariant 1 <= index <= |text| && text[0] == '"'
      invariant text[..index] == "\"" + Escaped(chars)
      invariant forall c | c in chars :: Printable(c)
      decreases |text| - index
    {
      var c := text[index];
      if c == '\\' {
        if index + 1 >= |text| || (text[index + 1] != '"' && text[index + 1] != '\\') {
          BadEscape(text, chars, index);
          return None;
        }
        assert text[index..index + 2] == Piece(text[index + 1]);
        ReadOn(text, chars, index, text[index + 1]);
        chars := chars + [text[index + 1]];
        index := index + 2;
      } else if c == '"' {
        if index != |text| - 1 || chars == "" {
          EarlyQuote(text, chars, index);
          return None;
        }
        assert text == text[..index] + "\"";
        return Some(chars);
      } else if !(' ' <= c <= '~') {
        BadChar(text, chars, index);
        return None;
      } else {
        ReadOn(text, chars, index, c);
        chars := chars + [c];
        index := index + 1;
      }
    }
    Unclosed(text, chars);
    return None;
  }

  lemma {:induction false} EscapedAppend(key: string, c: char)
    ensures Escaped(key + [c]) == Escaped(key) + Piece(c)
    decreases |key|
  {
    if key == "" {
      assert [c][1..] == "";
    } else {
      assert (key + [c])[1..] == key[1..] + [c];
      EscapedAppend(key[1..], c);
    }
  }

  lemma ReadOn(text: string, chars: string, index: nat, c: char)
    requires index <= |text| && text[..index] == "\"" + Escaped(chars)
    requires index + |Piece(c)| <= |text| && text[index..index + |Piece(c)|] == Piece(c)
    ensures text[..index + |Piece(c)|] == "\"" + Escaped(chars + [c])
  {
    EscapedAppend(chars, c);
    assert text[..index + |Piece(c)|] == text[..index] + text[index..index + |Piece(c)|];
  }

  lemma NoHeader(text: string)
    requires |text| < 2 || text[0] != '"'
    ensures forall k: string :: Header(k) != Some(text)
  {
  }

  /** A text that starts with an escaped `done` and is an escaped key and a quote: the key starts with `done`, and
      what follows is the rest of it, escaped, and the quote. */
  lemma {:induction false} RestOf(done: string, tail: string, key: string)
    requires Escaped(done) + tail == Escaped(key) + "\""
    ensures done <= key && tail == Escaped(key[|done|..]) + "\""
    decreases |done|
  {
    if done == "" {
      assert key[0..] == key && Escaped("") + tail == tail;
    } else {
      SameFirst(done, tail, key);
      RestOf(done[1..], tail, key[1..]);
      assert key[1..][|done| - 1..] == key[|done|..];
      assert done == [done[0]] + done[1..] && key == [key[0]] + key[1..];
    }
  }

  lemma SameFirst(done: string, tail: string, key: string)
    requires done != "" && Escaped(done) + tail == Escaped(key) + "\""
    ensures key != "" && key[0] == done[0]
    ensures Escaped(done[1..]) + tail == Escaped(key[1..]) + "\""
  {
    Regroup(Piece(done[0]), Escaped(done[1..]), tail);
    NoPieceIsQuote(done[0], Escaped(done[1..]) + tail);
    if key != "" {
      Regroup(Piece(key[0]), Escaped(key[1..]), "\"");
      SplitPieces(done[0], key[0], Escaped(done[1..]) + tail, Escaped(key[1..]) + "\"");
    }
  }

  lemma Regroup(a: string, b: string, c: string)
    ensures a + b + c == a + (b + c)
  {
  }

  lemma NoPieceIsQuote(c: char, rest: string)
    ensures Piece(c) + rest != "" + "\""
  {
    assert (Piece(c) + rest)[0] == Piece(c)[0];
  }

  lemma SplitPieces(c: char, d: char, u: string, v: string)
    requires Piece(c) + u == Piece(d) + v
    ensures c == d && u == v
  {
    var whole := Piece(c) + u;
    assert whole[0] == Piece(c)[0] == Piece(d)[0];
    if |Piece(c)| == 2 {
      assert whole[1] == Piece(c)[1] == Piece(d)[1];
    }
    assert u == whole[|Piece(c)|..] && v == whole[|Piece(d)|..];
  }

  /** What can come next in a header after an escaped `chars`: the closing quote, when some key was read; a backslash
      and what it escapes; or another printable character. */
  lemma CutAt(text: string, chars: string, index: nat, key: string)
    requires 1 <= index <= |text| && text[..index] == "\"" + Escaped(chars) && Header(key) == Some(text)
    ensures index < |text| && Printable(text[index])
    ensures text[index] == '"' ==> index == |text| - 1 && chars != ""
    ensures text[index] == '\\' ==> index + 1 < |text| && (text[index + 1] == '"' || text[index + 1] == '\\')
  {
    Regroup("\"", Escaped(key), "\"");
    Unquoted(text, Escaped(chars), index, Escaped(key) + "\"");
    RestOf(chars, text[index..], key);
    TailStarts(text[index..], key, |chars|);
  }

  lemma Unquoted(text: string, start: string, index: nat, body: string)
    requires index <= |text| && text[..index] == "\"" + start && text == "\"" + body
    ensures start + text[index..] == body
  {
    assert text == text[..index] + text[index..];
    assert body == text[1..];
  }

  lemma TailStarts(tail: string, key: string, n: nat)
    requires IsKey(key) && n <= |key| && tail == Escaped(key[n..]) + "\""
    ensures tail != "" && Printable(tail[0])
    ensures tail[0] == '"' ==> |tail| == 1 && n == |key|
    ensures tail[0] == '\\' ==> |tail| > 1 && (tail[1] == '"' || tail[1] == '\\')
  {
    if n == |key| {
      assert key[n..] == "";
    } else {
      assert key[n..][0] == key[n] && key[n] in key;
      assert tail[0] == Piece(key[n])[0];
      assert |Piece(key[n])| == 2 ==> tail[1] == Piece(key[n])[1];
    }
  }

  lemma BadEscape(text: string, chars: string, index: nat)
    requires 1 <= index < |text| && text[..index] == "\"" + Escaped(chars) && text[index] == '\\'
    requires index + 1 >= |text| || (text[index + 1] != '"' && text[index + 1] != '\\')
    ensures forall k: string :: Header(k) != Some(text)
  {
    forall k: string
      ensures Header(k) != Some(text)
    {
      if Header(k) == Some(text) {
        CutAt(text, chars, index, k);
      }
    }
  }

  lemma EarlyQuote(text: string, chars: string, index: nat)
    requires 1 <= index < |text| && text[..index] == "\"" + Escaped(chars) && text[index] == '"'
    requires index != |text| - 1 || chars == ""
    ensures forall k: string :: Header(k) != Some(text)
  {
    forall k: string
      ensures Header(k) != Some(text)
    {
      if Header(k) == Some(text) {
        CutAt(text, chars, index, k);
      }
    }
  }

  lemma BadChar(text: string, chars: string, index: nat)
    requires 1 <= index < |text| && text[..index] == "\"" + Escaped(chars) && !Printable(text[index])
    ensures forall k: string :: Header(k) != Some(text)
  {
    forall k: string
      ensures Header(k) != Some(text)
    {
      if Header(k) == Some(text) {
        CutAt(text, chars, index, k);
      }
    }
  }

  lemma Unclosed(text: string, chars: string)
    requires |text| >= 1 && text == "\"" + Escaped(chars)
    ensures forall k: string :: Header(k) != Some(text)
  {
    assert text[..|text|] == text;
    forall k: string
      ensures Header(k) != Some(text)
    {
      if Header(k) == Some(text) {
        CutAt(text, chars, |text|, k);
      }
    }
  }

  // ---- the round trip ---------------------------------------------------------------------------------------

  lemma {:induction false} EscapedIsInjective(a: string, b: string)
    requires Escaped(a) == Escaped(b)
    ensures a == b
    decreases |a|
  {
    if a != "" && b != "" {
      SplitPieces(a[0], b[0], Escaped(a[1..]), Escaped(b[1..]));
      EscapedIsInjective(a[1..], b[1..]);
      assert a == [a[0]] + a[1..] && b == [b[0]] + b[1..];
    } else {
      assert a != "" ==> Escaped(a) != "";
      assert b != "" ==> Escaped(b) != "";
    }
  }

  lemma HeaderIsStripped(key: string)
    requires IsKey(key)
    ensures Strip(Header(key).value) == Header(key).value
  {
  }

  /** Parsing what the client printed gives the key back. */
  method RoundTrip(key: string) returns (parsed: Option<string>)
    requires IsKey(key)
    ensures parsed == Some(key)
  {
    HeaderIsStripped(key);
    var text := Header(key).value;
    parsed := ParseKey(text);
    if parsed.Some? {
      var a, b := Escaped(parsed.value), Escaped(key);
      assert a == ("\"" + a + "\"")[1..|a| + 1] && b == ("\"" + b + "\"")[1..|b| + 1];
      EscapedIsInjective(parsed.value, key);
    }
  }

  // ---- the blanks around a header ---------------------------------------------------------------------------

  predicate AllBlank(text: string) {
    forall c | c in text :: Blank(c)
  }

  /** Strip takes off the blanks at both ends and nothing else. */
  lemma StripTakesBlanks(before: string, text: string, after: string)
    requires AllBlank(before) && AllBlank(after)
    requires text != "" ==> !Blank(text[0]) && !Blank(text[|text| - 1])
    ensures Strip(before + text + after) == text
  {
    assert before + text + after == before + (text + after);
    if text == "" {
      assert before + (text + after) == (before + after) + "";
      LeftBlanks(before + after, "");
    } else {
      assert (text + after)[0] == text[0];
      LeftBlanks(before, text + after);
      RightBlanks(text, after);
    }
  }

  lemma {:induction false} LeftBlanks(blanks: string, rest: string)
    requires AllBlank(blanks) && (rest != "" ==> !Blank(rest[0]))
    ensures StripLeft(blanks + rest) == rest
  {
    if blanks == "" {
      assert blanks + rest == rest;
    } else {
      assert (blanks + rest)[0] == blanks[0] && blanks[0] in blanks && (blanks + rest)[1..] == blanks[1..] + rest;
      LeftBlanks(blanks[1..], rest);
    }
  }

  lemma {:induction false} RightBlanks(rest: string, blanks: string)
    requires AllBlank(blanks) && (rest != "" ==> !Blank(rest[|rest| - 1]))
    ensures StripRight(rest + blanks) == rest
    decreases |blanks|
  {
    if blanks == "" {
      assert rest + blanks == rest;
    } else {
      var n := |blanks| - 1;
      assert (rest + blanks)[|rest + blanks| - 1] == blanks[n] && blanks[n] in blanks;
      assert (rest + blanks)[..|rest + blanks| - 1] == rest + blanks[..n];
      RightBlanks(rest, blanks[..n]);
    }
  }

  /** So a header is read whatever blanks stand around it. */
  method ParsePadded(key: string, before: string, after: string) returns (parsed: Option<string>)
    requires IsKey(key) && AllBlank(before) && AllBlank(after)
    ensures parsed == Some(key)
  {
    var text := Header(key).value;
    StripTakesBlanks(before, text, after);
    parsed := ParseKey(before + text + after);
    if parsed.Some? {
      var a, b := Escaped(parsed.value), Escaped(key);
      assert a == ("\"" + a + "\"")[1..|a| + 1] && b == ("\"" + b + "\"")[1..|b| + 1];
      EscapedIsInjective(parsed.value, key);
    }
  }
}
