/** String escaping for control messages (intent_json.cpp, `quote`), against an independent reader of the string
    grammar of section 7 of RFC 8259. */
module JsonStrings {
  import opened Results

  const QUOTE: char := '"'
  const BACKSLASH: char := '\\'
  const BACKSPACE: char := '\U{08}'
  const FORM_FEED: char := '\U{0C}'

  /** A `std::string` holds bytes. */
  predicate Bytes(s: string) { forall i :: 0 <= i < |s| ==> s[i] as int < 256 }

  function HexDigit(n: nat): char
    requires n < 16
  {
    "0123456789abcdef"[n]
  }

  /** What one byte is written as. */
  function Escaped(c: char): string
    requires c as int < 256
  {
    if c == QUOTE || c == BACKSLASH then [BACKSLASH, c]
    else if c == BACKSPACE then [BACKSLASH, 'b']
    else if c == FORM_FEED then [BACKSLASH, 'f']
    else if c == '\n' then [BACKSLASH, 'n']
    else if c == '\r' then [BACKSLASH, 'r']
    else if c == '\t' then [BACKSLASH, 't']
    else if c as int < 0x20 then [BACKSLASH, 'u', '0', '0', HexDigit(c as int / 16), HexDigit(c as int % 16)]
    else [c]
  }

  function EscapedAll(s: string): string
    requires Bytes(s)
  {
    if s == "" then "" else Escaped(s[0]) + EscapedAll(s[1..])
  }

  /** `quote`. */
  method Quote(value: string) returns (out: string)
    requires Bytes(value)
    ensures out == [QUOTE] + EscapedAll(value) + [QUOTE]
  {
    out := [QUOTE];
    var i := 0;
    assert value[0..] == value;
    while i < |value|
      invariant 0 <= i <= |value|
      invariant out + EscapedAll(value[i..]) == [QUOTE] + EscapedAll(value)
    {
      assert value[i..][0] == value[i] && value[i..][1..] == value[i + 1..];
      assert out + (Escaped(value[i]) + EscapedAll(value[i + 1..])) == out + Escaped(value[i]) + EscapedAll(value[i + 1..]);
      out := out + Escaped(value[i]);
      i := i + 1;
    }
    out := out + [QUOTE];
  }

  // ----- reading a string back ------------------------------------------------------------------------------

  function HexValue(c: char): (r: Option<nat>)
    ensures r.Some? ==> r.value < 16
  {
    if '0' <= c <= '9' then Some(c as int - '0' as int)
    else if 'a' <= c <= 'f' then Some(c as int - 'a' as int + 10)
    else if 'A' <= c <= 'F' then Some(c as int - 'A' as int + 10)
    else None
  }

  /** The code of four hexadecimal digits. */
  function HexCode(s: string): (r: Option<nat>)
    requires |s| == 4
    ensures r.Some? ==> r.value < 0x1_0000
  {
    var a :- HexValue(s[0]);
    var b :- HexValue(s[1]);
    var c :- HexValue(s[2]);
    var d :- HexValue(s[3]);
    Some(((a * 16 + b) * 16 + c) * 16 + d)
  }

  /** The character a two-character escape stands for. */
  function ShortEscape(c: char): Option<char> {
    if c == QUOTE || c == BACKSLASH || c == '/' then Some(c)
    else if c == 'b' then Some(BACKSPACE)
    else if c == 'f' then Some(FORM_FEED)
    else if c == 'n' then Some('\n')
    else if c == 'r' then Some('\r')
    else if c == 't' then Some('\t')
    else None
  }

  /** The characters of a string up to its closing quotation mark, which must end the text.  Control characters
      must be escaped; surrogate escapes are not read. */
  function Characters(s: string): Option<string>
    decreases |s|
  {
    if s == "" then None
    else if s[0] == QUOTE then (if |s| == 1 then Some("") else None)
    else if s[0] as int < 0x20 then None
    else if s[0] != BACKSLASH then
      var rest :- Characters(s[1..]);
      Some([s[0]] + rest)
    else if |s| == 1 then None
    else if s[1] == 'u' then
      if |s| < 6 then None
      else
        var code :- HexCode(s[2..6]);
        if 0xD800 <= code < 0xE000 then None
        else
          var rest :- Characters(s[6..]);
          Some([code as char] + rest)
    else
      var c :- ShortEscape(s[1]);
      var rest :- Characters(s[2..]);
      Some([c] + rest)
  }

  /** A JSON string text. */
  function Unquote(s: string): Option<string> {
    if s == "" || s[0] != QUOTE then None else Characters(s[1..])
  }

  /** Reading one escaped byte gives that byte. */
  lemma {:induction false} EscapedReads(c: char, tail: string, rest: string)
    requires c as int < 256 && Characters(tail) == Some(rest)
    ensures Characters(Escaped(c) + tail) == Some([c] + rest)
  {
    var e := Escaped(c);
    assert (e + tail)[|e|..] == tail;
    if e[0] == BACKSLASH {
      assert (e + tail)[1] == e[1];
      if e[1] == 'u' {
        assert (e + tail)[2..6] == e[2..6];
        HexRoundTrip(c as int / 16);
        HexRoundTrip(c as int % 16);
        assert HexCode(e[2..6]) == Some(c as int);
      }
    }
  }

  lemma {:induction false} HexRoundTrip(n: nat)
    requires n < 16
    ensures HexValue(HexDigit(n)) == Some(n)
  {
  }

  lemma {:induction false} CharactersRead(s: string)
    requires Bytes(s)
    ensures Characters(EscapedAll(s) + [QUOTE]) == Some(s)
  {
    if s == "" {
      assert EscapedAll(s) + [QUOTE] == [QUOTE];
    } else {
      CharactersRead(s[1..]);
      EscapedReads(s[0], EscapedAll(s[1..]) + [QUOTE], s[1..]);
      assert Escaped(s[0]) + (EscapedAll(s[1..]) + [QUOTE]) == EscapedAll(s) + [QUOTE];
      assert [s[0]] + s[1..] == s;
    }
  }

  /** Unescaping what `quote` writes gives back every string, and what it writes is a string of the grammar. */
  lemma {:induction false} QuoteRoundTrip(s: string)
    requires Bytes(s)
    ensures Unquote([QUOTE] + EscapedAll(s) + [QUOTE]) == Some(s)
  {
    CharactersRead(s);
    assert ([QUOTE] + EscapedAll(s) + [QUOTE])[1..] == EscapedAll(s) + [QUOTE];
  }
}
