/**
 * `JSON.stringify` on a string, as the read compiler uses it to quote a type
 * name in an error message, together with the decoder `JSON.parse` applies to
 * such a literal, so that the quoting can be shown to lose nothing.
 */
module Json {
  import opened Js

  function HexDigit(d: nat): char
    requires d < 16
  {
    "0123456789abcdef"[d]
  }

  function HexValue(c: char): (r: Option<nat>)
    ensures r.Some? ==> r.value < 16
  {
    if '0' <= c <= '9' then Some(c as int - '0' as int)
    else if 'a' <= c <= 'f' then Some(c as int - 'a' as int + 10)
    else if 'A' <= c <= 'F' then Some(c as int - 'A' as int + 10)
    else None
  }

  /** One character as `JSON.stringify` writes it inside a string literal:
      the quote and the backslash are escaped, the five control characters
      with short escapes use them, every other control character becomes
      `\u00XX` in lower-case hex, and the rest is copied. */
  function EscapeChar(c: char): string {
    if ShortEscapeOf(c).Some? then ['\\', ShortEscapeOf(c).value]
    else if (c as int) < 0x20 then "\\u00" + [HexDigit(c as int / 16), HexDigit(c as int % 16)]
    else [c]
  }

  function Escape(s: string): string {
    if s == [] then [] else EscapeChar(s[0]) + Escape(s[1..])
  }

  /** `JSON.stringify(s)` for a string `s`. */
  function Quote(s: string): string {
    "\"" + Escape(s) + "\""
  }

  function Prepend(c: char, r: Option<string>): Option<string> {
    if r.Some? then Some([c] + r.value) else None
  }

  /** The value of four hex digits. */
  function Hex4(s: string): (r: Option<nat>)
    requires |s| == 4
    ensures r.Some? ==> r.value < 0x10000
  {
    var a := HexValue(s[0]);
    var b := HexValue(s[1]);
    var c := HexValue(s[2]);
    var d := HexValue(s[3]);
    if a.Some? && b.Some? && c.Some? && d.Some? then
      Some(4096 * a.value + 256 * b.value + 16 * c.value + d.value)
    else None
  }

  /** The body of a JSON string literal decoded, or `None` when it is not a
      valid body (a raw quote or control character, an unknown escape, or an
      escape that names a lone surrogate). */
  function Unescape(s: string): Option<string>
    decreases |s|
  {
    if s == [] then Some([])
    else if s[0] == '"' || (s[0] as int) < 0x20 then None
    else if s[0] != '\\' then Prepend(s[0], Unescape(s[1..]))
    else if |s| < 2 then None
    else if ShortEscape(s[1]).Some? then Prepend(ShortEscape(s[1]).value, Unescape(s[2..]))
    else if s[1] == 'u' && |s| >= 6 then
      var v := Hex4(s[2..6]);
      if v.Some? && (v.value < 0xD800 || 0xE000 <= v.value) then Prepend(v.value as char, Unescape(s[6..]))
      else None
    else None
  }

  /** The character a two-character escape `\x` stands for. */
  function ShortEscape(x: char): Option<char> {
    if x == '"' || x == '\\' || x == '/' then Some(x)
    else if x == 'b' then Some('\U{0008}')
    else if x == 'f' then Some('\U{000C}')
    else if x == 'n' then Some('\n')
    else if x == 'r' then Some('\r')
    else if x == 't' then Some('\t')
    else None
  }

  /** `JSON.parse` restricted to string literals. */
  function Unquote(s: string): Option<string> {
    if |s| >= 2 && s[0] == '"' && s[|s| - 1] == '"' then Unescape(s[1..|s| - 1]) else None
  }

  lemma HexRoundTrip(d: nat)
    requires d < 16
    ensures HexValue(HexDigit(d)) == Some(d)
  {
  }

  /** Decoding an escaped character followed by more text yields the character
      followed by the decoded text. */
  lemma UnescapeChar(c: char, t: string)
    ensures Unescape(EscapeChar(c) + t) == Prepend(c, Unescape(t))
  {
    if (c as int) < 0x20 && ShortEscapeOf(c).None? {
      UnescapeControl(c, t);
    } else if ShortEscapeOf(c).Some? {
      assert (EscapeChar(c) + t)[2..] == t;
    } else {
      assert (EscapeChar(c) + t)[1..] == t;
    }
  }

  /** The letter of the two-character escape `JSON.stringify` uses for `c`. */
  function ShortEscapeOf(c: char): (x: Option<char>)
    ensures x.Some? ==> ShortEscape(x.value) == Some(c)
  {
    if c == '"' || c == '\\' then Some(c)
    else if c == '\U{0008}' then Some('b')
    else if c == '\U{000C}' then Some('f')
    else if c == '\n' then Some('n')
    else if c == '\r' then Some('r')
    else if c == '\t' then Some('t')
    else None
  }

  /** A control character without a short escape comes back from `\u00XX`. */
  lemma UnescapeControl(c: char, t: string)
    requires (c as int) < 0x20 && ShortEscapeOf(c).None?
    ensures Unescape(EscapeChar(c) + t) == Prepend(c, Unescape(t))
  {
    var s := EscapeChar(c) + t;
    var hi := c as int / 16;
    var lo := c as int % 16;
    HexRoundTrip(0);
    HexRoundTrip(hi);
    HexRoundTrip(lo);
    assert s[2..6] == "00" + [HexDigit(hi), HexDigit(lo)];
    assert Hex4(s[2..6]) == Some(c as int);
    assert s[6..] == t;
  }

  lemma {:induction false} UnescapeEscape(s: string)
    ensures Unescape(Escape(s)) == Some(s)
  {
    if s != [] {
      UnescapeEscape(s[1..]);
      UnescapeChar(s[0], Escape(s[1..]));
      assert [s[0]] + s[1..] == s;
    }
  }

  /** `JSON.parse(JSON.stringify(s)) === s`: quoting keeps the whole name. */
  lemma QuoteRoundTrip(s: string)
    ensures Unquote(Quote(s)) == Some(s)
  {
    var q := Quote(s);
    assert q[1..|q| - 1] == Escape(s);
    UnescapeEscape(s);
  }
}
