/** String literals of the canonical serialisation: ASCII only, escapes as in
    section 7 of RFC 8259, and a reader that undoes them. */
module JsonText {

  import Text

  lemma HeadTail(c: char, s: string)
    ensures ([c] + s)[0] == c && ([c] + s)[1..] == s
  {
  }

  datatype Parsed<+T> = Fail | Got(value: T, rest: string)

  // ------------------------------------------------------------------ hex escapes

  function HexDigit(n: nat): (c: char)
    requires n < 16
    ensures c == '0' || c == '1' || c == '2' || c == '3' || c == '4' || c == '5' || c == '6' || c == '7' ||
            c == '8' || c == '9' || c == 'a' || c == 'b' || c == 'c' || c == 'd' || c == 'e' || c == 'f'
  {
    if n < 10 then ('0' as int + n) as char else ('a' as int + n - 10) as char
  }

  /** A lower- or upper-case hex digit's value; 16 for any other character. */
  function Nibble(c: char): (n: nat)
    ensures n <= 16
  {
    if '0' <= c <= '9' then c as int - '0' as int
    else if 'a' <= c <= 'f' then c as int - 'a' as int + 10
    else if 'A' <= c <= 'F' then c as int - 'A' as int + 10
    else 16
  }

  lemma NibbleRoundTrip(n: nat)
    requires n < 16
    ensures Nibble(HexDigit(n)) == n
  {
  }

  /** `{:04x}` */
  function Hex4(n: nat): (s: string)
    requires n < 0x10000
    ensures |s| == 4
  {
    [HexDigit(n / 16 / 16 / 16), HexDigit(n / 16 / 16 % 16), HexDigit(n / 16 % 16), HexDigit(n % 16)]
  }

  function ReadHex4(s: string): (n: nat)
    requires |s| == 4
    ensures n <= 0x10000
  {
    var a, b, c, d := Nibble(s[0]), Nibble(s[1]), Nibble(s[2]), Nibble(s[3]);
    if a < 16 && b < 16 && c < 16 && d < 16 then ((a * 16 + b) * 16 + c) * 16 + d else 0x10000
  }

  lemma HexRoundTrip(n: nat)
    requires n < 0x10000
    ensures ReadHex4(Hex4(n)) == n
  {
    var p := n / 16;
    var q := p / 16;
    NibbleRoundTrip(q / 16);
    NibbleRoundTrip(q % 16);
    NibbleRoundTrip(p % 16);
    NibbleRoundTrip(n % 16);
  }

  // --------------------------------------------------------------- one character

  function Unicode(n: nat): string
    requires n < 0x10000
  { "\\u" + Hex4(n) }

  function HighSurrogate(c: char): (n: nat)
    requires c as int >= 0x10000
    ensures 0xd800 <= n < 0xdc00
  { 0xd800 + (c as int - 0x10000) / 1024 }

  function LowSurrogate(c: char): (n: nat)
    requires c as int >= 0x10000
    ensures 0xdc00 <= n < 0xe000
  { 0xdc00 + (c as int - 0x10000) % 1024 }

  /** The two-character escapes. */
  function ShortEscape(c: char): string {
    if c == '"' then "\\\"" else if c == '\\' then "\\\\"
    else if c == 8 as char then "\\b" else if c == 12 as char then "\\f"
    else if c == '\n' then "\\n" else if c == '\r' then "\\r" else if c == '\t' then "\\t" else ""
  }

  function EscapeChar(c: char): (s: string)
    ensures s != ""
  {
    if ShortEscape(c) != "" then ShortEscape(c)
    else if c as int < 0x20 then Unicode(c as int)
    else if c as int < 0x80 then [c]
    else if c as int <= 0xffff then Unicode(c as int)
    else Unicode(HighSurrogate(c)) + Unicode(LowSurrogate(c))
  }

  // ------------------------------------------------------------- what is written, in full

  predicate IsAscii(c: char) { 0x20 <= c as int < 0x80 }

  predicate AllAscii(s: string) { forall i :: 0 <= i < |s| ==> IsAscii(s[i]) }

  predicate IsLowerHex(c: char) { '0' <= c <= '9' || 'a' <= c <= 'f' }

  /** `\u` and the code unit `n` in four lower-case hex digits. */
  ghost predicate IsUnit(s: string, n: int) {
    && |s| == 6 && s[0] == '\\' && s[1] == 'u'
    && (forall i :: 2 <= i < 6 ==> IsLowerHex(s[i]))
    && ReadHex4(s[2..]) == n
  }

  ghost predicate HasShort(c: char) {
    c == '"' || c == '\\' || c == 8 as char || c == 12 as char || c == '\n' || c == '\r' || c == '\t'
  }

  lemma UnicodeIs(n: nat)
    requires n < 0x10000
    ensures IsUnit(Unicode(n), n) && AllAscii(Unicode(n))
  {
    hide Hex4, ReadHex4;
    HexRoundTrip(n);
    HexLower(n);
    var s := Unicode(n);
    assert s[2..] == Hex4(n);
    assert forall i :: 2 <= i < 6 ==> s[i] == Hex4(n)[i - 2];
  }

  lemma HexLower(n: nat)
    requires n < 0x10000
    ensures forall i :: 0 <= i < 4 ==> IsLowerHex(Hex4(n)[i])
  {
    hide HexDigit;
  }

  /** The text of each character: its two-character escape if it has one; itself within
      ASCII; its code in hex up to 0xffff; two surrogates beyond. */
  lemma EscapeIs(c: char)
    ensures var s := EscapeChar(c);
            var n := c as int;
            && AllAscii(s)
            && (c == '"' ==> s == "\\\"") && (c == '\\' ==> s == "\\\\") && (c == 8 as char ==> s == "\\b") && (c == 12 as char ==> s == "\\f")
            && (c == '\n' ==> s == "\\n") && (c == '\r' ==> s == "\\r") && (c == '\t' ==> s == "\\t")
            && (!HasShort(c) && 0x20 <= n < 0x80 ==> s == [c])
            && (!HasShort(c) && (n < 0x20 || 0x80 <= n <= 0xffff) ==> IsUnit(s, n))
            && (n > 0xffff ==> |s| == 12 && IsUnit(s[..6], 0xd800 + (n - 0x10000) / 1024) && IsUnit(s[6..], 0xdc00 + (n - 0x10000) % 1024))
  {
    hide IsUnit, Hex4, AllAscii;
    var n := c as int;
    if HasShort(c) {
      ShortIs(c);
    } else if 0x20 <= n < 0x80 {
      SingleAscii(c);
    } else if n <= 0xffff {
      UnicodeIs(n);
    } else {
      var a, b := HighSurrogate(c), LowSurrogate(c);
      UnicodeIs(a);
      UnicodeIs(b);
      JoinAscii(Unicode(a), Unicode(b));
      UnitLength(a);
      assert EscapeChar(c)[..6] == Unicode(a) && EscapeChar(c)[6..] == Unicode(b);
    }
  }

  lemma UnitLength(n: nat)
    requires n < 0x10000
    ensures |Unicode(n)| == 6
  {
  }

  lemma ShortIs(c: char)
    requires HasShort(c)
    ensures EscapeChar(c) == ShortEscape(c) && AllAscii(EscapeChar(c))
  {
  }

  lemma SingleAscii(c: char)
    requires IsAscii(c)
    ensures AllAscii([c])
  {
  }

  lemma JoinAscii(a: string, b: string)
    requires AllAscii(a) && AllAscii(b)
    ensures AllAscii(a + b)
  {
  }

  lemma {:induction false} EscapeAscii(s: string)
    ensures AllAscii(Escape(s))
  {
    hide AllAscii;
    if s == "" {
      assert AllAscii("") by { NothingAscii(); }
    } else {
      EscapeIs(s[0]);
      EscapeAscii(s[1..]);
      JoinAscii(EscapeChar(s[0]), Escape(s[1..]));
    }
  }

  lemma NothingAscii()
    ensures AllAscii("")
  {
  }

  lemma QuoteAscii(s: string)
    ensures AllAscii(Quote(s))
  {
    EscapeAscii(s);
  }

  /** The code unit of a `\uXXXX` at the front of `s`, or 0x10000. */
  function ReadUnit(s: string): (n: nat)
    ensures n <= 0x10000 && (n < 0x10000 ==> |s| >= 6)
  {
    if |s| >= 6 && s[0] == '\\' && s[1] == 'u' then ReadHex4(s[2..6]) else 0x10000
  }

  lemma UnitRoundTrip(n: nat, rest: string)
    requires n < 0x10000
    ensures ReadUnit(Unicode(n) + rest) == n
    ensures (Unicode(n) + rest)[6..] == rest
  {
    HexRoundTrip(n);
    assert (Unicode(n) + rest)[2..6] == Hex4(n);
  }

  function ReadShort(c: char): (r: Parsed<char>)
    ensures r.Got? ==> r.rest == ""
  {
    if c == '"' || c == '\\' then Got(c, "")
    else if c == 'b' then Got(8 as char, "") else if c == 'f' then Got(12 as char, "")
    else if c == 'n' then Got('\n', "") else if c == 'r' then Got('\r', "") else if c == 't' then Got('\t', "")
    else Fail
  }

  /** A `\u` escape: one unit, or a high and a low surrogate together. */
  function ReadUnicode(s: string): (r: Parsed<char>)
    ensures r.Got? ==> |r.rest| < |s|
  {
    var u := ReadUnit(s);
    if u >= 0x10000 then Fail
    else if u < 0xd800 || u >= 0xe000 then Got(u as char, s[6..])
    else
      var v := ReadUnit(s[6..]);
      if u < 0xdc00 && 0xdc00 <= v < 0xe000
      then Got((0x10000 + (u - 0xd800) * 1024 + (v - 0xdc00)) as char, s[12..])
      else Fail
  }

  /** The first character a literal's remaining text stands for. */
  function ReadChar(s: string): (r: Parsed<char>)
    ensures r.Got? ==> |r.rest| < |s|
  {
    if s == "" || s[0] == '"' then Fail
    else if s[0] != '\\' then Got(s[0], s[1..])
    else if |s| < 2 then Fail
    else if s[1] == 'u' then ReadUnicode(s)
    else if ReadShort(s[1]).Got? then Got(ReadShort(s[1]).value, s[2..])
    else Fail
  }

  lemma ShortRoundTrip(c: char, rest: string)
    requires ShortEscape(c) != ""
    ensures ReadChar(ShortEscape(c) + rest) == Got(c, rest)
  {
    var e := ShortEscape(c);
    assert |e| == 2 && e[0] == '\\' && e[1] != 'u' && ReadShort(e[1]) == Got(c, "");
    assert (e + rest)[2..] == rest;
  }

  lemma UnicodeRoundTrip(c: char, rest: string)
    requires c as int <= 0xffff
    ensures ReadChar(Unicode(c as int) + rest) == Got(c, rest)
  {
    UnitRoundTrip(c as int, rest);
  }

  lemma AstralRoundTrip(c: char, rest: string)
    requires c as int >= 0x10000
    ensures ReadChar(Unicode(HighSurrogate(c)) + (Unicode(LowSurrogate(c)) + rest)) == Got(c, rest)
  {
    var lo := Unicode(LowSurrogate(c)) + rest;
    UnitRoundTrip(HighSurrogate(c), lo);
    UnitRoundTrip(LowSurrogate(c), rest);
    PairRead(Unicode(HighSurrogate(c)) + lo, c);
  }

  lemma PairRead(s: string, c: char)
    requires c as int >= 0x10000 && ReadUnit(s) == HighSurrogate(c) && ReadUnit(s[6..]) == LowSurrogate(c)
    ensures ReadChar(s) == Got(c, s[6..][6..])
  {
    assert s[12..] == s[6..][6..];
  }

  lemma CharRoundTrip(c: char, rest: string)
    ensures ReadChar(EscapeChar(c) + rest) == Got(c, rest)
  {
    if ShortEscape(c) != "" {
      ShortRoundTrip(c, rest);
    } else if c as int < 0x20 || 0x80 <= c as int <= 0xffff {
      UnicodeRoundTrip(c, rest);
    } else if c as int < 0x80 {
      HeadTail(c, rest);
    } else {
      AstralRoundTrip(c, rest);
      Text.Associative(Unicode(HighSurrogate(c)), Unicode(LowSurrogate(c)), rest);
    }
  }

  // -------------------------------------------------------------------- literals

  function Escape(s: string): string {
    if s == "" then "" else EscapeChar(s[0]) + Escape(s[1..])
  }

  function Quote(s: string): string { ['"'] + (Escape(s) + ['"']) }

  /** Characters up to the closing quote. */
  function ReadChars(s: string): (r: Parsed<string>)
    ensures r.Got? ==> |r.rest| < |s|
    decreases |s|
  {
    if s != "" && s[0] == '"' then Got("", s[1..])
    else
      var c := ReadChar(s);
      if c.Fail? then Fail
      else
        var t := ReadChars(c.rest);
        if t.Fail? then Fail else Got([c.value] + t.value, t.rest)
  }

  function ReadQuoted(s: string): (r: Parsed<string>)
    ensures r.Got? ==> |r.rest| < |s|
  {
    if s != "" && s[0] == '"' then ReadChars(s[1..]) else Fail
  }

  lemma NoBareQuote(c: char, rest: string)
    ensures (EscapeChar(c) + rest)[0] != '"'
  {
  }

  lemma {:induction false} CharsRoundTrip(s: string, rest: string)
    ensures ReadChars(Escape(s) + ['"'] + rest) == Got(s, rest)
  {
    if s == "" {
      HeadTail('"', rest);
      assert Escape(s) + ['"'] == ['"'];
    } else {
      var tail := Escape(s[1..]) + ['"'] + rest;
      assert Escape(s) + ['"'] + rest == EscapeChar(s[0]) + tail;
      CharRoundTrip(s[0], tail);
      NoBareQuote(s[0], tail);
      CharsRoundTrip(s[1..], rest);
      assert [s[0]] + s[1..] == s;
    }
  }

  /** Every string comes back from its literal: quotes, control characters, and
      characters inside and beyond the basic plane. */
  lemma QuotedRoundTrip(s: string, rest: string)
    ensures ReadQuoted(Quote(s) + rest) == Got(s, rest)
  {
    CharsRoundTrip(s, rest);
    Text.Associative(['"'], Escape(s) + ['"'], rest);
    HeadTail('"', Escape(s) + ['"'] + rest);
  }
}
