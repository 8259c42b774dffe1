/** JSON strings (section 7 of RFC 8259, surrogate escapes paired) as the strict
    scanners read them: characters, their spelling, their code points, and the
    proof that reading and spelling are inverse. */
module JsonString {
  import opened Prelude
  import Utf8

  /** One character of a string as written. */
  datatype Char =
    | Raw(c: char)
    | Rune(bytes: string)
    | Escape(mark: char)
    | Code(hex: string)
    | Pair(high: string, low: string)

  predicate IsHex(c: char) {
    '0' <= c <= '9' || 'a' <= c <= 'f' || 'A' <= c <= 'F'
  }

  function HexDigit(c: char): (d: nat)
    ensures d < 16
  {
    if '0' <= c <= '9' then c as nat - '0' as nat
    else if 'a' <= c <= 'f' then c as nat - 'a' as nat + 10
    else if 'A' <= c <= 'F' then c as nat - 'A' as nat + 10
    else 0
  }

  predicate IsHex4(h: string) {
    |h| == 4 && IsHex(h[0]) && IsHex(h[1]) && IsHex(h[2]) && IsHex(h[3])
  }

  function HexValue(h: string): (v: nat)
    requires |h| == 4
    ensures v < 0x10000
  {
    0x1000 * HexDigit(h[0]) + 0x100 * HexDigit(h[1]) + 0x10 * HexDigit(h[2]) + HexDigit(h[3])
  }

  predicate IsHigh(v: nat) {
    0xD800 <= v <= 0xDBFF
  }

  predicate IsLow(v: nat) {
    0xDC00 <= v <= 0xDFFF
  }

  predicate IsSimple(mark: char) {
    mark == '"' || mark == '\\' || mark == '/' || mark == 'b' || mark == 'f' || mark == 'n' || mark == 'r' ||
      mark == 't'
  }

  /** A multi-byte character on its own. */
  predicate IsRune(bytes: string) {
    |bytes| > 1 && bytes[0] as int >= 0x80 && Utf8.RuneSize(bytes, 0) == |bytes|
  }

  predicate CharOk(c: Char) {
    match c
    case Raw(b) => 0x20 <= b as int < 0x80 && b != '"' && b != '\\'
    case Rune(bytes) => IsRune(bytes)
    case Escape(mark) => IsSimple(mark)
    case Code(hex) => IsHex4(hex) && !IsHigh(HexValue(hex)) && !IsLow(HexValue(hex))
    case Pair(high, low) => IsHex4(high) && IsHex4(low) && IsHigh(HexValue(high)) && IsLow(HexValue(low))
  }

  predicate CharsOk(cs: seq<Char>) {
    forall c | c in cs :: CharOk(c)
  }

  function SpellChar(c: Char): string {
    match c
    case Raw(b) => [b]
    case Rune(bytes) => bytes
    case Escape(mark) => ['\\', mark]
    case Code(hex) => "\\u" + hex
    case Pair(high, low) => "\\u" + high + "\\u" + low
  }

  function Spell(cs: seq<Char>): string {
    if cs == [] then "" else SpellChar(cs[0]) + Spell(cs[1..])
  }

  // ----- reading -----

  type Parsed<T> = Option<(T, string)>

  function ReadUnicode(s: string): (r: Parsed<Char>)
    requires |s| >= 2
    ensures r.Some? ==> |r.value.1| < |s|
  {
    if |s| < 6 || !IsHex4(s[2..6]) then None
    else if IsHigh(HexValue(s[2..6])) then
      if |s| < 12 || s[6] != '\\' || s[7] != 'u' || !IsHex4(s[8..12]) || !IsLow(HexValue(s[8..12])) then None
      else Some((Pair(s[2..6], s[8..12]), s[12..]))
    else if IsLow(HexValue(s[2..6])) then None
    else Some((Code(s[2..6]), s[6..]))
  }

  function ReadChar(s: string): (r: Parsed<Char>)
    requires s != ""
    ensures r.Some? ==> |r.value.1| < |s|
  {
    var c := s[0];
    if (c as int) < 0x20 || c == '"' then None
    else if c == '\\' then
      if |s| < 2 then None
      else if IsSimple(s[1]) then Some((Escape(s[1]), s[2..]))
      else if s[1] == 'u' then ReadUnicode(s)
      else None
    else if (c as int) < 0x80 then Some((Raw(c), s[1..]))
    else
      var n := Utf8.RuneSize(s, 0);
      if n == 1 then None else Some((Rune(s[..n]), s[n..]))
  }

  /** The characters up to the closing quote, and the text after it. */
  function ReadBody(s: string): (r: Parsed<seq<Char>>)
    ensures r.Some? ==> |r.value.1| < |s|
    decreases |s|
  {
    if s == "" then None
    else if s[0] == '"' then Some(([], s[1..]))
    else
      var c := ReadChar(s);
      if c.None? then None else
      var more := ReadBody(c.value.1);
      if more.None? then None else Some(([c.value.0] + more.value.0, more.value.1))
  }

  /** The characters of a text that holds nothing else. */
  function ReadInner(s: string): Option<seq<Char>>
    decreases |s|
  {
    if s == "" then Some([])
    else
      var c := ReadChar(s);
      if c.None? then None else
      var more := ReadInner(c.value.1);
      if more.None? then None else Some([c.value.0] + more.value)
  }

  // ----- UTF-8 pieces -----

  lemma RuneAtStart(s: string, i: nat)
    requires i < |s|
    ensures Utf8.RuneSize(s, i) == Utf8.RuneSize(s[i..], 0)
  {
  }

  lemma RunePrefix(bytes: string, rest: string)
    requires bytes != "" && Utf8.RuneSize(bytes, 0) == |bytes| && |bytes| > 1
    ensures Utf8.RuneSize(bytes + rest, 0) == |bytes|
  {
  }

  lemma RuneCut(s: string)
    requires s != "" && Utf8.RuneSize(s, 0) > 1
    ensures IsRune(s[..Utf8.RuneSize(s, 0)])
  {
  }

  // ----- reading and spelling are inverse -----

  lemma ReadCharSound(s: string)
    requires s != "" && ReadChar(s).Some?
    ensures var r := ReadChar(s).value; CharOk(r.0) && s == SpellChar(r.0) + r.1 && SpellChar(r.0) != ""
  {
    hide Utf8.RuneSize, HexValue, IsHex4;
    if s[0] == '\\' && s[1] == 'u' {
      assert s[..2] == "\\u";
      assert s == s[..2] + s[2..6] + s[6..];
      if |s| >= 12 && s[6] == '\\' && s[7] == 'u' {
        assert s[6..8] == "\\u" && s == s[..2] + s[2..6] + s[6..8] + s[8..12] + s[12..];
      }
    } else if s[0] as int >= 0x80 {
      RuneCut(s);
    }
  }

  lemma ReadCharComplete(c: Char, rest: string)
    requires CharOk(c)
    ensures SpellChar(c) + rest != "" && ReadChar(SpellChar(c) + rest) == Some((c, rest))
    ensures (SpellChar(c) + rest)[0] != '"'
  {
    hide Utf8.RuneSize, HexValue, IsHex4;
    var s := SpellChar(c) + rest;
    match c {
      case Raw(_) =>
      case Rune(bytes) =>
        RunePrefix(bytes, rest);
        assert s[..|bytes|] == bytes && s[|bytes|..] == rest;
      case Escape(_) => assert s[2..] == rest;
      case Code(hex) => Hex4Length(hex); assert s[2..6] == hex && s[6..] == rest;
      case Pair(high, low) =>
        Hex4Length(high);
        Hex4Length(low);
        assert s[2..6] == high && s[8..12] == low && s[12..] == rest;
    }
  }

  lemma Hex4Length(h: string)
    requires IsHex4(h)
    ensures |h| == 4
  {
  }

  lemma {:induction false} BodySound(s: string)
    requires ReadBody(s).Some?
    ensures var r := ReadBody(s).value; CharsOk(r.0) && s == Spell(r.0) + ("\"" + r.1)
    decreases |s|
  {
    hide ReadChar, SpellChar, CharOk;
    if s[0] == '"' {
      assert s == "\"" + s[1..];
    } else {
      ReadCharSound(s);
      BodySound(ReadChar(s).value.1);
    }
  }

  lemma {:induction false} BodyComplete(cs: seq<Char>, rest: string)
    requires CharsOk(cs)
    ensures ReadBody(Spell(cs) + ("\"" + rest)) == Some((cs, rest))
    decreases |cs|
  {
    hide ReadChar, SpellChar, CharOk;
    var s := Spell(cs) + ("\"" + rest);
    if cs == [] {
      assert s[1..] == rest;
    } else {
      var more := Spell(cs[1..]) + ("\"" + rest);
      assert s == SpellChar(cs[0]) + more;
      ReadCharComplete(cs[0], more);
      BodyComplete(cs[1..], rest);
      assert cs == [cs[0]] + cs[1..];
    }
  }

  lemma {:induction false} InnerSound(s: string)
    requires ReadInner(s).Some?
    ensures CharsOk(ReadInner(s).value) && s == Spell(ReadInner(s).value)
    decreases |s|
  {
    if s != "" {
      hide ReadChar, SpellChar, CharOk;
      ReadCharSound(s);
      InnerSound(ReadChar(s).value.1);
    }
  }

  lemma {:induction false} InnerComplete(cs: seq<Char>)
    requires CharsOk(cs)
    ensures ReadInner(Spell(cs)) == Some(cs)
    decreases |cs|
  {
    if cs != [] {
      hide ReadChar, SpellChar, CharOk;
      ReadCharComplete(cs[0], Spell(cs[1..]));
      InnerComplete(cs[1..]);
      assert cs == [cs[0]] + cs[1..];
    }
  }

  /** A text between quotes is a whole token for the skipper exactly when the
      decoder's reading of the text between them succeeds, with the same characters. */
  lemma BodyIsInner(s: string, cs: seq<Char>)
    ensures ReadBody(s + "\"") == Some((cs, "")) <==> ReadInner(s) == Some(cs)
  {
    hide ReadBody, ReadInner, Spell;
    assert "\"" + "" == "\"";
    if ReadBody(s + "\"") == Some((cs, "")) {
      BodySound(s + "\"");
      SameEnd(s, Spell(cs), "\"");
      InnerComplete(cs);
    }
    if ReadInner(s) == Some(cs) {
      InnerSound(s);
      BodyComplete(cs, "");
    }
  }

  lemma SameEnd(a: string, b: string, end: string)
    requires a + end == b + end
    ensures a == b
  {
    assert |a| == |b|;
    assert a == (a + end)[..|a|] && b == (b + end)[..|b|];
  }
}
