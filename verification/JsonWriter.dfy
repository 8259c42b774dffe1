/** How a code point may be written inside a JSON string, from section 7 of RFC 8259
    alone, and the proof that the reader takes exactly those texts and gives the code
    points back. */
module JsonWriter {
  import opened Prelude
  import opened JsonString
  import opened JsonDecode
  import opened TrimSpace

  const DIGITS := "0123456789abcdef"
  const CAPITALS := "0123456789ABCDEF"

  predicate WritesDigit(d: nat, c: char) {
    d < 16 && (c == DIGITS[d] || c == CAPITALS[d])
  }

  /** Four hexadecimal digits of a 16-bit number. */
  predicate WritesUnit(v: nat, h: string) {
    && v < 0x10000 && |h| == 4
    && WritesDigit(v / 0x1000, h[0]) && WritesDigit(v / 0x100 % 0x10, h[1])
    && WritesDigit(v / 0x10 % 0x10, h[2]) && WritesDigit(v % 0x10, h[3])
  }

  /** The two-character escapes and the code points they stand for. */
  predicate WritesShort(r: nat, mark: char) {
    || (r == 0x22 && mark == '"')
    || (r == 0x5C && mark == '\\')
    || (r == 0x2F && mark == '/')
    || (r == 0x08 && mark == 'b')
    || (r == 0x0C && mark == 'f')
    || (r == 0x0A && mark == 'n')
    || (r == 0x0D && mark == 'r')
    || (r == 0x09 && mark == 't')
  }

  predicate Surrogate(r: nat) {
    0xD800 <= r < 0xE000
  }

  /** As itself: anything but controls, the quote and the backslash. */
  predicate WritesItself(r: nat, text: string) {
    0x20 <= r < 0x110000 && !Surrogate(r) && r != 0x22 && r != 0x5C && text == Encode(r)
  }

  /** As \uXXXX. */
  predicate WritesEscape(r: nat, text: string) {
    |text| == 6 && text[0] == '\\' && text[1] == 'u' && WritesUnit(r, text[2..6]) && !Surrogate(r)
  }

  /** As a surrogate pair of escapes (section 3 of RFC 2781). */
  predicate WritesPair(r: nat, text: string) {
    && 0x10000 <= r < 0x110000
    && |text| == 12 && text[0] == '\\' && text[1] == 'u' && text[6] == '\\' && text[7] == 'u'
    && WritesUnit(0xD800 + (r - 0x10000) / 0x400, text[2..6])
    && WritesUnit(0xDC00 + (r - 0x10000) % 0x400, text[8..12])
  }

  predicate Writes(r: nat, text: string) {
    || WritesItself(r, text)
    || (|text| == 2 && text[0] == '\\' && WritesShort(r, text[1]))
    || WritesEscape(r, text)
    || WritesPair(r, text)
  }

  predicate WritesAll(points: seq<nat>, texts: seq<string>) {
    |points| == |texts| && forall k | 0 <= k < |points| :: Writes(points[k], texts[k])
  }

  /** s is what these code points may look like inside the quotes. */
  ghost predicate Written(s: string, points: seq<nat>) {
    exists texts :: WritesAll(points, texts) && Concat(texts) == s
  }

  ghost predicate QuotedAs(token: string, points: seq<nat>) {
    exists s :: Written(s, points) && token == "\"" + s + "\""
  }

  // ----- one character -----

  lemma DigitIff(c: char, d: nat)
    ensures IsHex(c) && HexDigit(c) == d <==> WritesDigit(d, c)
  {
    if IsHex(c) { assert c == DIGITS[HexDigit(c)] || c == CAPITALS[HexDigit(c)]; }
  }

  lemma LastDigit(q: nat, d: nat, v: nat)
    requires d < 0x10
    ensures v == 0x10 * q + d <==> v / 0x10 == q && v % 0x10 == d
  {
  }

  lemma FourParts(a: nat, b: nat, c: nat, d: nat, v: nat)
    requires a < 16 && b < 16 && c < 16 && d < 16
    ensures 0x1000 * a + 0x100 * b + 0x10 * c + d == v <==>
            v < 0x10000 && v / 0x1000 == a && v / 0x100 % 0x10 == b && v / 0x10 % 0x10 == c && v % 0x10 == d
  {
    var x := v / 0x10;
    var y := x / 0x10;
    assert y == v / 0x100 && y / 0x10 == v / 0x1000;
    assert v == 0x10 * x + v % 0x10 && x == 0x10 * y + x % 0x10 && y == 0x10 * (y / 0x10) + y % 0x10;
    LastDigit(0x100 * a + 0x10 * b + c, d, v);
    LastDigit(0x10 * a + b, c, x);
    LastDigit(a, b, y);
  }

  lemma UnitIff(h: string, v: nat)
    ensures IsHex4(h) && HexValue(h) == v <==> WritesUnit(v, h)
  {
    hide WritesDigit, IsHex, HexDigit;
    if |h| == 4 && v < 0x10000 {
      DigitIff(h[0], v / 0x1000);
      DigitIff(h[1], v / 0x100 % 0x10);
      DigitIff(h[2], v / 0x10 % 0x10);
      DigitIff(h[3], v % 0x10);
      FourParts(HexDigit(h[0]), HexDigit(h[1]), HexDigit(h[2]), HexDigit(h[3]), v);
    }
  }

  /** What a character reads as is written as the reader found it. */
  lemma DenotedIsWritten(c: Char)
    requires CharOk(c)
    ensures Writes(Denoted(c), SpellChar(c))
  {
    hide IsHex4, HexValue, WritesUnit, IsRune, CodePoint;
    var text := SpellChar(c);
    match c {
      case Raw(b) => assert Encode(b as nat) == [b];
      case Rune(bytes) => RuneIsWritten(bytes);
      case Escape(mark) => assert WritesShort(Denoted(c), mark);
      case Code(hex) =>
        Hex4Length(hex);
        UnitIff(hex, HexValue(hex));
        assert text[2..6] == hex;
      case Pair(high, low) =>
        Hex4Length(high);
        Hex4Length(low);
        UnitIff(high, HexValue(high));
        UnitIff(low, HexValue(low));
        PairsAreUnique(Combine(HexValue(high), HexValue(low)), HexValue(high), HexValue(low));
        assert text[2..6] == high && text[8..12] == low;
    }
  }

  lemma RuneIsWritten(bytes: string)
    requires IsRune(bytes)
    ensures CodePoint(bytes) >= 0x20 && WritesItself(CodePoint(bytes), bytes)
  {
    DecodeEncodes(bytes);
    hide CodePoint;
    assert |Encode(CodePoint(bytes))| > 1;
  }

  /** And whatever may be written is read as the code point it was written for. */
  lemma WrittenIsDenoted(r: nat, text: string) returns (c: Char)
    requires Writes(r, text)
    ensures CharOk(c) && SpellChar(c) == text && Denoted(c) == r
  {
    hide IsHex4, HexValue, WritesUnit, CodePoint, WritesItself;
    if WritesItself(r, text) {
      c := ItselfIsRead(r, text);
    } else if |text| == 2 {
      c := Escape(text[1]);
    } else if WritesEscape(r, text) {
      c := Code(text[2..6]);
      UnitIff(text[2..6], r);
      assert text == "\\u" + text[2..6];
    } else {
      c := Pair(text[2..6], text[8..12]);
      UnitIff(text[2..6], 0xD800 + (r - 0x10000) / 0x400);
      UnitIff(text[8..12], 0xDC00 + (r - 0x10000) % 0x400);
      PairsAreUnique(r, HexValue(text[2..6]), HexValue(text[8..12]));
      assert text == "\\u" + text[2..6] + "\\u" + text[8..12];
    }
  }

  lemma ItselfIsRead(r: nat, text: string) returns (c: Char)
    requires WritesItself(r, text)
    ensures CharOk(c) && SpellChar(c) == text && Denoted(c) == r
  {
    EncodeDecodes(r);
    if r < 0x80 {
      c := Raw(r as char);
    } else {
      c := Rune(text);
      assert |text| > 1;
      hide CodePoint, Encode;
    }
  }

  // ----- the whole string -----

  lemma {:induction false} SpelledIsWritten(cs: seq<Char>) returns (texts: seq<string>)
    requires CharsOk(cs)
    ensures WritesAll(Points(cs), texts) && Concat(texts) == Spell(cs)
    decreases |cs|
  {
    hide CharOk, SpellChar, Denoted, Writes;
    if cs == [] {
      texts := [];
    } else {
      DenotedIsWritten(cs[0]);
      var rest := SpelledIsWritten(cs[1..]);
      texts := [SpellChar(cs[0])] + rest;
      assert texts[1..] == rest;
    }
  }

  lemma {:induction false} WrittenIsSpelled(points: seq<nat>, texts: seq<string>) returns (cs: seq<Char>)
    requires WritesAll(points, texts)
    ensures CharsOk(cs) && Spell(cs) == Concat(texts) && Points(cs) == points
    decreases |points|
  {
    hide CharOk, SpellChar, Denoted, Writes;
    if points == [] {
      cs := [];
    } else {
      var c := WrittenIsDenoted(points[0], texts[0]);
      var rest := WrittenIsSpelled(points[1..], texts[1..]);
      cs := [c] + rest;
      assert cs[1..] == rest && points == [points[0]] + points[1..];
    }
  }

  /** The reader takes exactly what may be written, and its result is the UTF-8 of the
      code points it was written for. */
  lemma ReadIffWritten(s: string, value: string)
    ensures (ReadInner(s).Some? && CharsOk(ReadInner(s).value) && Decoded(ReadInner(s).value) == value) <==>
            exists points :: Written(s, points) && EncodeAll(points) == value
  {
    hide ReadInner, Decoded, EncodeAll, Spell, CharOk, Writes;
    if ReadInner(s).Some? {
      InnerSound(s);
      var cs := ReadInner(s).value;
      DecodedIsUtf8(cs);
      var texts := SpelledIsWritten(cs);
      assert Written(s, Points(cs));
    }
    forall points | Written(s, points)
      ensures ReadInner(s).Some? && CharsOk(ReadInner(s).value) && Decoded(ReadInner(s).value) == EncodeAll(points)
    {
      WrittenIsRead(s, points);
    }
  }

  lemma WrittenIsRead(s: string, points: seq<nat>)
    requires Written(s, points)
    ensures ReadInner(s).Some? && CharsOk(ReadInner(s).value) && Decoded(ReadInner(s).value) == EncodeAll(points)
  {
    hide ReadInner, Decoded, EncodeAll, Spell, CharOk, Writes;
    var texts :| WritesAll(points, texts) && Concat(texts) == s;
    var cs := WrittenIsSpelled(points, texts);
    InnerComplete(cs);
    DecodedIsUtf8(cs);
  }

  /** The same with the quotes. */
  lemma QuotedIff(token: string, value: string)
    ensures (&& |token| >= 2 && token[0] == '"' && token[|token| - 1] == '"'
             && ReadInner(token[1..|token| - 1]).Some? && CharsOk(ReadInner(token[1..|token| - 1]).value)
             && Decoded(ReadInner(token[1..|token| - 1]).value) == value) <==>
            exists points :: QuotedAs(token, points) && EncodeAll(points) == value
  {
    hide ReadInner, Decoded, EncodeAll, CharOk, Written;
    if |token| >= 2 && token[0] == '"' && token[|token| - 1] == '"' {
      var s := token[1..|token| - 1];
      assert token == "\"" + s + "\"";
      ReadIffWritten(s, value);
      if exists points :: Written(s, points) && EncodeAll(points) == value {
        var points :| Written(s, points) && EncodeAll(points) == value;
        assert QuotedAs(token, points);
      }
    }
    forall points | QuotedAs(token, points)
      ensures |token| >= 2 && token[0] == '"' && token[|token| - 1] == '"'
      ensures Written(token[1..|token| - 1], points)
    {
      var s :| Written(s, points) && token == "\"" + s + "\"";
      assert token[1..|token| - 1] == s;
    }
  }
}
