/** What a JSON string denotes: code points and their UTF-8 bytes, as the owned
    decoder builds them. */
module JsonDecode {
  import opened Prelude
  import opened JsonString
  import Utf8

  // ----- section 3 of RFC 3629 -----

  predicate IsScalarValue(r: nat) {
    r < 0x110000 && !IsHigh(r) && !IsLow(r)
  }

  /** utf8.AppendRune's bytes. */
  function Encode(r: nat): string {
    if r < 0x80 then [r as char]
    else if r < 0x800 then [(0xC0 + r / 0x40) as char, (0x80 + r % 0x40) as char]
    else if !IsScalarValue(r) then [0xEF as char, 0xBF as char, 0xBD as char]
    else if r < 0x10000 then [(0xE0 + r / 0x1000) as char, (0x80 + r / 0x40 % 0x40) as char, (0x80 + r % 0x40) as char]
    else [(0xF0 + r / 0x40000) as char, (0x80 + r / 0x1000 % 0x40) as char, (0x80 + r / 0x40 % 0x40) as char,
      (0x80 + r % 0x40) as char]
  }

  /** The code point of the bytes of one well-formed character. */
  function CodePoint(bytes: string): int
    requires bytes != ""
  {
    var b := seq(|bytes|, i requires 0 <= i < |bytes| => bytes[i] as int);
    if |b| == 1 then b[0]
    else if |b| == 2 then 0x40 * (b[0] - 0xC0) + (b[1] - 0x80)
    else if |b| == 3 then 0x1000 * (b[0] - 0xE0) + 0x40 * (b[1] - 0x80) + (b[2] - 0x80)
    else if |b| == 4 then 0x40000 * (b[0] - 0xF0) + 0x1000 * (b[1] - 0x80) + 0x40 * (b[2] - 0x80) + (b[3] - 0x80)
    else 0
  }

  /** Bytes that are one character, ASCII or not. */
  predicate IsCharacter(bytes: string) {
    (|bytes| == 1 && (bytes[0] as int) < 0x80) || IsRune(bytes)
  }

  lemma EncodeShort(r: nat)
    requires r < 0x800
    ensures IsCharacter(Encode(r)) && CodePoint(Encode(r)) == r
  {
  }

  lemma EncodeThree(r: nat)
    requires 0x800 <= r < 0x10000 && IsScalarValue(r)
    ensures IsCharacter(Encode(r)) && CodePoint(Encode(r)) == r
  {
  }

  lemma FourBytes(a: nat, b: nat, c: nat, d: nat)
    requires a <= 4 && b < 0x40 && c < 0x40 && d < 0x40 && (a == 0 ==> b >= 0x10) && (a == 4 ==> b < 0x10)
    ensures var bytes := [(0xF0 + a) as char, (0x80 + b) as char, (0x80 + c) as char, (0x80 + d) as char];
            IsRune(bytes) && CodePoint(bytes) == 0x40000 * a + 0x1000 * b + 0x40 * c + d
  {
  }

  lemma FourDigits(r: nat)
    requires 0x10000 <= r < 0x110000
    ensures var a, b, c, d := r / 0x40000, r / 0x1000 % 0x40, r / 0x40 % 0x40, r % 0x40;
            r == 0x40000 * a + 0x1000 * b + 0x40 * c + d && a <= 4 && (a == 0 ==> b >= 0x10) && (a == 4 ==> b < 0x10)
  {
    var x := r / 0x40;
    var y := x / 0x40;
    assert y == r / 0x1000 && y / 0x40 == r / 0x40000;
    assert r == 0x40 * x + r % 0x40 && x == 0x40 * y + x % 0x40 && y == 0x40 * (y / 0x40) + y % 0x40;
  }

  lemma EncodeFour(r: nat)
    requires 0x10000 <= r < 0x110000
    ensures IsCharacter(Encode(r)) && CodePoint(Encode(r)) == r
  {
    hide IsRune, CodePoint;
    FourDigits(r);
    FourBytes(r / 0x40000, r / 0x1000 % 0x40, r / 0x40 % 0x40, r % 0x40);
    assert Encode(r) == [(0xF0 + r / 0x40000) as char, (0x80 + r / 0x1000 % 0x40) as char,
           (0x80 + r / 0x40 % 0x40) as char, (0x80 + r % 0x40) as char];
  }

  /** Every scalar value is encoded as one well-formed character that decodes to it. */
  lemma EncodeDecodes(r: nat)
    requires IsScalarValue(r)
    ensures IsCharacter(Encode(r)) && CodePoint(Encode(r)) == r
  {
    hide Encode, IsCharacter, CodePoint;
    if r < 0x800 { EncodeShort(r); } else if r < 0x10000 { EncodeThree(r); } else { EncodeFour(r); }
  }

  /** And the encoding of a well-formed character's code point is that character. */
  lemma DecodeEncodes(bytes: string)
    requires IsCharacter(bytes)
    ensures CodePoint(bytes) >= 0 && IsScalarValue(CodePoint(bytes)) && Encode(CodePoint(bytes)) == bytes
  {
    if |bytes| == 2 { DecodeTwo(bytes); }
    else if |bytes| == 3 { DecodeThree(bytes); }
    else if |bytes| == 4 { DecodeFour(bytes); }
  }

  lemma DecodeTwo(bytes: string)
    requires IsRune(bytes) && |bytes| == 2
    ensures var r := CodePoint(bytes); r >= 0 && IsScalarValue(r) && Encode(r) == bytes
  {
  }

  lemma DecodeThree(bytes: string)
    requires IsRune(bytes) && |bytes| == 3
    ensures var r := CodePoint(bytes); r >= 0 && IsScalarValue(r) && Encode(r) == bytes
  {
    var b0, b1, b2 := bytes[0] as int - 0xE0, bytes[1] as int - 0x80, bytes[2] as int - 0x80;
    var r := CodePoint(bytes);
    assert r == 0x1000 * b0 + 0x40 * b1 + b2 && 0 <= b1 < 0x40 && 0 <= b2 < 0x40;
    ThreeDigits(b0, b1, b2);
  }

  lemma ThreeDigits(a: int, b: int, c: int)
    requires 0 <= a && 0 <= b < 0x40 && 0 <= c < 0x40
    ensures var r := 0x1000 * a + 0x40 * b + c;
            r / 0x1000 == a && r / 0x40 == 0x40 * a + b && r / 0x40 % 0x40 == b && r % 0x40 == c
  {
  }

  lemma DecodeFour(bytes: string)
    requires IsRune(bytes) && |bytes| == 4
    ensures var r := CodePoint(bytes); r >= 0 && IsScalarValue(r) && Encode(r) == bytes
  {
    var b0, b1, b2, b3 := bytes[0] as int - 0xF0, bytes[1] as int - 0x80, bytes[2] as int - 0x80,
      bytes[3] as int - 0x80;
    var r := CodePoint(bytes);
    assert r == 0x40000 * b0 + 0x1000 * b1 + 0x40 * b2 + b3;
    ThreeDigits(0x40 * b0 + b1, b2, b3);
    assert r / 0x1000 == 0x40 * b0 + b1 && r / 0x40000 == b0 && r / 0x1000 % 0x40 == b1;
  }

  /** utf16.DecodeRune of a surrogate pair. */
  function Combine(high: nat, low: nat): nat
    requires IsHigh(high) && IsLow(low)
  {
    0x400 * (high - 0xD800) + (low - 0xDC00) + 0x10000
  }

  /** Every code point above 0xFFFF has one surrogate pair, and the pair gives it back. */
  lemma PairsAreUnique(r: nat, high: nat, low: nat)
    requires 0x10000 <= r < 0x110000 && IsHigh(high) && IsLow(low)
    ensures Combine(high, low) == r <==> high == 0xD800 + (r - 0x10000) / 0x400 && low == 0xDC00 + (r - 0x10000) % 0x400
    ensures 0x10000 <= Combine(high, low) < 0x110000
  {
  }

  // ----- what a string denotes -----

  function SimpleValue(mark: char): nat {
    if mark == 'b' then 8 else if mark == 'f' then 12 else if mark == 'n' then 10
    else if mark == 'r' then 13 else if mark == 't' then 9 else mark as nat
  }

  /** The code point a character denotes. */
  function Denoted(c: Char): (r: nat)
    requires CharOk(c)
    ensures IsScalarValue(r)
  {
    match c
    case Raw(b) => b as nat
    case Rune(bytes) => DecodeEncodes(bytes); CodePoint(bytes)
    case Escape(mark) => SimpleValue(mark)
    case Code(hex) => HexValue(hex)
    case Pair(high, low) =>
      PairsAreUnique(0x10000, HexValue(high), HexValue(low));
      Combine(HexValue(high), HexValue(low))
  }

  /** The bytes the decoder appends for a character. */
  function Bytes(c: Char): string
    requires CharOk(c)
  {
    match c
    case Raw(b) => [b]
    case Rune(bytes) => bytes
    case Escape(mark) => [SimpleValue(mark) as char]
    case Code(hex) => Encode(HexValue(hex))
    case Pair(high, low) => Encode(Combine(HexValue(high), HexValue(low)))
  }

  /** They are the UTF-8 encoding of the code point denoted. */
  lemma BytesEncode(c: Char)
    requires CharOk(c)
    ensures Bytes(c) == Encode(Denoted(c)) && IsCharacter(Bytes(c))
  {
    if c.Rune? { DecodeEncodes(c.bytes); }
    EncodeDecodes(Denoted(c));
    hide IsCharacter, CodePoint, HexValue, IsHex4;
  }

  function Points(cs: seq<Char>): seq<nat>
    requires CharsOk(cs)
  {
    if cs == [] then [] else [Denoted(cs[0])] + Points(cs[1..])
  }

  function EncodeAll(points: seq<nat>): string {
    if points == [] then "" else Encode(points[0]) + EncodeAll(points[1..])
  }

  function Decoded(cs: seq<Char>): string
    requires CharsOk(cs)
  {
    if cs == [] then "" else Bytes(cs[0]) + Decoded(cs[1..])
  }

  // ----- well-formed UTF-8 -----

  lemma CharacterThen(bytes: string, rest: string)
    requires IsCharacter(bytes)
    ensures Utf8.Valid(bytes + rest) == Utf8.Valid(rest)
  {
    var s := bytes + rest;
    if |bytes| > 1 { RunePrefix(bytes, rest); }
    hide Utf8.RuneSize;
    assert s[0] == bytes[0] && s[|bytes|..] == rest;
    Utf8.ValidSuffix(s, |bytes|);
  }

  /** The decoded bytes are the UTF-8 encoding of the string's code points, and so
      always well formed. */
  lemma {:induction false} DecodedIsUtf8(cs: seq<Char>)
    requires CharsOk(cs)
    ensures Decoded(cs) == EncodeAll(Points(cs)) && Utf8.Valid(Decoded(cs))
    decreases |cs|
  {
    if cs != [] {
      hide CharOk, Bytes, Denoted, Encode, Utf8.ValidFrom;
      DecodedIsUtf8(cs[1..]);
      BytesEncode(cs[0]);
      CharacterThen(Bytes(cs[0]), Decoded(cs[1..]));
    }
  }

  lemma {:induction false} AsciiThen(a: string, rest: string)
    requires forall c | c in a :: (c as int) < 0x80
    ensures Utf8.Valid(a + rest) == Utf8.Valid(rest)
    decreases |a|
  {
    hide Utf8.ValidFrom;
    if a == "" {
      assert a + rest == rest;
    } else {
      assert a[0] in a && a + rest == [a[0]] + (a[1..] + rest);
      CharacterThen([a[0]], a[1..] + rest);
      forall c | c in a[1..] ensures c in a {}
      AsciiThen(a[1..], rest);
    }
  }

  lemma SpellCharThen(c: Char, rest: string)
    requires CharOk(c)
    ensures Utf8.Valid(SpellChar(c) + rest) == Utf8.Valid(rest)
  {
    if c.Rune? {
      CharacterThen(c.bytes, rest);
    } else {
      SpelledAscii(c);
      AsciiThen(SpellChar(c), rest);
    }
  }

  lemma SpelledAscii(c: Char)
    requires CharOk(c) && !c.Rune?
    ensures forall b | b in SpellChar(c) :: (b as int) < 0x80
  {
    hide HexValue;
  }

  /** A string's spelling is well-formed UTF-8 wherever what follows is. */
  lemma {:induction false} SpellThen(cs: seq<Char>, rest: string)
    requires CharsOk(cs)
    ensures Utf8.Valid(Spell(cs) + rest) == Utf8.Valid(rest)
    decreases |cs|
  {
    hide CharOk, SpellChar, Utf8.ValidFrom;
    if cs == [] {
      assert Spell(cs) + rest == rest;
    } else {
      assert Spell(cs) + rest == SpellChar(cs[0]) + (Spell(cs[1..]) + rest);
      SpellCharThen(cs[0], Spell(cs[1..]) + rest);
      SpellThen(cs[1..], rest);
    }
  }

  /** So the decoder's check of the whole token never rejects what its loop accepts. */
  lemma QuotedIsValid(cs: seq<Char>)
    requires CharsOk(cs)
    ensures Utf8.Valid("\"" + Spell(cs) + "\"")
  {
    var s := Spell(cs) + "\"";
    SpellThen(cs, "\"");
    assert Utf8.Valid("\"");
    AsciiThen("\"", s);
    assert "\"" + Spell(cs) + "\"" == "\"" + s;
  }
}
