/** bytes.TrimSpace: what it removes from either end of a text, and that it keeps the
    text between. */
module TrimSpace {
  import opened Prelude
  import JsonDecode

  /** The length of the character with the bytes a, b and c, or as many of them as it
      has, when it is one unicode.IsSpace accepts; otherwise 0. */
  function SpaceSize(a: int, b: int, c: int): (n: nat) {
    if a == 0x20 || 0x09 <= a <= 0x0D then 1
    else if a == 0xC2 && (b == 0x85 || b == 0xA0) then 2
    else if a == 0xE1 && b == 0x9A && c == 0x80 then 3
    else if a == 0xE2 && b == 0x80 && (0x80 <= c <= 0x8A || c == 0xA8 || c == 0xA9 || c == 0xAF) then 3
    else if a == 0xE2 && b == 0x81 && c == 0x9F then 3
    else if a == 0xE3 && b == 0x80 && c == 0x80 then 3
    else 0
  }

  /** The byte at i, or -1 outside the text. */
  function ByteAt(s: string, i: int): int {
    if 0 <= i < |s| then s[i] as int else -1
  }

  predicate IsSpaceChar(s: string) {
    s != "" && SpaceSize(ByteAt(s, 0), ByteAt(s, 1), ByteAt(s, 2)) == |s|
  }

  /** The length of the space character s begins with, or 0. */
  function SpaceAtStart(s: string): (n: nat)
    ensures n <= |s|
  {
    SpaceSize(ByteAt(s, 0), ByteAt(s, 1), ByteAt(s, 2))
  }

  /** The length of the space character s ends with, or 0. */
  function SpaceAtEnd(s: string): (n: nat)
    ensures n <= |s|
  {
    var n := |s|;
    if SpaceSize(ByteAt(s, n - 1), -1, -1) == 1 then 1
    else if SpaceSize(ByteAt(s, n - 2), ByteAt(s, n - 1), -1) == 2 then 2
    else if SpaceSize(ByteAt(s, n - 3), ByteAt(s, n - 2), ByteAt(s, n - 1)) == 3 then 3
    else 0
  }

  function TrimLeft(s: string): string
    decreases |s|
  {
    if SpaceAtStart(s) == 0 then s else TrimLeft(s[SpaceAtStart(s)..])
  }

  function TrimRight(s: string): string
    decreases |s|
  {
    if SpaceAtEnd(s) == 0 then s else TrimRight(s[..|s| - SpaceAtEnd(s)])
  }

  function Trimmed(s: string): string {
    TrimRight(TrimLeft(s))
  }

  // ----- what stays -----

  predicate AllSpaces(ps: seq<string>) {
    forall p | p in ps :: IsSpaceChar(p)
  }

  function Concat(ps: seq<string>): string {
    if ps == [] then "" else ps[0] + Concat(ps[1..])
  }

  /** A text trimming leaves alone. */
  predicate Tight(s: string) {
    s != "" && SpaceAtStart(s) == 0 && SpaceAtEnd(s) == 0
  }

  lemma SpaceFirst(p: string, s: string)
    requires IsSpaceChar(p)
    ensures SpaceAtStart(p + s) == |p| && (p + s)[|p|..] == s
  {
    assert forall i | 0 <= i < |p| :: ByteAt(p + s, i) == ByteAt(p, i);
  }

  lemma SpaceLast(s: string, p: string)
    requires IsSpaceChar(p)
    ensures SpaceAtEnd(s + p) == |p| && (s + p)[..|s|] == s
  {
    var t, n := s + p, |s| + |p|;
    assert forall i | 0 <= i < |p| :: ByteAt(t, |s| + i) == ByteAt(p, i);
    assert |p| <= 3 && ByteAt(t, n - 1) == ByteAt(p, |p| - 1);
  }

  lemma {:induction false} TrimLeftPadded(ps: seq<string>, s: string)
    requires AllSpaces(ps) && SpaceAtStart(s) == 0
    ensures TrimLeft(Concat(ps) + s) == s
    decreases |ps|
  {
    if ps == [] {
      assert Concat(ps) + s == s;
    } else {
      hide IsSpaceChar, SpaceAtStart;
      SpaceFirst(ps[0], Concat(ps[1..]) + s);
      Assoc(ps[0], Concat(ps[1..]), s);
      SpaceNotEmpty(ps[0]);
      TrimLeftPadded(ps[1..], s);
    }
  }

  lemma SpaceNotEmpty(p: string)
    requires IsSpaceChar(p)
    ensures p != ""
  {
  }

  lemma {:induction false} ConcatSnoc(ps: seq<string>)
    requires ps != []
    ensures Concat(ps) == Concat(ps[..|ps| - 1]) + ps[|ps| - 1]
    decreases |ps|
  {
    var n := |ps| - 1;
    if n == 0 {
      assert ps[..0] == [] && ps[1..] == [] && ps[0] + "" == "" + ps[0];
    } else {
      ConcatSnoc(ps[1..]);
      assert ps[1..][..n - 1] == ps[..n][1..] && ps[..n][0] == ps[0];
      Assoc(ps[0], Concat(ps[..n][1..]), ps[n]);
    }
  }

  lemma {:induction false} TrimRightPadded(s: string, ps: seq<string>)
    requires AllSpaces(ps) && SpaceAtEnd(s) == 0
    ensures TrimRight(s + Concat(ps)) == s
    decreases |ps|
  {
    if ps == [] {
      assert s + Concat(ps) == s;
    } else {
      hide IsSpaceChar, SpaceAtEnd;
      var n := |ps| - 1;
      ConcatSnoc(ps);
      Assoc(s, Concat(ps[..n]), ps[n]);
      SpaceLast(s + Concat(ps[..n]), ps[n]);
      SpaceNotEmpty(ps[n]);
      TrimRightPadded(s, ps[..n]);
    }
  }

  /** Space characters around a tight text are removed, and nothing else. */
  lemma TrimmedPadded(left: seq<string>, s: string, right: seq<string>)
    requires AllSpaces(left) && AllSpaces(right) && Tight(s) && SpaceAtStart(s + Concat(right)) == 0
    ensures Trimmed(Concat(left) + s + Concat(right)) == s
  {
    hide SpaceAtStart, SpaceAtEnd, IsSpaceChar;
    Assoc(Concat(left), s, Concat(right));
    TrimLeftPadded(left, s + Concat(right));
    TrimRightPadded(s, right);
  }

  /** A quoted text is tight, whatever follows it. */
  lemma QuotedIsTight(s: string, rest: string)
    requires |s| >= 2 && s[0] == '"' && s[|s| - 1] == '"'
    ensures Tight(s) && SpaceAtStart(s + rest) == 0
  {
    assert ByteAt(s, 0) == 0x22 && ByteAt(s + rest, 0) == 0x22 && ByteAt(s, |s| - 1) == 0x22;
    hide ByteAt;
  }

  // ----- which characters are space -----

  /** unicode.IsSpace. */
  predicate IsSpacePoint(r: nat) {
    || 0x09 <= r <= 0x0D || r == 0x20 || r == 0x85 || r == 0xA0 || r == 0x1680 || 0x2000 <= r <= 0x200A
    || r == 0x2028 || r == 0x2029 || r == 0x202F || r == 0x205F || r == 0x3000
  }

  lemma ShortSpace(r: nat)
    requires r < 0x800
    ensures IsSpaceChar(JsonDecode.Encode(r)) <==> IsSpacePoint(r)
  {
  }

  lemma LongSpace(r: nat)
    requires 0x800 <= r < 0x10000 && JsonDecode.IsScalarValue(r)
    ensures IsSpaceChar(JsonDecode.Encode(r)) <==> IsSpacePoint(r)
  {
    var a, b, c := r / 0x1000, r / 0x40 % 0x40, r % 0x40;
    assert r == 0x1000 * a + 0x40 * b + c;
    var s := JsonDecode.Encode(r);
    assert ByteAt(s, 0) == 0xE0 + a && ByteAt(s, 1) == 0x80 + b && ByteAt(s, 2) == 0x80 + c;
    hide JsonDecode.Encode, ByteAt;
  }

  lemma OtherSpace(r: nat)
    requires 0x10000 <= r < 0x110000
    ensures !IsSpaceChar(JsonDecode.Encode(r))
  {
  }

  /** What is trimmed is the encodings of these code points. */
  lemma SpaceIff(r: nat)
    requires JsonDecode.IsScalarValue(r)
    ensures IsSpaceChar(JsonDecode.Encode(r)) <==> IsSpacePoint(r)
  {
    hide JsonDecode.Encode, IsSpaceChar, IsSpacePoint;
    if r < 0x800 { ShortSpace(r); } else if r < 0x10000 { LongSpace(r); } else { OtherSpace(r); }
    if r >= 0x10000 { NoHighSpace(r); }
  }

  lemma NoHighSpace(r: nat)
    requires r >= 0x10000
    ensures !IsSpacePoint(r)
  {
  }

  /** And nothing else is. */
  lemma SpaceIsEncoded(s: string) returns (r: nat)
    requires IsSpaceChar(s)
    ensures IsSpacePoint(r) && s == JsonDecode.Encode(r)
  {
    SpaceIsCharacter(s);
    JsonDecode.DecodeEncodes(s);
    r := JsonDecode.CodePoint(s);
    SpaceIff(r);
    hide JsonDecode.CodePoint, JsonDecode.Encode, IsSpaceChar, IsSpacePoint;
  }

  lemma SpaceIsCharacter(s: string)
    requires IsSpaceChar(s)
    ensures JsonDecode.IsCharacter(s)
  {
  }
}
