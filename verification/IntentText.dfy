/** What the text checks of the action intents mean: a text is valid when it is the
    UTF-8 encoding of some code points, and its length in characters is their number. */
module IntentText {
  import opened IntentUsers
  import opened JsonDecode
  import opened JsonString
  import Utf8

  /** The code points of section 3 of RFC 3629: all but the surrogates. */
  predicate Scalars(points: seq<nat>) {
    forall r | r in points :: r < 0xD800 || 0xE000 <= r < 0x110000
  }

  /** The text is the encoding of these code points. */
  predicate Spells(points: seq<nat>, s: string) {
    Scalars(points) && EncodeAll(points) == s
  }

  lemma {:induction false} CountFrom(s: string, i: nat, j: nat)
    requires i + j <= |s|
    ensures RuneCountFrom(s, i + j) == RuneCountFrom(s[i..], j)
    decreases |s| - i - j
  {
    if i + j < |s| {
      Utf8.RuneOfTail(s, i, j);
      CountFrom(s, i, j + Utf8.RuneSize(s, i + j));
    }
  }

  lemma CharacterSize(bytes: string, rest: string)
    requires IsCharacter(bytes)
    ensures bytes != "" && Utf8.RuneSize(bytes + rest, 0) == |bytes|
  {
    if |bytes| > 1 { RunePrefix(bytes, rest); }
  }

  lemma CharacterCounts(bytes: string, rest: string)
    requires IsCharacter(bytes)
    ensures RuneCountFrom(bytes + rest, 0) == 1 + RuneCountFrom(rest, 0)
  {
    CharacterSize(bytes, rest);
    hide Utf8.RuneSize, IsCharacter;
    CountFrom(bytes + rest, |bytes|, 0);
    assert (bytes + rest)[|bytes|..] == rest;
  }

  /** Encoded code points are valid text, with one character for each of them. */
  lemma {:induction false} EncodedIsText(points: seq<nat>)
    requires Scalars(points)
    ensures Utf8.Valid(EncodeAll(points)) && RuneCountFrom(EncodeAll(points), 0) == |points|
    decreases |points|
  {
    if points != [] {
      hide Encode, Utf8.ValidFrom, RuneCountFrom, CodePoint, IsCharacter;
      assert points[0] in points && IsScalarValue(points[0]);
      forall r | r in points[1..] ensures r < 0xD800 || 0xE000 <= r < 0x110000 { assert r in points; }
      EncodeDecodes(points[0]);
      EncodedIsText(points[1..]);
      CharacterThen(Encode(points[0]), EncodeAll(points[1..]));
      CharacterCounts(Encode(points[0]), EncodeAll(points[1..]));
    }
  }

  /** The first character of a valid text, and the valid rest. */
  lemma FirstCharacter(s: string)
    requires Utf8.Valid(s) && s != ""
    ensures var n := Utf8.RuneSize(s, 0);
            IsCharacter(s[..n]) && Utf8.Valid(s[n..])
  {
    if s[0] as int < 0x80 {
      Utf8.ValidSuffix(s, 1);
    } else {
      RuneCut(s);
      Utf8.ValidSuffix(s, Utf8.RuneSize(s, 0));
    }
  }

  /** Every valid text is the encoding of some code points. */
  lemma {:induction false} TextIsEncoded(s: string) returns (points: seq<nat>)
    requires Utf8.Valid(s)
    ensures Spells(points, s)
    decreases |s|
  {
    if s == "" {
      points := [];
    } else {
      hide Utf8.RuneSize, Utf8.ValidFrom, Encode, CodePoint, IsCharacter;
      FirstCharacter(s);
      var n := Utf8.RuneSize(s, 0);
      DecodeEncodes(s[..n]);
      var rest := TextIsEncoded(s[n..]);
      points := [CodePoint(s[..n])] + rest;
      assert points[1..] == rest && s == s[..n] + s[n..];
    }
  }

  /** utf8.ValidString and the character count together: how long a text is. */
  lemma ReasonOkIff(reason: string)
    ensures ReasonOk(reason) <==> exists points | Spells(points, reason) :: 1 <= |points| <= 200
  {
    if Utf8.Valid(reason) {
      var points := TextIsEncoded(reason);
      EncodedIsText(points);
    }
    forall points | Spells(points, reason) ensures Utf8.Valid(reason) && RuneCountFrom(reason, 0) == |points| {
      EncodedIsText(points);
    }
  }

  lemma PlainIff(s: string)
    ensures PlainString(s) <==> exists points | Spells(points, s) :: points != []
  {
    if Utf8.Valid(s) {
      var points := TextIsEncoded(s);
      EncodedIsText(points);
    }
    forall points | Spells(points, s) ensures Utf8.Valid(s) && RuneCountFrom(s, 0) == |points| {
      EncodedIsText(points);
    }
  }
}
