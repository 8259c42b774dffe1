/** The loops over a JSON string: the skipper, the decoder and the whole-text
    token check, proved against the reading functions and against each other. */
module JsonStringScan {
  import opened Prelude
  import opened JsonString
  import opened JsonDecode
  import opened JsonWriter
  import TrimSpace
  import Utf8

  /** parseUserDeleteHex4 and parseAdminUserEditHex4. */
  method ParseHex4(raw: string, start: nat) returns (value: nat, ok: bool)
    requires start <= |raw|
    ensures ok == (start + 4 <= |raw| && IsHex4(raw[start..start + 4]))
    ensures ok ==> value == HexValue(raw[start..start + 4])
  {
    value := 0;
    if start + 4 > |raw| { return 0, false; }
    var digits := raw[start..start + 4];
    for i := 0 to 4
      invariant forall k | 0 <= k < i :: IsHex(digits[k])
      invariant value == PartialHex(digits, i)
    {
      if !IsHex(digits[i]) { return 0, false; }
      value := value * 16 + HexDigit(digits[i]);
    }
    assert PartialHex(digits, 1) == HexDigit(digits[0]);
    assert PartialHex(digits, 2) == 16 * HexDigit(digits[0]) + HexDigit(digits[1]);
    assert PartialHex(digits, 3) == 16 * PartialHex(digits, 2) + HexDigit(digits[2]);
    ok := true;
  }

  function PartialHex(h: string, n: nat): (v: nat)
    requires n <= |h|
  {
    if n == 0 then 0 else 16 * PartialHex(h, n - 1) + HexDigit(h[n - 1])
  }

  lemma SliceOfSlice(raw: string, i: nat, end: nat, a: nat, b: nat)
    requires i <= end <= |raw| && a <= b <= end - i
    ensures raw[i..end][a..b] == raw[i + a..i + b]
  {
    var s, t := raw[i..end][a..b], raw[i + a..i + b];
    assert |s| == |t|;
    assert forall k | 0 <= k < |s| :: s[k] == raw[i..end][a + k] == t[k];
  }

  lemma SliceOfTail(raw: string, i: nat, a: nat, b: nat)
    requires i <= |raw| && a <= b <= |raw| - i
    ensures raw[i..][a..b] == raw[i + a..i + b]
  {
  }

  /** The rest of s after n more bytes is the rest of raw from a later offset. */
  lemma Tail(raw: string, i: nat, n: nat)
    requires i + n <= |raw|
    ensures raw[i..][n..] == raw[i + n..]
    ensures forall k | 0 <= k < |raw| - i :: raw[i..][k] == raw[i + k]
  {
  }

  /** One character of a string at an offset: where it ends. The skipper's and the
      token check's switch. */
  method SkipChar(raw: string, offset: nat) returns (end: nat, ok: bool)
    requires offset < |raw| && raw[offset] != '"'
    ensures ok == ReadChar(raw[offset..]).Some?
    ensures ok ==> offset < end <= |raw| && raw[end..] == ReadChar(raw[offset..]).value.1
  {
    hide IsHex4, HexValue, Utf8.RuneSize;
    var s, value := raw[offset..], raw[offset];
    if (value as int) < 0x20 { return offset, false; }
    if value == '\\' {
      var mark := offset + 1;
      if mark >= |raw| { return offset, false; }
      if IsSimple(raw[mark]) { return mark + 1, true; }
      if raw[mark] != 'u' { return offset, false; }
      end, ok := SkipUnicode(raw, offset);
      return;
    }
    if value as int >= 0x80 {
      RuneAtStart(raw, offset);
      var size := Utf8.RuneSize(raw, offset);
      if size == 1 { return offset, false; }
      return offset + size, true;
    }
    return offset + 1, true;
  }

  /** A \u escape, with its partner when it is a high surrogate. */
  method SkipUnicode(raw: string, offset: nat) returns (end: nat, ok: bool)
    requires offset + 2 <= |raw|
    ensures ok == ReadUnicode(raw[offset..]).Some?
    ensures ok ==> offset < end <= |raw| && raw[end..] == ReadUnicode(raw[offset..]).value.1
  {
    hide IsHex4, HexValue;
    var s, mark := raw[offset..], offset + 1;
    var codePoint, hexOK := ParseHex4(raw, mark + 1);
    if |s| >= 6 { SliceOfTail(raw, offset, 2, 6); }
    if !hexOK { return offset, false; }
    mark := mark + 4;
    if IsHigh(codePoint) {
      if mark + 6 >= |raw| || raw[mark + 1] != '\\' || raw[mark + 2] != 'u' { return offset, false; }
      var low, lowOK := ParseHex4(raw, mark + 3);
      SliceOfTail(raw, offset, 8, 12);
      if !lowOK || !IsLow(low) { return offset, false; }
      mark := mark + 6;
    } else if IsLow(codePoint) {
      return offset, false;
    }
    return mark + 1, true;
  }

  /** skipUserDeleteJSONString: the end of the string token at an offset. */
  method SkipString(raw: string, offset: nat) returns (end: nat, ok: bool)
    requires offset <= |raw|
    ensures ok == (offset < |raw| && raw[offset] == '"' && ReadBody(raw[offset + 1..]).Some?)
    ensures ok ==> offset < end <= |raw| && raw[end..] == ReadBody(raw[offset + 1..]).value.1
  {
    hide ReadChar;
    end := offset;
    if end >= |raw| || raw[end] != '"' { return end, false; }
    end := end + 1;
    ghost var start := raw[end..];
    while end < |raw|
      invariant offset < end <= |raw|
      invariant ReadBody(start).Some? == ReadBody(raw[end..]).Some?
      invariant ReadBody(start).Some? ==> ReadBody(start).value.1 == ReadBody(raw[end..]).value.1
    {
      ghost var here := raw[end..];
      if raw[end] == '"' { return end + 1, true; }
      end, ok := SkipChar(raw, end);
      if !ok { return end, false; }
    }
    return end, false;
  }

  /** decodeOwnedUserDeleteJSONString after its first line. */
  method DecodeTrimmed(raw: string) returns (decoded: string, ok: bool)
    ensures ok == (|raw| >= 2 && raw[0] == '"' && raw[|raw| - 1] == '"' && ReadInner(raw[1..|raw| - 1]).Some?)
    ensures ok ==> CharsOk(ReadInner(raw[1..|raw| - 1]).value) && decoded == Decoded(ReadInner(raw[1..|raw| - 1]).value)
  {
    hide ReadChar, Bytes, CharOk, Utf8.ValidFrom;
    if |raw| < 2 || raw[0] != '"' || raw[|raw| - 1] != '"' { return "", false; }
    ghost var inner := raw[1..|raw| - 1];
    if ReadInner(inner).Some? { ReadableIsValid(raw); }
    if !Utf8.Valid(raw) { return "", false; }
    decoded := "";
    var i := 1;
    ghost var cs: seq<Char> := [];
    PrefixedNothing(ReadInner(inner));
    while i < |raw| - 1
      invariant 1 <= i <= |raw| - 1
      invariant CharsOk(cs) && decoded == Decoded(cs)
      invariant ReadInner(inner) == Prefixed(cs, ReadInner(raw[i..|raw| - 1]))
    {
      ghost var here := raw[i..|raw| - 1];
      var bytes, end, charOK := DecodeChar(raw, i);
      if !charOK { return "", false; }
      ghost var c := ReadChar(here).value.0;
      ReadCharSound(here);
      DecodedSnoc(cs, c);
      PrefixedOne(cs, c, ReadInner(raw[end..|raw| - 1]));
      cs := cs + [c];
      decoded := decoded + bytes;
      i := end;
    }
    assert cs + [] == cs;
    return decoded, true;
  }

  /** decodeOwnedUserDeleteJSONString: it takes exactly what may be written for some code
      points, and gives their UTF-8. */
  method Decode(raw: string) returns (decoded: string, ok: bool)
    ensures ok <==> exists points :: QuotedAs(TrimSpace.Trimmed(raw), points)
    ensures ok ==> forall points :: QuotedAs(TrimSpace.Trimmed(raw), points) ==> decoded == EncodeAll(points)
  {
    hide ReadInner, Decoded, CharsOk, QuotedAs, EncodeAll;
    var text := TrimSpace.Trimmed(raw);
    decoded, ok := DecodeTrimmed(text);
    forall points | QuotedAs(text, points) ensures ok && decoded == EncodeAll(points) {
      QuotedIff(text, EncodeAll(points));
    }
    if ok { QuotedIff(text, decoded); }
  }

  /** A quoted token, with any space around it, is decoded as the token alone. */
  lemma PaddingDoesNotMatter(left: seq<string>, token: string, right: seq<string>)
    requires |token| >= 2 && token[0] == '"' && token[|token| - 1] == '"'
    requires TrimSpace.AllSpaces(left) && TrimSpace.AllSpaces(right)
    ensures TrimSpace.Trimmed(TrimSpace.Concat(left) + token + TrimSpace.Concat(right)) == token
  {
    TrimSpace.QuotedIsTight(token, TrimSpace.Concat(right));
    TrimSpace.TrimmedPadded(left, token, right);
  }

  lemma {:induction false} DecodedSnoc(cs: seq<Char>, c: Char)
    requires CharsOk(cs) && CharOk(c)
    ensures CharsOk(cs + [c]) && Decoded(cs + [c]) == Decoded(cs) + Bytes(c)
    decreases |cs|
  {
    hide CharOk, Bytes;
    if cs == [] {
      assert [] + [c] == [c] && [c][1..] == [];
    } else {
      DecodedSnoc(cs[1..], c);
      assert (cs + [c])[1..] == cs[1..] + [c];
    }
  }

  /** What can be read as a string is UTF-8: the check before the loop rejects
      nothing the loop would have accepted. */
  lemma ReadableIsValid(raw: string)
    requires |raw| >= 2 && raw[0] == '"' && raw[|raw| - 1] == '"' && ReadInner(raw[1..|raw| - 1]).Some?
    ensures Utf8.Valid(raw)
  {
    hide ReadInner, Utf8.ValidFrom;
    var inner := raw[1..|raw| - 1];
    InnerSound(inner);
    QuotedIsValid(ReadInner(inner).value);
    assert raw == "\"" + inner + "\"";
  }

  /** One turn of the decoder's loop, which stops one byte short of the closing quote. */
  method DecodeChar(raw: string, i: nat) returns (bytes: string, end: nat, ok: bool)
    requires i < |raw| - 1 && raw[|raw| - 1] == '"'
    ensures ok == ReadChar(raw[i..|raw| - 1]).Some?
    ensures ok ==> i < end <= |raw| - 1 && raw[end..|raw| - 1] == ReadChar(raw[i..|raw| - 1]).value.1
    ensures ok ==> CharOk(ReadChar(raw[i..|raw| - 1]).value.0) && bytes == Bytes(ReadChar(raw[i..|raw| - 1]).value.0)
  {
    hide IsHex4, HexValue, Utf8.RuneSize, Encode, CharOk;
    var s, value := raw[i..|raw| - 1], raw[i];
    if ReadChar(s).Some? { ReadCharSound(s); }
    if value == '"' || (value as int) < 0x20 { return "", i, false; }
    if value == '\\' {
      var mark := i + 1;
      if mark >= |raw| - 1 { return "", i, false; }
      if raw[mark] == 'u' {
        bytes, end, ok := DecodeUnicode(raw, i);
        return;
      }
      if !IsSimple(raw[mark]) { return "", i, false; }
      return [SimpleValue(raw[mark]) as char], mark + 1, true;
    }
    if (value as int) < 0x80 { return [value], i + 1, true; }
    var size := Utf8.RuneSize(s, 0);
    if size == 1 { return "", i, false; }
    return raw[i..i + size], i + size, true;
  }

  method DecodeUnicode(raw: string, i: nat) returns (bytes: string, end: nat, ok: bool)
    requires i + 2 < |raw| && raw[|raw| - 1] == '"'
    ensures ok == ReadUnicode(raw[i..|raw| - 1]).Some?
    ensures ok ==> i < end <= |raw| - 1 && raw[end..|raw| - 1] == ReadUnicode(raw[i..|raw| - 1]).value.1
    ensures ok && CharOk(ReadUnicode(raw[i..|raw| - 1]).value.0) ==>
            bytes == Bytes(ReadUnicode(raw[i..|raw| - 1]).value.0)
  {
    hide HexValue, Encode;
    var s, mark := raw[i..|raw| - 1], i + 1;
    var codePoint, hexOK := ParseHex4(raw, mark + 1);
    if |s| >= 6 { SliceOfSlice(raw, i, |raw| - 1, 2, 6); }
    if !hexOK { return "", i, false; }
    mark := mark + 4;
    var r := codePoint;
    if IsHigh(codePoint) {
      if mark + 6 >= |raw| || raw[mark + 1] != '\\' || raw[mark + 2] != 'u' { return "", i, false; }
      var low, lowOK := ParseHex4(raw, mark + 3);
      if |s| >= 12 { SliceOfSlice(raw, i, |raw| - 1, 8, 12); }
      if !lowOK || !IsLow(low) { return "", i, false; }
      r := Combine(codePoint, low);
      mark := mark + 6;
    } else if IsLow(codePoint) {
      return "", i, false;
    }
    return Encode(r), mark + 1, true;
  }

  /** Every quote met outside a token starts a string the skipper accepts. */
  predicate EveryTokenIsRead(s: string)
    decreases |s|
  {
    if s == "" then true
    else if s[0] != '"' then EveryTokenIsRead(s[1..])
    else ReadBody(s[1..]).Some? && EveryTokenIsRead(ReadBody(s[1..]).value.1)
  }

  /** validAdminUserEditStringTokens. */
  method ValidStringTokens(raw: string) returns (ok: bool)
    ensures ok == EveryTokenIsRead(raw)
  {
    hide ReadChar;
    var offset := 0;
    assert raw[0..] == raw;
    while offset < |raw|
      invariant offset <= |raw|
      invariant EveryTokenIsRead(raw) == EveryTokenIsRead(raw[offset..])
    {
      Tail(raw, offset, 1);
      if raw[offset] != '"' {
        offset := offset + 1;
        continue;
      }
      ghost var start := raw[offset + 1..];
      offset := offset + 1;
      var closed := false;
      while offset < |raw| && !closed
        invariant offset <= |raw|
        invariant !closed ==> ReadBody(start).Some? == ReadBody(raw[offset..]).Some?
        invariant !closed && ReadBody(start).Some? ==> ReadBody(start).value.1 == ReadBody(raw[offset..]).value.1
        invariant closed ==> ReadBody(start).Some? && ReadBody(start).value.1 == raw[offset..]
        invariant offset + |start| >= |raw|
        decreases |raw| - offset, !closed
      {
        Tail(raw, offset, 1);
        if raw[offset] == '"' {
          closed := true;
          offset := offset + 1;
        } else {
          var charOK;
          offset, charOK := SkipChar(raw, offset);
          if !charOK { return false; }
        }
      }
      if !closed { return false; }
    }
    return true;
  }

  /** The skipper spans a quoted text exactly when the decoder succeeds on it. */
  lemma SkipperAgreesWithDecoder(token: string)
    requires |token| >= 2 && token[0] == '"' && token[|token| - 1] == '"'
    ensures (ReadBody(token[1..]).Some? && ReadBody(token[1..]).value.1 == "") <==>
            ReadInner(token[1..|token| - 1]).Some?
  {
    hide ReadBody, ReadInner;
    var inner := token[1..|token| - 1];
    assert token[1..] == inner + "\"";
    if ReadBody(token[1..]).Some? { BodyIsInner(inner, ReadBody(token[1..]).value.0); }
    if ReadInner(inner).Some? { BodyIsInner(inner, ReadInner(inner).value); }
  }
}
