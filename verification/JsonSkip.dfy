/** The mutually recursive skippers, proved to read what the grammar reads: on
    success they end just after the value, strictly further on and inside the text. */
module JsonSkip {
  import opened Prelude
  import opened JsonString
  import opened JsonNumber
  import opened JsonGrammar
  import JsonStringScan

  /** skipUserDeleteSpace. */
  method SkipSpace(raw: string, offset: nat) returns (end: nat)
    requires offset <= |raw|
    ensures offset <= end <= |raw| && raw[end..] == ReadSpace(raw[offset..]).1
  {
    end := offset;
    while end < |raw| && IsBlank(raw[end])
      invariant offset <= end <= |raw|
      invariant ReadSpace(raw[offset..]).1 == ReadSpace(raw[end..]).1
    {
      assert raw[end..][1..] == raw[end + 1..];
      end := end + 1;
    }
  }

  /** The loops over digits. */
  method SkipDecimals(raw: string, offset: nat) returns (end: nat)
    requires offset <= |raw|
    ensures offset <= end <= |raw| && raw[end..] == ReadDecimals(raw[offset..]).1
    ensures end == offset <==> ReadDecimals(raw[offset..]).0 == ""
  {
    end := offset;
    while end < |raw| && IsDecimal(raw[end])
      invariant offset <= end <= |raw|
      invariant ReadDecimals(raw[offset..]).1 == ReadDecimals(raw[end..]).1
    {
      assert raw[end..][1..] == raw[end + 1..];
      end := end + 1;
    }
  }

  /** skipUserDeleteLiteral, for the three words. */
  method SkipLiteral(raw: string, offset: nat, literal: string) returns (end: nat, ok: bool)
    requires offset <= |raw|
    ensures ok == ReadWord(raw[offset..], literal).Some?
    ensures ok ==> end <= |raw| && end == offset + |literal| && raw[end..] == ReadWord(raw[offset..], literal).value.1
  {
    end := offset;
    if offset + |literal| > |raw| { return offset, false; }
    ghost var s := raw[offset..];
    for index := 0 to |literal|
      invariant s[..index] == literal[..index]
    {
      if raw[offset + index] != literal[index] {
        assert s[..|literal|][index] != literal[index];
        return offset, false;
      }
    }
    assert literal[..|literal|] == literal;
    return offset + |literal|, true;
  }

  lemma TailOf(raw: string, i: nat, n: nat)
    requires i + n <= |raw|
    ensures raw[i..][n..] == raw[i + n..]
  {
  }

  /** skipUserDeleteNumber: the sign and whole part. */
  method SkipWhole(raw: string, offset: nat) returns (end: nat, ok: bool)
    requires offset <= |raw|
    ensures ok == ReadWhole(raw[offset..]).Some?
    ensures ok ==> offset < end <= |raw| && raw[end..] == ReadWhole(raw[offset..]).value.1
  {
    if offset >= |raw| { return offset, false; }
    if raw[offset] == '0' {
      return offset + 1, true;
    } else if '1' <= raw[offset] <= '9' {
      end := SkipDecimals(raw, offset);
      return end, true;
    }
    return offset, false;
  }

  method SkipFraction(raw: string, offset: nat) returns (end: nat, ok: bool)
    requires offset <= |raw|
    ensures ok == ReadFraction(raw[offset..]).Some?
    ensures ok ==> offset <= end <= |raw| && raw[end..] == ReadFraction(raw[offset..]).value.1
  {
    if offset < |raw| && raw[offset] == '.' {
      TailOf(raw, offset, 1);
      var fractionStart := offset + 1;
      end := SkipDecimals(raw, fractionStart);
      return end, end != fractionStart;
    }
    return offset, true;
  }

  method SkipExponent(raw: string, offset: nat) returns (end: nat, ok: bool)
    requires offset <= |raw|
    ensures ok == ReadExponent(raw[offset..]).Some?
    ensures ok ==> offset <= end <= |raw| && raw[end..] == ReadExponent(raw[offset..]).value.1
  {
    if offset < |raw| && (raw[offset] == 'e' || raw[offset] == 'E') {
      var exponentStart := offset + 1;
      TailOf(raw, offset, 1);
      if exponentStart < |raw| && (raw[exponentStart] == '+' || raw[exponentStart] == '-') {
        exponentStart := exponentStart + 1;
        TailOf(raw, offset, 2);
      }
      assert exponentStart == offset + 1 + |SignOf(raw[offset..][1..])|;
      end := SkipDecimals(raw, exponentStart);
      return end, end != exponentStart;
    }
    return offset, true;
  }

  method SkipNumber(raw: string, offset: nat) returns (end: nat, ok: bool)
    requires offset <= |raw|
    ensures ok == ReadNumber(raw[offset..]).Some?
    ensures ok ==> offset < end <= |raw| && raw[end..] == ReadNumber(raw[offset..]).value.1
  {
    hide ReadWhole, ReadFraction, ReadExponent;
    end := offset;
    if end < |raw| && raw[end] == '-' {
      TailOf(raw, offset, 1);
      end := end + 1;
    }
    end, ok := SkipWhole(raw, end);
    if !ok { return offset, false; }
    end, ok := SkipFraction(raw, end);
    if !ok { return offset, false; }
    end, ok := SkipExponent(raw, end);
    if !ok { return offset, false; }
  }

  method SkipValue(raw: string, offset: nat) returns (end: nat, ok: bool)
    requires offset <= |raw|
    ensures ok == ReadValue(raw[offset..]).Some?
    ensures ok ==> offset < end <= |raw| && raw[end..] == ReadValue(raw[offset..]).value.1
    decreases |raw| - offset, 0
  {
    hide ReadBody, ReadObject, ReadArray, ReadNumber, ReadWord;
    if offset >= |raw| { return offset, false; }
    TailOf(raw, offset, 1);
    if raw[offset] == '"' {
      end, ok := JsonStringScan.SkipString(raw, offset);
    } else if raw[offset] == '{' {
      end, ok := SkipObject(raw, offset);
    } else if raw[offset] == '[' {
      end, ok := SkipArray(raw, offset);
    } else if raw[offset] == 't' {
      end, ok := SkipLiteral(raw, offset, "true");
    } else if raw[offset] == 'f' {
      end, ok := SkipLiteral(raw, offset, "false");
    } else if raw[offset] == 'n' {
      end, ok := SkipLiteral(raw, offset, "null");
    } else {
      end, ok := SkipNumber(raw, offset);
    }
  }

  /** skipUserDeleteArray, from the opening bracket. */
  method SkipArray(raw: string, offset: nat) returns (end: nat, ok: bool)
    requires offset < |raw|
    ensures ok == ReadArray(raw[offset + 1..]).Some?
    ensures ok ==> offset < end <= |raw| && raw[end..] == ReadArray(raw[offset + 1..]).value.1
    decreases |raw| - offset - 1, 1
  {
    hide ReadValue, ReadSpace;
    end := SkipSpace(raw, offset + 1);
    ghost var start := raw[end..];
    if end < |raw| { TailOf(raw, end, 1); }
    if end < |raw| && raw[end] == ']' { return end + 1, true; }
    while true
      invariant offset < end <= |raw|
      invariant ReadItems(start).Some? == ReadItems(raw[end..]).Some?
      invariant ReadItems(start).Some? ==> ReadItems(start).value.1 == ReadItems(raw[end..]).value.1
      decreases |raw| - end
    {
      end, ok := SkipValue(raw, end);
      if !ok { return end, false; }
      end := SkipSpace(raw, end);
      if end >= |raw| { return end, false; }
      TailOf(raw, end, 1);
      if raw[end] == ',' {
        end := SkipSpace(raw, end + 1);
      } else {
        return end + 1, raw[end] == ']';
      }
    }
  }

  /** The part of an object loop that reads one key, colon and value. */
  method SkipMember(raw: string, offset: nat) returns (end: nat, ok: bool)
    requires offset <= |raw|
    ensures ok == ReadMember(raw[offset..]).Some?
    ensures ok ==> offset < end <= |raw| && raw[end..] == ReadMember(raw[offset..]).value.1
    decreases |raw| - offset, 1
  {
    hide ReadBody, ReadValue, ReadSpace;
    if offset < |raw| { TailOf(raw, offset, 1); }
    end, ok := JsonStringScan.SkipString(raw, offset);
    if !ok { return; }
    end := SkipSpace(raw, end);
    if end >= |raw| || raw[end] != ':' { return end, false; }
    TailOf(raw, end, 1);
    end := SkipSpace(raw, end + 1);
    end, ok := SkipValue(raw, end);
    if !ok { return; }
    end := SkipSpace(raw, end);
  }

  /** skipUserDeleteObject, from the opening brace. */
  method SkipObject(raw: string, offset: nat) returns (end: nat, ok: bool)
    requires offset < |raw|
    ensures ok == ReadObject(raw[offset + 1..]).Some?
    ensures ok ==> offset < end <= |raw| && raw[end..] == ReadObject(raw[offset + 1..]).value.1
    decreases |raw| - offset - 1, 2
  {
    hide ReadMember, ReadSpace;
    end := SkipSpace(raw, offset + 1);
    ghost var start := raw[end..];
    if end < |raw| { TailOf(raw, end, 1); }
    if end < |raw| && raw[end] == '}' { return end + 1, true; }
    while true
      invariant offset < end <= |raw|
      invariant ReadMembers(start).Some? == ReadMembers(raw[end..]).Some?
      invariant ReadMembers(start).Some? ==> ReadMembers(start).value.1 == ReadMembers(raw[end..]).value.1
      decreases |raw| - end
    {
      end, ok := SkipMember(raw, end);
      if !ok || end >= |raw| { return end, false; }
      TailOf(raw, end, 1);
      if raw[end] == ',' {
        end := SkipSpace(raw, end + 1);
      } else {
        return end + 1, raw[end] == '}';
      }
    }
  }
}
