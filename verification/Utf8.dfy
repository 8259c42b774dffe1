/** The parts of Go's unicode/utf8 the repository relies on, written from
    section 3 of RFC 3629. */
module Utf8 {
  predicate Between(s: string, i: nat, low: int, high: int) {
    i < |s| && low <= s[i] as int <= high
  }

  /** utf8.DecodeRune's size for the bytes from `i`: 2 to 4 for a well-formed
      multi-byte sequence, otherwise 1 (an ASCII byte or an invalid one). */
  function RuneSize(s: string, i: nat): (size: nat)
    requires i < |s|
    ensures 1 <= size <= 4 && i + size <= |s|
  {
    if Between(s, i, 0xC2, 0xDF) && Between(s, i + 1, 0x80, 0xBF) then 2
    else if ThreeByteLead(s, i) && Between(s, i + 2, 0x80, 0xBF) then 3
    else if FourByteLead(s, i) && Between(s, i + 2, 0x80, 0xBF) && Between(s, i + 3, 0x80, 0xBF) then 4
    else 1
  }

  predicate ThreeByteLead(s: string, i: nat) {
    || (Between(s, i, 0xE0, 0xE0) && Between(s, i + 1, 0xA0, 0xBF))
    || (Between(s, i, 0xE1, 0xEC) && Between(s, i + 1, 0x80, 0xBF))
    || (Between(s, i, 0xED, 0xED) && Between(s, i + 1, 0x80, 0x9F))
    || (Between(s, i, 0xEE, 0xEF) && Between(s, i + 1, 0x80, 0xBF))
  }

  predicate FourByteLead(s: string, i: nat) {
    || (Between(s, i, 0xF0, 0xF0) && Between(s, i + 1, 0x90, 0xBF))
    || (Between(s, i, 0xF1, 0xF3) && Between(s, i + 1, 0x80, 0xBF))
    || (Between(s, i, 0xF4, 0xF4) && Between(s, i + 1, 0x80, 0x8F))
  }

  /** utf8.Valid and utf8.ValidString, from byte `i` on. */
  predicate ValidFrom(s: string, i: nat)
    requires i <= |s|
    decreases |s| - i
  {
    || i == |s|
    || (s[i] as int < 0x80 && ValidFrom(s, i + 1))
    || (s[i] as int >= 0x80 && RuneSize(s, i) > 1 && ValidFrom(s, i + RuneSize(s, i)))
  }

  predicate Valid(s: string) {
    ValidFrom(s, 0)
  }

  // ----- where a valid text may be cut -----

  /** Byte i does not continue a character: a character starts there, or the text ends. */
  predicate Boundary(s: string, i: nat) {
    !Between(s, i, 0x80, 0xBF)
  }

  lemma RuneOfPrefix(s: string, p: nat, i: nat)
    requires p < i <= |s| && s[p] as int >= 0x80 && RuneSize(s, p) > 1
    ensures RuneSize(s[..i], p) == if p + RuneSize(s, p) <= i then RuneSize(s, p) else 1
    ensures p + RuneSize(s, p) > i ==> Between(s, i, 0x80, 0xBF)
  {
  }

  lemma {:induction false} CutFrom(s: string, p: nat, i: nat)
    requires p <= i <= |s| && ValidFrom(s, p)
    ensures Boundary(s, i) <==> ValidFrom(s[..i], p) && ValidFrom(s, i)
    decreases |s| - p
  {
    if p < i {
      if s[p] as int < 0x80 {
        CutFrom(s, p + 1, i);
      } else {
        RuneOfPrefix(s, p, i);
        if p + RuneSize(s, p) <= i { CutFrom(s, p + RuneSize(s, p), i); }
      }
    }
  }

  lemma {:induction false} ValidShift(s: string, i: nat, j: nat)
    requires i + j <= |s|
    ensures ValidFrom(s, i + j) <==> ValidFrom(s[i..], j)
    decreases |s| - i - j
  {
    if i + j < |s| {
      if s[i + j] as int < 0x80 {
        ValidShift(s, i, j + 1);
      } else {
        RuneOfTail(s, i, j);
        ValidShift(s, i, j + RuneSize(s, i + j));
      }
    }
  }

  lemma ValidSuffix(s: string, i: nat)
    requires i <= |s|
    ensures ValidFrom(s, i) <==> Valid(s[i..])
  {
    ValidShift(s, i, 0);
  }

  lemma RuneOfTail(s: string, i: nat, j: nat)
    requires i + j < |s|
    ensures RuneSize(s[i..], j) == RuneSize(s, i + j)
  {
  }

  /** Both parts of a valid text are valid exactly when the cut splits no character. */
  lemma ValidCut(s: string, i: nat)
    requires Valid(s) && i <= |s|
    ensures Valid(s[..i]) && Valid(s[i..]) <==> Boundary(s, i)
  {
    CutFrom(s, 0, i);
    ValidSuffix(s, i);
  }

  lemma RuneThen(s: string, p: nat, t: string)
    requires p < |s| && RuneSize(s, p) > 1
    ensures RuneSize(s + t, p) == RuneSize(s, p)
  {
  }

  lemma {:induction false} JoinFrom(s: string, p: nat, t: string)
    requires p <= |s| && ValidFrom(s, p) && Valid(t)
    ensures ValidFrom(s + t, p)
    decreases |s| - p
  {
    if p == |s| {
      assert (s + t)[p..] == t;
      ValidSuffix(s + t, p);
    } else if s[p] as int < 0x80 {
      JoinFrom(s, p + 1, t);
    } else {
      RuneThen(s, p, t);
      JoinFrom(s, p + RuneSize(s, p), t);
    }
  }

  /** Valid texts joined are valid. */
  lemma ValidJoin(s: string, t: string)
    requires Valid(s) && Valid(t)
    ensures Valid(s + t)
  {
    JoinFrom(s, 0, t);
  }

  lemma {:induction false} AsciiFrom(s: string, i: nat)
    requires i <= |s| && forall c | c in s :: c as int < 0x80
    ensures ValidFrom(s, i)
    decreases |s| - i
  {
    if i < |s| {
      assert s[i] in s;
      AsciiFrom(s, i + 1);
    }
  }

  // ----- what encoding/json does to a text that is not valid -----

  const REPLACEMENT := [0xEF as char, 0xBF as char, 0xBD as char]

  /** json.Marshal then json.Unmarshal: every byte that is part of no character becomes
      U+FFFD. */
  function Replaced(s: string): (r: string)
    ensures |r| >= |s|
  {
    if s == "" then "" else
    var n := RuneSize(s, 0);
    (if s[0] as int < 0x80 || n > 1 then s[..n] else REPLACEMENT) + Replaced(s[n..])
  }

  lemma RuneIsValid(s: string)
    requires s != "" && (s[0] as int < 0x80 || RuneSize(s, 0) > 1)
    ensures Valid(s[..RuneSize(s, 0)])
    ensures Valid(s) ==> Valid(s[RuneSize(s, 0)..])
  {
    var n := RuneSize(s, 0);
    assert ValidFrom(s[..n], n);
    if n > 1 { RuneOfPrefix(s, 0, n); }
    ValidSuffix(s, n);
  }

  lemma ReplacementIsValid()
    ensures Valid(REPLACEMENT) && Valid("")
  {
    assert RuneSize(REPLACEMENT, 0) == 3 && ValidFrom(REPLACEMENT, 3);
  }

  lemma StrayByte(s: string)
    requires s != "" && s[0] as int >= 0x80 && RuneSize(s, 0) == 1
    ensures !Valid(s)
  {
  }

  lemma {:induction false} ReplacedIsValid(s: string)
    ensures Valid(Replaced(s))
    ensures Valid(s) ==> Replaced(s) == s
    decreases |s|
  {
    hide RuneSize, ValidFrom;
    ReplacementIsValid();
    if s != "" {
      var n := RuneSize(s, 0);
      ReplacedIsValid(s[n..]);
      if s[0] as int < 0x80 || n > 1 {
        RuneIsValid(s);
        ValidJoin(s[..n], Replaced(s[n..]));
        assert s == s[..n] + s[n..];
      } else {
        StrayByte(s);
        ValidJoin(REPLACEMENT, Replaced(s[n..]));
      }
    }
  }

  /** A text survives exactly when it is valid. */
  lemma ReplacedIff(s: string)
    ensures Replaced(s) == s <==> Valid(s)
  {
    ReplacedIsValid(s);
  }
}
