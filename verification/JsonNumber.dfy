/** Spaces, literals and numbers of JSON texts (sections 2, 3 and 6 of RFC 8259). */
module JsonNumber {
  import opened Prelude
  import opened JsonString

  predicate IsBlank(c: char) {
    c == ' ' || c == '\t' || c == '\n' || c == '\r'
  }

  predicate Blank(s: string) {
    forall c | c in s :: IsBlank(c)
  }

  predicate Starts(s: string, c: char) {
    s != "" && s[0] == c
  }

  predicate StartsBlank(s: string) {
    s != "" && IsBlank(s[0])
  }

  predicate IsDecimal(c: char) {
    '0' <= c <= '9'
  }

  predicate StartsDecimal(s: string) {
    s != "" && IsDecimal(s[0])
  }

  predicate Decimals(s: string) {
    forall c | c in s :: IsDecimal(c)
  }

  /** The spaces at the start, and the rest. */
  function ReadSpace(s: string): (r: (string, string))
    ensures s == r.0 + r.1 && Blank(r.0) && !StartsBlank(r.1)
  {
    if !StartsBlank(s) then ("", s) else
    var r := ReadSpace(s[1..]);
    assert s == [s[0]] + s[1..];
    ([s[0]] + r.0, r.1)
  }

  lemma {:induction false} SpaceExact(gap: string, rest: string)
    requires Blank(gap) && !StartsBlank(rest)
    ensures ReadSpace(gap + rest) == (gap, rest)
    decreases |gap|
  {
    if gap == "" {
      assert gap + rest == rest;
    } else {
      assert gap[0] in gap && (gap + rest)[1..] == gap[1..] + rest && gap == [gap[0]] + gap[1..];
      forall c | c in gap[1..] ensures c in gap {}
      SpaceExact(gap[1..], rest);
    }
  }

  /** The digits at the start, and the rest. */
  function ReadDecimals(s: string): (r: (string, string))
    ensures s == r.0 + r.1 && Decimals(r.0) && !StartsDecimal(r.1)
  {
    if !StartsDecimal(s) then ("", s) else
    var r := ReadDecimals(s[1..]);
    assert s == [s[0]] + s[1..];
    ([s[0]] + r.0, r.1)
  }

  lemma {:induction false} DecimalsExact(digits: string, rest: string)
    requires Decimals(digits) && !StartsDecimal(rest)
    ensures ReadDecimals(digits + rest) == (digits, rest)
    decreases |digits|
  {
    if digits == "" {
      assert digits + rest == rest;
    } else {
      assert digits[0] in digits && (digits + rest)[1..] == digits[1..] + rest && digits == [digits[0]] + digits[1..];
      forall c | c in digits[1..] ensures c in digits {}
      DecimalsExact(digits[1..], rest);
    }
  }

  /** A number as written: an optional minus, the whole part, and the optional
      fraction and exponent with their first marks. */
  datatype Number = Number(minus: bool, whole: string, fraction: Option<string>, exponent: Option<Exponent>)

  datatype Exponent = Exponent(mark: char, sign: string, digits: string)

  predicate NumberOk(n: Number) {
    && (n.whole == "0" || (n.whole != "" && Decimals(n.whole) && n.whole[0] != '0'))
    && (n.fraction.Some? ==> n.fraction.value != "" && Decimals(n.fraction.value))
    && (n.exponent.Some? ==> ExponentOk(n.exponent.value))
  }

  predicate ExponentOk(e: Exponent) {
    && (e.mark == 'e' || e.mark == 'E') && (e.sign == "" || e.sign == "+" || e.sign == "-")
    && e.digits != "" && Decimals(e.digits)
  }

  function WriteFraction(f: Option<string>): string {
    if f.None? then "" else "." + f.value
  }

  function WriteExponent(e: Option<Exponent>): string {
    if e.None? then "" else [e.value.mark] + (e.value.sign + e.value.digits)
  }

  function WriteNumber(n: Number): string {
    (if n.minus then "-" else "") + (n.whole + (WriteFraction(n.fraction) + WriteExponent(n.exponent)))
  }

  function ReadWhole(s: string): (r: Parsed<string>)
    ensures r.Some? ==> |r.value.1| < |s| && s == r.value.0 + r.value.1
  {
    if Starts(s, '0') then assert s == "0" + s[1..]; Some(("0", s[1..]))
    else if StartsDecimal(s) then Some(ReadDecimals(s))
    else None
  }

  function ReadFraction(s: string): (r: Parsed<Option<string>>)
    ensures r.Some? ==> |r.value.1| <= |s|
  {
    if !Starts(s, '.') then Some((None, s)) else
    var (digits, rest) := ReadDecimals(s[1..]);
    if digits == "" then None else Some((Some(digits), rest))
  }

  predicate StartsExponent(s: string) {
    Starts(s, 'e') || Starts(s, 'E')
  }

  function SignOf(s: string): string {
    if Starts(s, '+') then "+" else if Starts(s, '-') then "-" else ""
  }

  function ReadExponent(s: string): (r: Parsed<Option<Exponent>>)
    ensures r.Some? ==> |r.value.1| <= |s|
  {
    if !StartsExponent(s) then Some((None, s)) else
    var sign := SignOf(s[1..]);
    var (digits, rest) := ReadDecimals(s[1 + |sign|..]);
    if digits == "" then None else Some((Some(Exponent(s[0], sign, digits)), rest))
  }

  function ReadNumber(s: string): (r: Parsed<Number>)
    ensures r.Some? ==> |r.value.1| < |s|
  {
    var minus := Starts(s, '-');
    var whole := ReadWhole(if minus then s[1..] else s);
    if whole.None? then None else
    var fraction := ReadFraction(whole.value.1);
    if fraction.None? then None else
    var exponent := ReadExponent(fraction.value.1);
    if exponent.None? then None else
    Some((Number(minus, whole.value.0, fraction.value.0, exponent.value.0), exponent.value.1))
  }

  lemma WholeSound(s: string)
    requires ReadWhole(s).Some?
    ensures var w := ReadWhole(s).value.0; w == "0" || (w != "" && Decimals(w) && w[0] != '0')
  {
  }

  lemma FractionSound(s: string)
    requires ReadFraction(s).Some?
    ensures var r := ReadFraction(s).value;
            s == WriteFraction(r.0) + r.1 && (r.0.Some? ==> r.0.value != "" && Decimals(r.0.value))
  {
    if Starts(s, '.') { assert s == "." + s[1..]; }
  }

  lemma ExponentSound(s: string)
    requires ReadExponent(s).Some?
    ensures var r := ReadExponent(s).value; s == WriteExponent(r.0) + r.1 && (r.0.Some? ==> ExponentOk(r.0.value))
  {
    if StartsExponent(s) {
      var sign := SignOf(s[1..]);
      assert s == [s[0]] + (sign + s[1 + |sign|..]);
    }
  }

  lemma RegroupNumber(a: string, b: string, c: string, d: string, rest: string)
    ensures a + (b + (c + (d + rest))) == a + (b + (c + d)) + rest
  {
  }

  lemma NumberSound(s: string)
    requires ReadNumber(s).Some?
    ensures var r := ReadNumber(s).value; NumberOk(r.0) && s == WriteNumber(r.0) + r.1
  {
    hide Decimals, ExponentOk, WriteFraction, WriteExponent, ReadWhole, ReadFraction, ReadExponent;
    var r := ReadNumber(s).value;
    var minus := if r.0.minus then "-" else "";
    var t := if r.0.minus then s[1..] else s;
    assert s == minus + t;
    var u := ReadWhole(t).value.1;
    WholeSound(t);
    FractionSound(u);
    ExponentSound(ReadFraction(u).value.1);
    RegroupNumber(minus, r.0.whole, WriteFraction(r.0.fraction), WriteExponent(r.0.exponent), r.1);
  }

  /** What may follow a value in a text: the end, a space, or a structural mark. */
  predicate Ends(rest: string) {
    rest == "" || IsBlank(rest[0]) || rest[0] == ',' || rest[0] == ']' || rest[0] == '}'
  }

  lemma SignIsRead(sign: string, digits: string, rest: string)
    requires (sign == "" || sign == "+" || sign == "-") && digits != "" && Decimals(digits)
    ensures SignOf(sign + (digits + rest)) == sign
  {
    assert digits[0] in digits && (digits + rest)[0] == digits[0];
    assert sign == "" ==> sign + (digits + rest) == digits + rest;
    assert sign != "" ==> (sign + (digits + rest))[0] == sign[0];
  }

  lemma ExponentRead(x: Exponent, rest: string)
    requires ExponentOk(x) && Ends(rest)
    ensures ReadExponent([x.mark] + (x.sign + (x.digits + rest))) == Some((Some(x), rest))
  {
    hide Decimals, SignOf;
    var s := [x.mark] + (x.sign + (x.digits + rest));
    assert s[1..] == x.sign + (x.digits + rest) && s[1 + |x.sign|..] == x.digits + rest;
    SignIsRead(x.sign, x.digits, rest);
    DecimalsExact(x.digits, rest);
  }

  lemma NoExponent(rest: string)
    requires Ends(rest)
    ensures ReadExponent(rest) == Some((None, rest))
  {
  }

  lemma ExponentComplete(e: Option<Exponent>, rest: string)
    requires (e.Some? ==> ExponentOk(e.value)) && Ends(rest)
    ensures ReadExponent(WriteExponent(e) + rest) == Some((e, rest))
    ensures var s := WriteExponent(e) + rest; !StartsDecimal(s) && !Starts(s, '.')
  {
    hide Decimals, SignOf, ReadExponent;
    var s := WriteExponent(e) + rest;
    if e.None? {
      assert s == rest;
      NoExponent(rest);
    } else {
      var x := e.value;
      Assoc4([x.mark], x.sign, x.digits, rest);
      ExponentRead(x, rest);
      assert s[0] == x.mark;
    }
  }

  lemma FractionComplete(f: Option<string>, rest: string)
    requires (f.Some? ==> f.value != "" && Decimals(f.value)) && !StartsDecimal(rest) && !Starts(rest, '.')
    ensures ReadFraction(WriteFraction(f) + rest) == Some((f, rest)) && !StartsDecimal(WriteFraction(f) + rest)
  {
    if f.None? {
      assert WriteFraction(f) + rest == rest;
    } else {
      assert (WriteFraction(f) + rest)[1..] == f.value + rest;
      DecimalsExact(f.value, rest);
    }
  }

  lemma WholeComplete(whole: string, rest: string)
    requires whole == "0" || (whole != "" && Decimals(whole) && whole[0] != '0')
    requires !StartsDecimal(rest)
    ensures ReadWhole(whole + rest) == Some((whole, rest)) && !Starts(whole + rest, '-')
  {
    var s := whole + rest;
    assert s[0] == whole[0] && whole[0] in whole;
    if whole == "0" { assert s[1..] == rest; } else { DecimalsExact(whole, rest); }
  }

  lemma NumberComplete(n: Number, rest: string)
    requires NumberOk(n) && Ends(rest)
    ensures ReadNumber(WriteNumber(n) + rest) == Some((n, rest))
  {
    hide Decimals, ExponentOk, WriteFraction, WriteExponent, ReadWhole, ReadFraction, ReadExponent, Ends;
    var t := WriteExponent(n.exponent) + rest;
    var u := WriteFraction(n.fraction) + t;
    ExponentComplete(n.exponent, rest);
    FractionComplete(n.fraction, t);
    WholeComplete(n.whole, u);
    var s := WriteNumber(n) + rest;
    assert s == (if n.minus then "-" else "") + (n.whole + u);
    assert if n.minus then s[1..] == n.whole + u else s == n.whole + u;
  }

  lemma NumberStart(n: Number)
    requires NumberOk(n)
    ensures WriteNumber(n) != "" && (WriteNumber(n)[0] == '-' || IsDecimal(WriteNumber(n)[0]))
  {
  }
}
