/** Laying tokens out as text: any spacing, letter case and backticks, and the
    proof that both tokenizers read every layout back. */
module CheckLayout {
  import opened Prelude
  import opened CheckLexer

  /** One token as written. */
  datatype Lexeme =
    | Word(text: string)
    | Ticked(text: string)
    | Quoted(text: string)
    | HexQuoted(mark: char, digits: string)
    | HexPlain(mark: char, digits: string)
    | Digits(text: string)
    | Operator(text: string)
    | Punct(mark: char)

  predicate IsHexMark(c: char) {
    c == 'x' || c == 'X'
  }

  predicate AllIn(s: string, k: Class) {
    forall c | c in s :: InClass(c, k)
  }

  ghost predicate WellFormed(l: Lexeme) {
    match l
    case Word(text) => IsIdentifier(text)
    case Ticked(text) => IsIdentifier(text)
    case Quoted(text) => forall c | c in text :: 0x20 <= c as int <= 0x7E && c != '\\'
    case HexQuoted(mark, digits) => IsHexMark(mark) && digits != "" && |digits| % 2 == 0 && AllIn(digits, HexClass)
    case HexPlain(mark, digits) => IsHexMark(mark) && digits != "" && |digits| % 2 == 0 && AllIn(digits, HexClass)
    case Digits(text) => text != "" && AllIn(text, DigitClass)
    case Operator(text) => IsComparison(text)
    case Punct(mark) => mark == '(' || mark == ')' || mark == ','
  }

  /** A literal's text with its quotes doubled. */
  function Doubled(text: string): string {
    if text == "" then "" else (if text[0] == '\'' then "''" else [text[0]]) + Doubled(text[1..])
  }

  function Spell(l: Lexeme): string {
    match l
    case Word(text) => text
    case Ticked(text) => "`" + text + "`"
    case Quoted(text) => "'" + Doubled(text) + "'"
    case HexQuoted(mark, digits) => [mark] + "'" + digits + "'"
    case HexPlain(mark, digits) => ['0', mark] + digits
    case Digits(text) => text
    case Operator(text) => text
    case Punct(mark) => [mark]
  }

  function TokenOf(l: Lexeme): Token {
    match l
    case Word(text) => Ident(Lower(text))
    case Ticked(text) => Ident(Lower(text))
    case Quoted(text) => Str(text)
    case HexQuoted(_, digits) => Hex(Lower(digits))
    case HexPlain(_, digits) => Hex(Lower(digits))
    case Digits(text) => Num(text)
    case Operator(text) => Op(text)
    case Punct(mark) => if mark == '(' then LParen else if mark == ')' then RParen else Comma
  }

  /** The text after l does not run into it. */
  ghost predicate Clear(l: Lexeme, rest: string) {
    rest == "" ||
    match l
    case Word(text) => !IsWordChar(rest[0]) && (text == "x" || text == "X" ==> rest[0] != '\'')
    case Quoted(_) => rest[0] != '\''
    case HexPlain(_, _) => !IsHexDigit(rest[0])
    case Digits(text) => !IsDigit(rest[0]) && (text == "0" ==> |rest| == 1 || !IsHexMark(rest[0]))
    case Operator(text) => |text| == 1 ==> rest[0] != '='
    case _ => true
  }

  datatype Placed = Placed(gap: string, lexeme: Lexeme)

  /** The text: every lexeme after its gap, then the tail. */
  function Render(items: seq<Placed>, tail: string): string {
    if items == [] then tail else items[0].gap + Spell(items[0].lexeme) + Render(items[1..], tail)
  }

  predicate Blank(s: string) {
    forall c | c in s :: IsSpace(c)
  }

  /** Gaps are white space, of any length, and may be empty where the neighbours
      cannot run together. */
  ghost predicate Laid(items: seq<Placed>, tail: string) {
    if items == [] then Blank(tail) else
    Blank(items[0].gap) && WellFormed(items[0].lexeme) && Clear(items[0].lexeme, Render(items[1..], tail)) &&
    Laid(items[1..], tail)
  }

  function Tokens(items: seq<Placed>): seq<Token> {
    if items == [] then [] else [TokenOf(items[0].lexeme)] + Tokens(items[1..])
  }

  // ----- reading back -----

  lemma {:induction false} SpanExact(s: string, rest: string, k: Class)
    requires AllIn(s, k) && (rest == "" || !InClass(rest[0], k))
    ensures Span(s + rest, k) == |s|
    decreases |s|
  {
    if s == "" {
      assert s + rest == rest;
    } else {
      assert (s + rest)[1..] == s[1..] + rest;
      SpanExact(s[1..], rest, k);
    }
  }

  lemma QuoteChar(c: char, t: string)
    requires 0x20 <= c as int <= 0x7E && c != '\\' && LexQuote(t).Some?
    ensures LexQuote((if c == '\'' then "''" else [c]) + t) ==
            Some(([c] + LexQuote(t).value.0, (if c == '\'' then 2 else 1) + LexQuote(t).value.1))
  {
  }

  lemma QuoteEnd(rest: string)
    requires rest == "" || rest[0] != '\''
    ensures LexQuote("'" + rest) == Some(("", 1))
  {
  }

  lemma {:induction false} QuoteExact(text: string, rest: string)
    requires WellFormed(Quoted(text)) && Clear(Quoted(text), rest)
    ensures LexQuote(Doubled(text) + ("'" + rest)) == Some((text, |Doubled(text)| + 1))
    decreases |text|
  {
    hide LexQuote;
    if text == "" {
      assert "" + ("'" + rest) == "'" + rest;
      QuoteEnd(rest);
    } else {
      assert text[0] in text;
      forall c | c in text[1..] ensures c in text {}
      QuoteExact(text[1..], rest);
      var t := Doubled(text[1..]) + ("'" + rest);
      QuoteChar(text[0], t);
      assert Doubled(text) + ("'" + rest) == (if text[0] == '\'' then "''" else [text[0]]) + t;
      assert text == [text[0]] + text[1..];
    }
  }

  lemma QuotedExact(text: string, rest: string)
    requires WellFormed(Quoted(text)) && Clear(Quoted(text), rest)
    ensures LexOne(Spell(Quoted(text)) + rest) == Some((Str(text), |Doubled(text)| + 2))
  {
    hide LexQuote, Doubled, LexTicked, LexHex, LexRun, LexOp, WellFormed, Clear;
    QuoteExact(text, rest);
    var s := Spell(Quoted(text)) + rest;
    assert s[0] == '\'' && s[1..] == Doubled(text) + ("'" + rest);
  }

  lemma WordExact(text: string, rest: string)
    requires WellFormed(Word(text)) && Clear(Word(text), rest)
    ensures LexOne(text + rest) == Some((Ident(Lower(text)), |text|))
    ensures LexOneBare(text + rest) == Some((Lower(text), |text|))
  {
    var s := text + rest;
    assert s[1..] == text[1..] + rest;
    forall c | c in text[1..] ensures IsWordChar(c) { assert c in text; }
    SpanExact(text[1..], rest, WordClass);
    assert s[..|text|] == text;
    assert |text| > 1 ==> text[1] in text && s[1] == text[1];
  }

  lemma TickedExact(text: string, rest: string)
    requires WellFormed(Ticked(text))
    ensures LexOne(Spell(Ticked(text)) + rest) == Some((Ident(Lower(text)), |text| + 2))
    ensures LexOneBare(Spell(Ticked(text)) + rest) == Some((Lower(text), |text| + 2))
  {
    var s := Spell(Ticked(text)) + rest;
    assert s[1..] == text + ("`" + rest);
    forall c | c in text ensures c != '`' { assert IsWordChar(c); }
    SpanExact(text, "`" + rest, NotTick);
    assert s[1..1 + |text|] == text;
  }

  lemma HexQuotedExact(mark: char, digits: string, rest: string)
    requires WellFormed(HexQuoted(mark, digits))
    ensures LexOne([mark] + "'" + digits + "'" + rest) == Some((Hex(Lower(digits)), |digits| + 3))
  {
    var s := [mark] + "'" + digits + "'" + rest;
    assert s[0] == mark && s[1] == '\'' && s[2..] == digits + ("'" + rest);
    SpanExact(digits, "'" + rest, HexClass);
    assert s[2..2 + |digits|] == digits;
  }

  lemma HexPlainExact(mark: char, digits: string, rest: string)
    requires WellFormed(HexPlain(mark, digits)) && Clear(HexPlain(mark, digits), rest)
    ensures LexOne(['0', mark] + digits + rest) == Some((Hex(Lower(digits)), |digits| + 2))
  {
    var s := ['0', mark] + digits + rest;
    assert s[0] == '0' && s[1] == mark && s[2..] == digits + rest;
    SpanExact(digits, rest, HexClass);
    assert s[2..2 + |digits|] == digits;
  }

  lemma DigitsRun(text: string, rest: string)
    requires WellFormed(Digits(text)) && Clear(Digits(text), rest)
    ensures LexRun(text + rest, DigitClass) == |text| && (text + rest)[..|text|] == text
  {
    var s := text + rest;
    assert text[0] in text && s[0] == text[0];
    assert s[1..] == text[1..] + rest;
    forall c | c in text[1..] ensures IsDigit(c) { assert c in text; }
    SpanExact(text[1..], rest, DigitClass);
    assert s[..|text|] == text;
  }

  lemma DigitsExact(text: string, rest: string)
    requires WellFormed(Digits(text)) && Clear(Digits(text), rest)
    ensures LexOne(text + rest) == Some((Num(text), |text|))
    ensures LexOneBare(text + rest) == Some((text, |text|))
  {
    hide LexRun;
    var s := text + rest;
    DigitsRun(text, rest);
    assert text[0] in text && s[0] == text[0];
    if |text| > 1 { assert text[1] in text && s[1] == text[1]; } else { assert text == [text[0]]; }
  }

  lemma PunctExact(mark: char, rest: string)
    requires WellFormed(Punct(mark))
    ensures LexOne([mark] + rest) == Some((TokenOf(Punct(mark)), 1))
  {
  }

  lemma OneExact(l: Lexeme, rest: string)
    requires WellFormed(l) && Clear(l, rest)
    ensures LexOne(Spell(l) + rest) == Some((TokenOf(l), |Spell(l)|))
  {
    hide LexOne, LexQuote, Lower, Doubled, WellFormed, Clear;
    match l {
      case Word(text) => WordExact(text, rest);
      case Ticked(text) => TickedExact(text, rest);
      case Quoted(text) => QuotedExact(text, rest);
      case HexQuoted(mark, digits) => HexQuotedExact(mark, digits, rest);
      case HexPlain(mark, digits) => HexPlainExact(mark, digits, rest);
      case Digits(text) => DigitsExact(text, rest);
      case Operator(text) => OperatorLaid(text, rest);
      case Punct(mark) => PunctExact(mark, rest);
    }
  }

  lemma OperatorLaid(text: string, rest: string)
    requires WellFormed(Operator(text)) && Clear(Operator(text), rest)
    ensures LexOne(text + rest) == Some((Op(text), |text|))
  {
  }

  lemma SpellStart(l: Lexeme)
    requires WellFormed(l)
    ensures Spell(l) != "" && !IsSpace(Spell(l)[0])
  {
    if l.Digits? { assert l.text[0] in l.text; }
  }

  lemma {:induction false} SkipGap(gap: string, rest: string)
    requires Blank(gap)
    ensures Lex(gap + rest) == Lex(rest) && LexBare(gap + rest) == LexBare(rest)
    decreases |gap|
  {
    if gap == "" {
      assert gap + rest == rest;
    } else {
      assert gap[0] in gap && (gap + rest)[1..] == gap[1..] + rest;
      SkipGap(gap[1..], rest);
    }
  }

  /** The response tokenizer reads every layout back. */
  lemma {:induction false} LexReadsLayout(items: seq<Placed>, tail: string)
    requires Laid(items, tail)
    ensures Lex(Render(items, tail)) == Some(Tokens(items))
    decreases |items|
  {
    if items == [] {
      SkipGap(tail, "");
      assert tail + "" == tail;
    } else {
      var l, rest := items[0].lexeme, Render(items[1..], tail);
      LexReadsLayout(items[1..], tail);
      OneExact(l, rest);
      SpellStart(l);
      hide LexOne, WellFormed, Clear;
      SkipGap(items[0].gap, Spell(l) + rest);
      assert items[0].gap + Spell(l) + rest == items[0].gap + (Spell(l) + rest);
      assert (Spell(l) + rest)[|Spell(l)|..] == rest;
    }
  }

  // ----- the safety tokenizer -----

  /** Lexemes the safety tokenizer knows, and the bare string it makes of each. */
  predicate IsBare(l: Lexeme) {
    !l.Quoted? && !l.HexQuoted? && !l.HexPlain?
  }

  function BareOf(l: Lexeme): string
    requires IsBare(l)
  {
    match l
    case Word(text) => Lower(text)
    case Ticked(text) => Lower(text)
    case Digits(text) => text
    case Operator(text) => text
    case Punct(mark) => [mark]
  }

  predicate AllBare(items: seq<Placed>) {
    forall item | item in items :: IsBare(item.lexeme)
  }

  function BareTokens(items: seq<Placed>): seq<string>
    requires AllBare(items)
  {
    if items == [] then [] else [BareOf(items[0].lexeme)] + BareTokens(items[1..])
  }

  lemma OneBareExact(l: Lexeme, rest: string)
    requires WellFormed(l) && IsBare(l) && Clear(l, rest)
    ensures LexOneBare(Spell(l) + rest) == Some((BareOf(l), |Spell(l)|))
  {
    hide LexOneBare, Lower, WellFormed, Clear;
    match l {
      case Word(text) => WordExact(text, rest);
      case Ticked(text) => TickedExact(text, rest);
      case Digits(text) => DigitsExact(text, rest);
      case Operator(text) => OperatorBare(text, rest);
      case Punct(mark) => PunctBare(mark, rest);
    }
  }

  lemma OperatorBare(text: string, rest: string)
    requires WellFormed(Operator(text)) && Clear(Operator(text), rest)
    ensures LexOneBare(text + rest) == Some((text, |text|))
  {
  }

  lemma PunctBare(mark: char, rest: string)
    requires WellFormed(Punct(mark))
    ensures LexOneBare([mark] + rest) == Some(([mark], 1))
  {
  }

  /** The safety tokenizer reads every layout of its own lexemes back. */
  lemma {:induction false} LexBareReadsLayout(items: seq<Placed>, tail: string)
    requires Laid(items, tail) && AllBare(items)
    ensures LexBare(Render(items, tail)) == Some(BareTokens(items))
    decreases |items|
  {
    if items == [] {
      SkipGap(tail, "");
      assert tail + "" == tail;
    } else {
      var l, rest := items[0].lexeme, Render(items[1..], tail);
      LexBareReadsLayout(items[1..], tail);
      assert items[0] in items;
      OneBareExact(l, rest);
      SpellStart(l);
      hide LexOneBare, WellFormed, Clear;
      SkipGap(items[0].gap, Spell(l) + rest);
      assert items[0].gap + Spell(l) + rest == items[0].gap + (Spell(l) + rest);
      assert (Spell(l) + rest)[|Spell(l)|..] == rest;
    }
  }

  // ----- the escaped quotes of some MySQL builds -----

  /** The clause with a backslash before every quote. */
  function EscapeQuotes(s: string): string {
    if s == "" then "" else (if s[0] == '\'' then "\\'" else [s[0]]) + EscapeQuotes(s[1..])
  }

  /** Escaped quotes are read as plain ones. */
  lemma {:induction false} UnescapeUndoes(s: string)
    requires forall c | c in s :: c != '\\'
    ensures Unescape(EscapeQuotes(s)) == s && Unescape(s) == s
    decreases |s|
  {
    if s != "" {
      assert s[0] in s;
      forall c | c in s[1..] ensures c in s {}
      UnescapeUndoes(s[1..]);
      var t := EscapeQuotes(s[1..]);
      if s[0] == '\'' {
        assert EscapeQuotes(s) == "\\'" + t && ("\\'" + t)[2..] == t;
      } else {
        assert EscapeQuotes(s) == [s[0]] + t && ([s[0]] + t)[1..] == t;
      }
      assert s == [s[0]] + s[1..];
    }
  }

  lemma {:induction false} DoubledNoBackslash(text: string)
    requires WellFormed(Quoted(text))
    ensures forall c | c in Doubled(text) :: c != '\\'
    decreases |text|
  {
    if text != "" {
      assert text[0] in text;
      forall c | c in text[1..] ensures c in text {}
      DoubledNoBackslash(text[1..]);
    }
  }

  lemma SpellNoBackslash(l: Lexeme)
    requires WellFormed(l)
    ensures forall c | c in Spell(l) :: c != '\\'
  {
    if l.Quoted? { DoubledNoBackslash(l.text); }
  }

  /** No layout contains a backslash, so unescaping leaves it alone. */
  lemma {:induction false} LayoutNoBackslash(items: seq<Placed>, tail: string)
    requires Laid(items, tail)
    ensures forall c | c in Render(items, tail) :: c != '\\'
    decreases |items|
  {
    if items != [] {
      LayoutNoBackslash(items[1..], tail);
      SpellNoBackslash(items[0].lexeme);
      hide Spell, Clear, WellFormed;
    }
  }
}
