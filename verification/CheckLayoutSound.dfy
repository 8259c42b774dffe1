/** What the two tokenizers accept is always a layout: with the reading of every layout
    this says exactly which texts they take, and as which tokens. */
module CheckLayoutSound {
  import opened Prelude
  import opened CheckLexer
  import opened CheckLayout

  /** The first token of s is this lexeme, and the rest does not run into it. */
  ghost predicate Begins(s: string, l: Lexeme, n: nat) {
    && WellFormed(l) && |Spell(l)| == n <= |s| && s[..n] == Spell(l) && Clear(l, s[n..])
  }

  lemma SpanIsIn(s: string, k: Class, n: nat)
    requires n == Span(s, k)
    ensures AllIn(s[..n], k) && (n < |s| ==> !InClass(s[n], k))
  {
    forall c | c in s[..n] ensures InClass(c, k) {
      var i :| 0 <= i < n && s[..n][i] == c;
      assert s[i] == c;
    }
  }

  lemma RunIsIn(s: string, k: Class)
    requires s != "" && InClass(s[0], k)
    ensures var n := LexRun(s, k); AllIn(s[..n], k) && (n < |s| ==> !InClass(s[n], k))
  {
    var m := Span(s[1..], k);
    SpanIsIn(s[1..], k, m);
    assert s[..1 + m] == [s[0]] + s[1..][..m];
    assert 1 + m < |s| ==> s[1..][m] == s[1 + m];
  }

  lemma {:induction false} QuoteSound(s: string)
    requires LexQuote(s).Some?
    ensures var (text, n) := LexQuote(s).value;
            && WellFormed(Quoted(text)) && s[..n] == Doubled(text) + "'" && Clear(Quoted(text), s[n..])
    decreases |s|
  {
    if s[0] == '\'' && |s| > 1 && s[1] == '\'' {
      QuoteSound(s[2..]);
      QuoteStep(s, 2, '\'', LexQuote(s[2..]).value.0, LexQuote(s[2..]).value.1);
    } else if s[0] != '\'' {
      QuoteSound(s[1..]);
      QuoteStep(s, 1, s[0], LexQuote(s[1..]).value.0, LexQuote(s[1..]).value.1);
    }
  }

  lemma QuotedMore(c: char, text: string, rest: string)
    requires 0x20 <= c as int <= 0x7E && c != '\\' && WellFormed(Quoted(text)) && Clear(Quoted(text), rest)
    ensures WellFormed(Quoted([c] + text)) && Clear(Quoted([c] + text), rest)
    ensures Doubled([c] + text) == (if c == '\'' then "''" else [c]) + Doubled(text)
  {
    assert ([c] + text)[1..] == text;
  }

  lemma QuoteStep(s: string, m: nat, c: char, text: string, n: nat)
    requires m + n <= |s| && s[..m] == (if c == '\'' then "''" else [c]) && 0x20 <= c as int <= 0x7E && c != '\\'
    requires WellFormed(Quoted(text)) && s[m..][..n] == Doubled(text) + "'" && Clear(Quoted(text), s[m..][n..])
    ensures WellFormed(Quoted([c] + text)) && s[..m + n] == Doubled([c] + text) + "'"
    ensures Clear(Quoted([c] + text), s[m + n..])
  {
    hide WellFormed, Clear, Doubled;
    assert s[..m + n] == s[..m] + s[m..][..n];
    assert s[m..][n..] == s[m + n..];
    QuotedMore(c, text, s[m + n..]);
    Assoc(s[..m], Doubled(text), "'");
  }

  lemma TickedSound(s: string)
    requires s != "" && s[0] == '`' && LexTicked(s).Some?
    ensures var n := LexTicked(s).value.1;
            n >= 2 && Begins(s, Ticked(s[1..n - 1]), n) && LexTicked(s).value.0 == Lower(s[1..n - 1])
  {
    hide Lower;
    var m := Span(s[1..], NotTick);
    SpanIsIn(s[1..], NotTick, m);
    assert s[1..][m] == s[1 + m] == '`';
    assert s[..m + 2] == "`" + s[1..m + 1] + "`";
  }

  lemma HexSound(s: string, quoted: bool)
    requires |s| >= 2 && LexHex(s, quoted).Some?
    requires if quoted then IsHexMark(s[0]) && s[1] == '\'' else s[0] == '0' && IsHexMark(s[1])
    ensures var (t, n) := LexHex(s, quoted).value;
            var m := if quoted then n - 1 else n;
            2 <= m <= |s| && t == Hex(Lower(s[2..m])) &&
            Begins(s, if quoted then HexQuoted(s[0], s[2..m]) else HexPlain(s[1], s[2..m]), n)
  {
    hide Lower;
    var k := Span(s[2..], HexClass);
    SpanIsIn(s[2..], HexClass, k);
    assert s[2..][..k] == s[2..2 + k];
    if quoted {
      assert s[..k + 3] == [s[0]] + "'" + s[2..2 + k] + "'";
    } else {
      assert s[..k + 2] == ['0', s[1]] + s[2..2 + k];
      assert 2 + k < |s| ==> s[2..][k] == s[2 + k];
    }
  }

  lemma WordSound(s: string)
    requires s != "" && IsWordStart(s[0]) && !(IsHexMark(s[0]) && |s| > 1 && s[1] == '\'')
    ensures var n := LexRun(s, WordClass); Begins(s, Word(s[..n]), n)
  {
    RunIsIn(s, WordClass);
    var n := LexRun(s, WordClass);
    assert n == 1 && |s| > 1 ==> s[n..][0] == s[1];
  }

  lemma NumberSound(s: string)
    requires s != "" && IsDigit(s[0]) && !(s[0] == '0' && |s| > 2 && IsHexMark(s[1]))
    ensures var n := LexRun(s, DigitClass); Begins(s, Digits(s[..n]), n)
  {
    RunIsIn(s, DigitClass);
    var n := LexRun(s, DigitClass);
    if s[..n] == "0" && n < |s| { assert n == 1 && s[..n][0] == s[0] && s[n..][0] == s[1]; }
  }

  lemma OpSound(s: string)
    requires s != "" && LexOp(s).Some?
    ensures var (text, n) := LexOp(s).value; Begins(s, Operator(text), n)
  {
  }

  /** Every first token is one lexeme that could stand there. */
  lemma OneSound(s: string) returns (l: Lexeme)
    requires s != "" && LexOne(s).Some?
    ensures Begins(s, l, LexOne(s).value.1) && TokenOf(l) == LexOne(s).value.0
  {
    hide LexQuote, LexTicked, LexHex, LexRun, LexOp, Lower, Begins, Doubled;
    var c := s[0];
    if c == '`' {
      TickedSound(s);
      l := Ticked(s[1..LexOne(s).value.1 - 1]);
    } else if c == '\'' {
      l := StringSound(s);
    } else if c == '(' || c == ')' || c == ',' {
      l := Punct(c);
      PunctSound(s);
    } else if IsHexMark(c) && |s| > 1 && s[1] == '\'' {
      HexSound(s, true);
      l := HexQuoted(c, s[2..LexOne(s).value.1 - 1]);
    } else if c == '0' && |s| > 2 && IsHexMark(s[1]) {
      HexSound(s, false);
      l := HexPlain(s[1], s[2..LexOne(s).value.1]);
    } else if IsWordStart(c) {
      WordSound(s);
      l := Word(s[..LexRun(s, WordClass)]);
    } else if IsDigit(c) {
      NumberSound(s);
      l := Digits(s[..LexRun(s, DigitClass)]);
    } else {
      OpSound(s);
      l := Operator(LexOp(s).value.0);
    }
  }

  lemma StringSound(s: string) returns (l: Lexeme)
    requires s != "" && s[0] == '\'' && LexQuote(s[1..]).Some?
    ensures var (text, n) := LexQuote(s[1..]).value; l == Quoted(text) && Begins(s, l, 1 + n)
  {
    hide LexQuote;
    var (text, n) := LexQuote(s[1..]).value;
    QuoteSound(s[1..]);
    l := Quoted(text);
    assert s[..1 + n] == "'" + s[1..][..n] && s[1..][n..] == s[1 + n..];
  }

  lemma PunctSound(s: string)
    requires s != "" && (s[0] == '(' || s[0] == ')' || s[0] == ',')
    ensures Begins(s, Punct(s[0]), 1)
  {
  }

  /** An accepted text is a layout of its tokens. */
  lemma {:induction false} LexIsLayout(s: string) returns (items: seq<Placed>, tail: string)
    requires Lex(s).Some?
    ensures Laid(items, tail) && Render(items, tail) == s && Tokens(items) == Lex(s).value
    decreases |s|
  {
    hide LexOne, Begins, WellFormed, Clear, Spell, TokenOf;
    if s == "" {
      items, tail := [], "";
    } else if IsSpace(s[0]) {
      items, tail := LexIsLayout(s[1..]);
      if items == [] {
        tail := [s[0]] + tail;
      } else {
        var first := items[0];
        var wider := Placed([s[0]] + first.gap, first.lexeme);
        GapGrows(items, tail, s[0]);
        items := [wider] + items[1..];
      }
      assert s == [s[0]] + s[1..];
    } else {
      var n := LexOne(s).value.1;
      var l := OneSound(s);
      var more, end := LexIsLayout(s[n..]);
      items, tail := [Placed("", l)] + more, end;
      assert items[1..] == more;
      FirstPlaced(s, l, n, more, tail);
    }
  }

  lemma GapGrows(items: seq<Placed>, tail: string, c: char)
    requires items != [] && Laid(items, tail) && IsSpace(c)
    ensures var wider := [Placed([c] + items[0].gap, items[0].lexeme)] + items[1..];
            && Laid(wider, tail) && Render(wider, tail) == [c] + Render(items, tail) && Tokens(wider) == Tokens(items)
  {
    hide WellFormed, Clear, Spell, TokenOf;
    var wider := [Placed([c] + items[0].gap, items[0].lexeme)] + items[1..];
    assert wider[1..] == items[1..];
    Assoc([c], items[0].gap, Spell(items[0].lexeme));
    Assoc([c], items[0].gap + Spell(items[0].lexeme), Render(items[1..], tail));
  }

  lemma FirstPlaced(s: string, l: Lexeme, n: nat, more: seq<Placed>, tail: string)
    requires Begins(s, l, n) && Laid(more, tail) && Render(more, tail) == s[n..]
    ensures Laid([Placed("", l)] + more, tail) && Render([Placed("", l)] + more, tail) == s
    ensures Tokens([Placed("", l)] + more) == [TokenOf(l)] + Tokens(more)
  {
    hide WellFormed, Clear, Spell, TokenOf;
    var items := [Placed("", l)] + more;
    assert items[1..] == more && s == s[..n] + s[n..] && "" + Spell(l) == Spell(l);
  }

  /** The response tokenizer takes exactly the layouts of tokens, as these tokens. */
  lemma LexIffLaid(s: string, ts: seq<Token>)
    ensures Lex(s) == Some(ts) <==>
            exists items, tail :: Laid(items, tail) && Render(items, tail) == s && Tokens(items) == ts
  {
    hide Lex, Laid, Render, Tokens;
    if Lex(s) == Some(ts) { var items, tail := LexIsLayout(s); }
    forall items, tail | Laid(items, tail) && Render(items, tail) == s && Tokens(items) == ts
      ensures Lex(s) == Some(ts)
    {
      LexReadsLayout(items, tail);
    }
  }

  // ----- the safety tokenizer -----

  /** Text after l does not run into it, for a tokenizer that knows no literals. */
  predicate BareClear(l: Lexeme, rest: string) {
    rest == "" ||
    match l
    case Word(_) => !IsWordChar(rest[0])
    case Digits(_) => !IsDigit(rest[0])
    case Operator(text) => |text| == 1 ==> rest[0] != '='
    case _ => true
  }

  /** A layout of words, numbers, operators and marks. */
  ghost predicate BareLaid(items: seq<Placed>, tail: string) {
    if items == [] then Blank(tail) else
    Blank(items[0].gap) && IsBare(items[0].lexeme) && WellFormed(items[0].lexeme) &&
    BareClear(items[0].lexeme, Render(items[1..], tail)) && BareLaid(items[1..], tail)
  }

  function TokenTexts(items: seq<Placed>): seq<string> {
    if items == [] then []
    else (if IsBare(items[0].lexeme) then [BareOf(items[0].lexeme)] else []) + TokenTexts(items[1..])
  }

  ghost predicate BareBegins(s: string, l: Lexeme, n: nat) {
    && IsBare(l) && WellFormed(l) && |Spell(l)| == n <= |s| && s[..n] == Spell(l) && BareClear(l, s[n..])
  }

  lemma BareRunSound(s: string)
    requires s != "" && (IsWordStart(s[0]) || IsDigit(s[0]))
    ensures var k := if IsDigit(s[0]) then DigitClass else WordClass;
            var n := LexRun(s, k);
            BareBegins(s, if IsDigit(s[0]) then Digits(s[..n]) else Word(s[..n]), n)
  {
    RunIsIn(s, if IsDigit(s[0]) then DigitClass else WordClass);
  }

  lemma BareTickedSound(s: string)
    requires s != "" && s[0] == '`' && LexTicked(s).Some?
    ensures var n := LexTicked(s).value.1;
            n >= 2 && BareBegins(s, Ticked(s[1..n - 1]), n) && LexTicked(s).value.0 == Lower(s[1..n - 1])
  {
    hide Lower, LexTicked;
    TickedSound(s);
  }

  lemma BareOpSound(s: string)
    requires s != "" && LexOp(s).Some?
    ensures var (text, n) := LexOp(s).value; BareBegins(s, Operator(text), n)
  {
  }

  lemma OneBareSound(s: string) returns (l: Lexeme)
    requires s != "" && LexOneBare(s).Some?
    ensures BareBegins(s, l, LexOneBare(s).value.1) && BareOf(l) == LexOneBare(s).value.0
  {
    hide LexTicked, LexRun, LexOp, Lower;
    var c := s[0];
    if c == '`' {
      BareTickedSound(s);
      l := Ticked(s[1..LexOneBare(s).value.1 - 1]);
    } else if IsWordStart(c) {
      BareRunSound(s);
      l := Word(s[..LexRun(s, WordClass)]);
    } else if IsDigit(c) {
      BareRunSound(s);
      l := Digits(s[..LexRun(s, DigitClass)]);
    } else if c == '(' || c == ')' || c == ',' {
      l := Punct(c);
    } else {
      BareOpSound(s);
      l := Operator(LexOp(s).value.0);
    }
  }

  /** And every such first token is read. */
  lemma OneBareComplete(s: string, l: Lexeme, n: nat)
    requires BareBegins(s, l, n)
    ensures s != "" && !IsSpace(s[0]) && LexOneBare(s) == Some((BareOf(l), n))
  {
    hide Lower;
    SpellStart(l);
    assert s[..n] + s[n..] == s && s[..n][0] == s[0];
    match l {
      case Word(text) => BareRun(s, text, n, WordClass);
      case Ticked(text) => TickedExact(text, s[n..]);
      case Digits(text) => BareRun(s, text, n, DigitClass);
      case Operator(text) => assert n < |s| ==> s[n..][0] == s[n]; assert s[..n] == text;
      case Punct(mark) =>
    }
  }

  lemma BareRun(s: string, text: string, n: nat, k: Class)
    requires text != "" && |text| == n <= |s| && s[..n] == text && AllIn(text, k)
    requires n < |s| ==> !InClass(s[n..][0], k)
    ensures LexRun(s, k) == n && InClass(s[0], k) && s[0] == text[0]
  {
    assert s[..n][0] == s[0] && text[0] in text;
    assert s[1..] == text[1..] + s[n..] by { assert s == text + s[n..]; }
    forall c | c in text[1..] ensures InClass(c, k) { assert c in text; }
    SpanExact(text[1..], s[n..], k);
  }

  lemma {:induction false} LexBareIsLayout(s: string) returns (items: seq<Placed>, tail: string)
    requires LexBare(s).Some?
    ensures BareLaid(items, tail) && Render(items, tail) == s && TokenTexts(items) == LexBare(s).value
    decreases |s|
  {
    hide LexOneBare, BareBegins, WellFormed, BareClear, Spell, BareOf;
    if s == "" {
      items, tail := [], "";
    } else if IsSpace(s[0]) {
      items, tail := LexBareIsLayout(s[1..]);
      assert s == [s[0]] + s[1..];
      if items == [] {
        tail := [s[0]] + tail;
      } else {
        BareGapGrows(items, tail, s[0]);
        items := [Placed([s[0]] + items[0].gap, items[0].lexeme)] + items[1..];
      }
    } else {
      var n := LexOneBare(s).value.1;
      var l := OneBareSound(s);
      var more, end := LexBareIsLayout(s[n..]);
      items, tail := [Placed("", l)] + more, end;
      FirstBarePlaced(s, l, n, more, tail);
    }
  }

  lemma BareGapGrows(items: seq<Placed>, tail: string, c: char)
    requires items != [] && BareLaid(items, tail) && IsSpace(c)
    ensures var wider := [Placed([c] + items[0].gap, items[0].lexeme)] + items[1..];
            && BareLaid(wider, tail) && Render(wider, tail) == [c] + Render(items, tail)
            && TokenTexts(wider) == TokenTexts(items)
  {
    hide WellFormed, BareClear, Spell, BareOf;
    var wider := [Placed([c] + items[0].gap, items[0].lexeme)] + items[1..];
    assert wider[1..] == items[1..];
    Assoc([c], items[0].gap, Spell(items[0].lexeme));
    Assoc([c], items[0].gap + Spell(items[0].lexeme), Render(items[1..], tail));
  }

  lemma FirstBarePlaced(s: string, l: Lexeme, n: nat, more: seq<Placed>, tail: string)
    requires BareBegins(s, l, n) && BareLaid(more, tail) && Render(more, tail) == s[n..]
    ensures BareLaid([Placed("", l)] + more, tail) && Render([Placed("", l)] + more, tail) == s
    ensures TokenTexts([Placed("", l)] + more) == [BareOf(l)] + TokenTexts(more)
  {
    hide WellFormed, BareClear, Spell, BareOf;
    var items := [Placed("", l)] + more;
    assert items[1..] == more && s == s[..n] + s[n..] && "" + Spell(l) == Spell(l);
  }

  lemma {:induction false} LexBareReadsLaid(items: seq<Placed>, tail: string)
    requires BareLaid(items, tail)
    ensures LexBare(Render(items, tail)) == Some(TokenTexts(items))
    decreases |items|
  {
    if items == [] {
      SkipGap(tail, "");
      assert tail + "" == tail;
    } else {
      var l, rest := items[0].lexeme, Render(items[1..], tail);
      LexBareReadsLaid(items[1..], tail);
      var s := Spell(l) + rest;
      assert s[..|Spell(l)|] == Spell(l) && s[|Spell(l)|..] == rest;
      hide LexOneBare, WellFormed, BareClear, Spell, BareOf;
      OneBareComplete(s, l, |Spell(l)|);
      SkipGap(items[0].gap, s);
      Assoc(items[0].gap, Spell(l), rest);
    }
  }

  /** The safety tokenizer takes exactly the layouts of its tokens, as their texts. */
  lemma LexBareIffLaid(s: string, ts: seq<string>)
    ensures LexBare(s) == Some(ts) <==>
            exists items, tail :: BareLaid(items, tail) && Render(items, tail) == s && TokenTexts(items) == ts
  {
    hide LexBare, BareLaid, Render, TokenTexts;
    if LexBare(s) == Some(ts) { var items, tail := LexBareIsLayout(s); }
    forall items, tail | BareLaid(items, tail) && Render(items, tail) == s && TokenTexts(items) == ts
      ensures LexBare(s) == Some(ts)
    {
      LexBareReadsLaid(items, tail);
    }
  }
}
