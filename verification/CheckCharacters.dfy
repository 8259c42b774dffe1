/** Which characters the tokenizers of the CHECK clauses know, said with the characters
    themselves: white space, words, numbers, operators and hexadecimal literals. */
module CheckCharacters {
  import opened Prelude
  import opened CheckLexer
  import opened CheckLayout

  predicate Letter(c: char) {
    0x61 <= c as int <= 0x7A || 0x41 <= c as int <= 0x5A
  }

  predicate TenDigit(c: char) {
    0x30 <= c as int <= 0x39
  }

  predicate SixteenDigit(c: char) {
    TenDigit(c) || 0x61 <= c as int <= 0x66 || 0x41 <= c as int <= 0x46
  }

  lemma LexEmpty()
    ensures Lex("") == Some([]) && LexBare("") == Some([])
  {
  }

  lemma {:induction false} ManyTokens(s: string)
    requires Lex(s) == Some([])
    ensures Blank(s)
    decreases |s|
  {
    if s != "" && IsSpace(s[0]) {
      ManyTokens(s[1..]);
      assert s == [s[0]] + s[1..];
    }
  }

  /** A text is read as nothing exactly when it is spaces, tabs, line feeds, carriage
      returns and form feeds. */
  lemma NothingIff(s: string)
    ensures Lex(s) == Some([]) <==> forall c | c in s :: c as int in {0x20, 0x09, 0x0A, 0x0D, 0x0C}
  {
    if Lex(s) == Some([]) { ManyTokens(s); }
    if Blank(s) {
      SkipGap(s, "");
      assert s + "" == s;
      LexEmpty();
    }
  }

  /** t is s with its capital letters made small. */
  predicate InLowerCase(s: string, t: string) {
    |t| == |s| && forall i | 0 <= i < |s| ::
      t[i] as int == if 0x41 <= s[i] as int <= 0x5A then s[i] as int + 0x20 else s[i] as int
  }

  lemma LowerIff(s: string, t: string)
    ensures t == Lower(s) <==> InLowerCase(s, t)
  {
    assert forall i | 0 <= i < |s| :: Lower(s)[i] == LowerChar(s[i]);
    if InLowerCase(s, t) {
      forall i | 0 <= i < |s| ensures t[i] == Lower(s)[i] {}
    }
  }

  lemma SpanAll(s: string, k: Class)
    ensures Span(s, k) == |s| <==> AllIn(s, k)
  {
    if AllIn(s, k) {
      SpanExact(s, "", k);
      assert s + "" == s;
    }
  }

  lemma AllTail(s: string, k: Class)
    requires s != ""
    ensures AllIn(s, k) <==> InClass(s[0], k) && AllIn(s[1..], k)
  {
    assert s == [s[0]] + s[1..];
  }

  lemma RunIff(s: string, k: Class)
    requires s != ""
    ensures LexRun(s, k) == |s| <==> AllIn(s[1..], k)
  {
    SpanAll(s[1..], k);
  }

  lemma TickedIsShorter(s: string)
    requires s != "" && LexTicked(s).Some?
    ensures |LexTicked(s).value.0| + 2 == LexTicked(s).value.1
  {
  }

  /** What the switch does with the first character, when it is none of the marks. */
  lemma RunFirst(s: string)
    requires s != "" && IsWordChar(s[0]) && (|s| > 1 ==> s[1] != '\'' && (IsDigit(s[0]) ==> s[1] != 'x' && s[1] != 'X'))
    ensures IsWordStart(s[0]) ==>
              LexOne(s) == Some((Ident(Lower(s[..LexRun(s, WordClass)])), LexRun(s, WordClass))) &&
              LexOneBare(s) == Some((Lower(s[..LexRun(s, WordClass)]), LexRun(s, WordClass)))
    ensures IsDigit(s[0]) ==> LexOne(s) == Some((Num(s[..LexRun(s, DigitClass)]), LexRun(s, DigitClass)))
  {
    hide LexRun, LexHex, LexTicked, LexQuote, Lower;
  }

  /** Which kind of token comes of which first character. */
  lemma TokenKind(s: string)
    requires s != "" && LexOne(s).Some?
    ensures LexOne(s).value.0.Ident? ==> s[0] == '`' || IsWordStart(s[0])
    ensures LexOne(s).value.0.Num? ==> IsDigit(s[0])
    ensures LexOne(s).value.0.Op? ==> LexOp(s).Some? && LexOne(s) == Some((Op(LexOp(s).value.0), LexOp(s).value.1))
    ensures s[0] == '`' ==> LexTicked(s).Some? && LexOne(s) == Some((Ident(LexTicked(s).value.0), LexTicked(s).value.1))
  {
    hide LexRun, LexOp, LexTicked, LexQuote, Lower;
  }

  lemma IdentRun(s: string)
    requires s != "" && LexOne(s).Some? && LexOne(s).value.0.Ident? && s[0] != '`'
    ensures LexOne(s) == Some((Ident(Lower(s[..LexRun(s, WordClass)])), LexRun(s, WordClass)))
  {
    hide LexRun, LexOp, LexTicked, LexQuote, Lower;
  }

  lemma NumRun(s: string)
    requires s != "" && LexOne(s).Some? && LexOne(s).value.0.Num?
    ensures LexOne(s).value.1 == LexRun(s, DigitClass) && IsDigit(s[0])
  {
    hide LexRun, LexOp, LexTicked, LexQuote, Lower;
  }

  lemma AllWordIff(s: string)
    ensures AllIn(s, WordClass) <==> forall c | c in s :: Letter(c) || TenDigit(c) || c == '_'
    ensures AllIn(s, DigitClass) <==> forall c | c in s :: TenDigit(c)
  {
  }

  /** A text is one word exactly when it starts with a letter or an underscore and goes
      on with these and digits; its token is the word in lower case. */
  lemma WordIff(s: string, t: string)
    requires s != "" && |t| == |s|
    ensures LexOne(s) == Some((Ident(t), |s|)) <==>
            (Letter(s[0]) || s[0] == '_') && (forall c | c in s :: Letter(c) || TenDigit(c) || c == '_') &&
            InLowerCase(s, t)
  {
    hide LexOne, LexRun, Lower, AllIn, LexTicked;
    LowerIff(s, t);
    hide InLowerCase;
    RunIff(s, WordClass);
    AllTail(s, WordClass);
    AllWordIff(s);
    assert s[..|s|] == s;
    if LexOne(s) == Some((Ident(t), |s|)) {
      TokenKind(s);
      if s[0] == '`' { TickedIsShorter(s); } else { IdentRun(s); }
    } else if IsWordStart(s[0]) && AllIn(s, WordClass) {
      assert |s| > 1 ==> s[1] in s;
      RunFirst(s);
    }
  }

  /** A text is one number exactly when it is decimal digits. */
  lemma NumberIff(s: string)
    requires s != ""
    ensures LexOne(s) == Some((Num(s), |s|)) <==> forall c | c in s :: TenDigit(c)
  {
    hide LexOne, LexRun, AllIn;
    RunIff(s, DigitClass);
    AllTail(s, DigitClass);
    AllWordIff(s);
    assert s[..|s|] == s;
    if LexOne(s) == Some((Num(s), |s|)) {
      NumRun(s);
    } else if AllIn(s, DigitClass) {
      assert |s| > 1 ==> s[1] in s;
      RunFirst(s);
    }
  }

  /** There are five operators. */
  lemma OperatorIff(s: string)
    requires s != ""
    ensures LexOne(s) == Some((Op(s), |s|)) <==> s in ["=", ">=", "<=", ">", "<"]
  {
    assert s[..|s|] == s;
    if LexOne(s) == Some((Op(s), |s|)) {
      TokenKind(s);
    } else if s in ["=", ">=", "<=", ">", "<"] {
      OperatorIsRead(s);
    }
  }

  lemma OperatorIsRead(s: string)
    requires s in ["=", ">=", "<=", ">", "<"]
    ensures LexOne(s) == Some((Op(s), |s|))
  {
    OperatorLaid(s, "");
    assert s + "" == s;
  }

  /** A literal is hexadecimal exactly when it has an even number of sixteen digits,
      at least two. */
  lemma HexIff(digits: string, t: string)
    ensures LexOne("x'" + digits + "'") == Some((Hex(t), |digits| + 3)) <==>
            digits != "" && |digits| % 2 == 0 && (forall c | c in digits :: SixteenDigit(c)) && InLowerCase(digits, t)
  {
    hide LexQuote, Lower, LexTicked;
    var s := "x'" + digits + "'";
    LowerIff(digits, t);
    assert s[2..] == digits + "'" && s[2..2 + |digits|] == digits;
    assert AllIn(digits, HexClass) <==> forall c | c in digits :: SixteenDigit(c);
    if AllIn(digits, HexClass) { SpanExact(digits, "'", HexClass); }
    if Span(s[2..], HexClass) == |digits| {
      forall c | c in digits ensures InClass(c, HexClass) {
        var i :| 0 <= i < |digits| && digits[i] == c;
        assert s[2..][i] == c;
      }
    }
  }
}
