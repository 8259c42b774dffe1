/** The tokenizer loops, proved to compute the specification functions. */
module CheckTokenizer {
  import opened Prelude
  import opened CheckLexer

  /** The loops that advance `end` while a character class lasts. */
  method SpanEnd(clause: string, pos: nat, k: Class) returns (end: nat)
    requires pos <= |clause|
    ensures end == pos + Span(clause[pos..], k)
  {
    end := pos;
    while end < |clause| && InClass(clause[end], k)
      invariant pos <= end <= |clause|
      invariant Span(clause[pos..], k) == end - pos + Span(clause[end..], k)
    {
      assert clause[end..][1..] == clause[end + 1..];
      end := end + 1;
    }
  }

  /** Characters already read, put before the outcome of reading on. */
  function QuotedSoFar(value: string, n: nat, rest: Option<(string, nat)>): Option<(string, nat)> {
    if rest.None? then None else Some((value + rest.value.0, n + rest.value.1))
  }

  lemma QuotedNothing(rest: Option<(string, nat)>)
    ensures QuotedSoFar("", 0, rest) == rest
  {
    if rest.Some? { assert "" + rest.value.0 == rest.value.0; }
  }

  lemma QuotedOne(value: string, n: nat, c: char, m: nat, rest: Option<(string, nat)>)
    ensures QuotedSoFar(value + [c], n + m, rest) ==
            QuotedSoFar(value, n, if rest.None? then None else Some(([c] + rest.value.0, m + rest.value.1)))
  {
    if rest.Some? { assert value + [c] + rest.value.0 == value + ([c] + rest.value.0); }
  }

  /** LexQuote unfolded at position `end` of a longer text. */
  lemma QuoteAt(clause: string, end: nat)
    requires end < |clause|
    ensures var c, here := clause[end], LexQuote(clause[end..]);
            if c == '\'' then
              if end + 1 < |clause| && clause[end + 1] == '\'' then
                here == (var rest := LexQuote(clause[end + 2..]);
                         if rest.None? then None else Some(([c] + rest.value.0, 2 + rest.value.1)))
              else here == Some(("", 1))
            else if (c as int) < 0x20 || c as int > 0x7E || c == '\\' then here.None?
            else here == (var rest := LexQuote(clause[end + 1..]);
                          if rest.None? then None else Some(([c] + rest.value.0, 1 + rest.value.1)))
  {
  }

  /** The loop over a quoted literal; `pos` is just after the opening quote. */
  method QuoteEnd(clause: string, pos: nat) returns (closed: bool, value: string, end: nat)
    requires pos <= |clause|
    ensures closed == LexQuote(clause[pos..]).Some?
    ensures closed ==> LexQuote(clause[pos..]) == Some((value, end - pos)) && end <= |clause|
  {
    hide LexQuote;
    end, value := pos, "";
    QuotedNothing(LexQuote(clause[pos..]));
    while end < |clause|
      invariant pos <= end <= |clause|
      invariant LexQuote(clause[pos..]) == QuotedSoFar(value, end - pos, LexQuote(clause[end..]))
    {
      QuoteAt(clause, end);
      if clause[end] == '\'' {
        if end + 1 < |clause| && clause[end + 1] == '\'' {
          QuotedOne(value, end - pos, '\'', 2, LexQuote(clause[end + 2..]));
          value := value + "'";
          end := end + 2;
        } else {
          assert value + "" == value;
          return true, value, end + 1;
        }
      } else {
        if (clause[end] as int) < 0x20 || clause[end] as int > 0x7E || clause[end] == '\\' {
          return false, "", end;
        }
        QuotedOne(value, end - pos, clause[end], 1, LexQuote(clause[end + 1..]));
        value := value + [clause[end]];
        end := end + 1;
      }
    }
    LexQuoteEmpty(clause, end);
    return false, "", end;
  }

  lemma LexQuoteEmpty(clause: string, end: nat)
    requires end == |clause|
    ensures LexQuote(clause[end..]).None?
  {
  }

  method ScanTicked(clause: string, pos: nat) returns (ok: bool, text: string, end: nat)
    requires pos < |clause|
    ensures ok == LexTicked(clause[pos..]).Some?
    ensures ok ==> LexTicked(clause[pos..]) == Some((text, end - pos)) && pos < end <= |clause|
  {
    var s := clause[pos..];
    end := SpanEnd(clause, pos + 1, NotTick);
    assert clause[pos + 1..] == s[1..] && clause[pos + 1..end] == s[1..end - pos];
    if end == |clause| || !IsIdentifier(clause[pos + 1..end]) { return false, "", end; }
    return true, Lower(clause[pos + 1..end]), end + 1;
  }

  method ScanHex(clause: string, pos: nat, quoted: bool) returns (ok: bool, token: Token, end: nat)
    requires pos + 2 <= |clause|
    ensures ok == LexHex(clause[pos..], quoted).Some?
    ensures ok ==> LexHex(clause[pos..], quoted) == Some((token, end - pos)) && pos < end <= |clause|
  {
    var s := clause[pos..];
    end := SpanEnd(clause, pos + 2, HexClass);
    assert clause[pos + 2..] == s[2..] && clause[pos + 2..end] == s[2..end - pos];
    if end == pos + 2 || (end - (pos + 2)) % 2 != 0 { return false, Comma, end; }
    if quoted && (end >= |clause| || clause[end] != '\'') { return false, Comma, end; }
    return true, Hex(Lower(clause[pos + 2..end])), if quoted then end + 1 else end;
  }

  method ScanRun(clause: string, pos: nat, k: Class) returns (text: string, end: nat)
    requires pos < |clause|
    ensures end - pos == LexRun(clause[pos..], k) && pos < end <= |clause|
    ensures text == clause[pos..][..end - pos]
  {
    end := SpanEnd(clause, pos + 1, k);
    assert clause[pos + 1..] == clause[pos..][1..];
    text := clause[pos..end];
  }

  method ScanOp(clause: string, pos: nat) returns (ok: bool, text: string, end: nat)
    requires pos < |clause|
    ensures ok == LexOp(clause[pos..]).Some?
    ensures ok ==> LexOp(clause[pos..]) == Some((text, end - pos)) && pos < end <= |clause|
  {
    end := pos + 1;
    if end < |clause| && clause[end] == '=' { end := end + 1; }
    text := clause[pos..end];
    assert text == clause[pos..][..end - pos];
    ok := IsComparison(text);
  }

  /** One turn of the response tokenizer's loop. */
  method ScanToken(clause: string, pos: nat) returns (ok: bool, token: Token, end: nat)
    requires pos < |clause|
    ensures ok == LexOne(clause[pos..]).Some?
    ensures ok ==> LexOne(clause[pos..]) == Some((token, end - pos)) && pos < end <= |clause|
  {
    hide Lower, LexQuote, LexTicked, LexHex, LexRun, LexOp;
    var c, text := clause[pos], "";
    token, end := Comma, pos + 1;
    if c == '`' {
      ok, text, end := ScanTicked(clause, pos);
      token := Ident(text);
    } else if c == '\'' {
      assert clause[pos + 1..] == clause[pos..][1..];
      ok, text, end := QuoteEnd(clause, pos + 1);
      token := Str(text);
    } else if c == '(' || c == ')' || c == ',' {
      ok, token := true, if c == '(' then LParen else if c == ')' then RParen else Comma;
    } else if (c == 'x' || c == 'X') && pos + 1 < |clause| && clause[pos + 1] == '\'' {
      ok, token, end := ScanHex(clause, pos, true);
    } else if c == '0' && pos + 2 < |clause| && (clause[pos + 1] == 'x' || clause[pos + 1] == 'X') {
      ok, token, end := ScanHex(clause, pos, false);
    } else if IsWordStart(c) {
      text, end := ScanRun(clause, pos, WordClass);
      ok, token := true, Ident(Lower(text));
    } else if IsDigit(c) {
      text, end := ScanRun(clause, pos, DigitClass);
      ok, token := true, Num(text);
    } else if IsOpChar(c) {
      ok, text, end := ScanOp(clause, pos);
      token := Op(text);
    } else {
      ok := false;
    }
  }

  /** tokenizeAdminOperationResponseCheck. */
  method TokenizeResponse(raw: string) returns (tokens: seq<Token>, ok: bool)
    ensures ok == Lex(Unescape(raw)).Some?
    ensures ok ==> tokens == Lex(Unescape(raw)).value
  {
    hide LexOne;
    var clause := Unescape(raw);
    tokens := [];
    var pos := 0;
    assert clause[0..] == clause;
    PrefixedNothing(Lex(clause));
    while pos < |clause|
      invariant pos <= |clause|
      invariant Lex(clause) == Prefixed(tokens, Lex(clause[pos..]))
    {
      if IsSpace(clause[pos]) {
        assert clause[pos..][1..] == clause[pos + 1..];
        pos := pos + 1;
      } else {
        var scanned, token, end := ScanToken(clause, pos);
        if !scanned { return [], false; }
        assert clause[pos..][end - pos..] == clause[end..];
        PrefixedOne(tokens, token, Lex(clause[end..]));
        tokens := tokens + [token];
        pos := end;
      }
    }
    return tokens, true;
  }

  method ScanBare(clause: string, pos: nat) returns (ok: bool, token: string, end: nat)
    requires pos < |clause|
    ensures ok == LexOneBare(clause[pos..]).Some?
    ensures ok ==> LexOneBare(clause[pos..]) == Some((token, end - pos)) && pos < end <= |clause|
  {
    hide Lower, LexTicked, LexRun, LexOp;
    var c := clause[pos];
    token, end := "", pos + 1;
    if c == '`' {
      ok, token, end := ScanTicked(clause, pos);
    } else if IsWordStart(c) {
      token, end := ScanRun(clause, pos, WordClass);
      ok, token := true, Lower(token);
    } else if IsDigit(c) {
      token, end := ScanRun(clause, pos, DigitClass);
      ok := true;
    } else if c == '(' || c == ')' || c == ',' {
      ok, token := true, clause[pos..pos + 1];
      assert token == clause[pos..][..1];
    } else if IsOpChar(c) {
      ok, token, end := ScanOp(clause, pos);
    } else {
      ok := false;
    }
  }

  /** tokenizeCheckClause. */
  method TokenizeBare(clause: string) returns (tokens: seq<string>, ok: bool)
    ensures ok == LexBare(clause).Some?
    ensures ok ==> tokens == LexBare(clause).value
  {
    hide LexOneBare;
    tokens := [];
    var pos := 0;
    assert clause[0..] == clause;
    PrefixedNothing(LexBare(clause));
    while pos < |clause|
      invariant pos <= |clause|
      invariant LexBare(clause) == Prefixed(tokens, LexBare(clause[pos..]))
    {
      if IsSpace(clause[pos]) {
        assert clause[pos..][1..] == clause[pos + 1..];
        pos := pos + 1;
      } else {
        var scanned, token, end := ScanBare(clause, pos);
        if !scanned { return [], false; }
        assert clause[pos..][end - pos..] == clause[end..];
        PrefixedOne(tokens, token, LexBare(clause[end..]));
        tokens := tokens + [token];
        pos := end;
      }
    }
    return tokens, true;
  }
}
