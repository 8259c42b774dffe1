/** Clauses written as the repository writes them, and the proof that the response
    canonicalizer takes every one of them, the three of the table contract among them. */
module ResponseClauses {
  import opened Prelude
  import opened CheckLexer
  import opened CheckMeaning
  import opened CheckPrint
  import opened CheckLayout
  import opened ResponseGrammar
  import opened ResponseMeaning
  import ResponseSpelling

  // ----- what a piece of text is read as -----

  predicate Stops(rest: string) {
    rest == "" || rest[0] == ' ' || rest[0] == ')'
  }

  /** The text holds no backslash and is read as these tokens, whatever follows that
      cannot run into it. */
  ghost predicate Reads(text: string, ts: seq<Token>) {
    && '\\' !in text
    && forall rest | Stops(rest) :: Lex(text + rest) == Prefixed(ts, Lex(rest))
  }

  lemma PrefixedTwice<T>(a: seq<T>, b: seq<T>, rest: Option<seq<T>>)
    ensures Prefixed(a, Prefixed(b, rest)) == Prefixed(a + b, rest)
  {
    if rest.Some? { Assoc(a, b, rest.value); }
  }

  lemma ReadsJoin(a: string, ts: seq<Token>, b: string, us: seq<Token>)
    requires Reads(a, ts) && Reads(b, us) && b != "" && Stops(b)
    ensures Reads(a + b, ts + us)
  {
    hide Lex;
    forall rest | Stops(rest) ensures Lex(a + b + rest) == Prefixed(ts + us, Lex(rest)) {
      Assoc(a, b, rest);
      assert Stops(b + rest);
      PrefixedTwice(ts, us, Lex(rest));
    }
  }

  lemma LexStep(l: Lexeme, rest: string)
    requires WellFormed(l) && Clear(l, rest)
    ensures Lex(Spell(l) + rest) == Prefixed([TokenOf(l)], Lex(rest))
  {
    OneExact(l, rest);
    SpellStart(l);
    hide LexOne, WellFormed, Clear;
    assert (Spell(l) + rest)[|Spell(l)|..] == rest;
  }

  lemma ReadsLexeme(l: Lexeme)
    requires WellFormed(l) && forall rest | Stops(rest) :: Clear(l, rest)
    ensures Reads(Spell(l), [TokenOf(l)])
  {
    hide Lex, WellFormed, Clear;
    SpellNoBackslash(l);
    forall rest | Stops(rest) ensures Lex(Spell(l) + rest) == Prefixed([TokenOf(l)], Lex(rest)) {
      assert Clear(l, rest);
      LexStep(l, rest);
    }
  }

  lemma ReadsSpaced(text: string, ts: seq<Token>)
    requires Reads(text, ts)
    ensures Reads(" " + text, ts)
  {
    hide Lex;
    forall rest | Stops(rest) ensures Lex(" " + text + rest) == Prefixed(ts, Lex(rest)) {
      SkipGap(" ", text + rest);
      Assoc(" ", text, rest);
    }
  }

  /** A text in brackets. */
  lemma ReadsBracketed(text: string, ts: seq<Token>)
    requires Reads(text, ts)
    ensures Reads("(" + text + ")", [LParen] + ts + [RParen])
  {
    hide Lex;
    forall rest | Stops(rest) ensures Lex("(" + text + ")" + rest) == Prefixed([LParen] + ts + [RParen], Lex(rest)) {
      var closing := ")" + rest;
      assert Stops(closing);
      LexStep(Punct('('), text + closing);
      LexStep(Punct(')'), rest);
      Assoc4("(", text, ")", rest);
      PrefixedTwice(ts, [RParen], Lex(rest));
      PrefixedTwice([LParen], ts + [RParen], Lex(rest));
      Assoc([LParen], ts, [RParen]);
    }
  }

  // ----- the repository's way of writing a clause -----

  function UpperChar(c: char): char {
    if 'a' <= c <= 'z' then c - 32 as char else c
  }

  function Upper(s: string): (r: string)
    ensures |r| == |s|
  {
    seq(|s|, i requires 0 <= i < |s| => UpperChar(s[i]))
  }

  /** Names in lower case; keywords, functions and hexadecimal literals in upper case. */
  function ScalarText(s: ScalarSyntax): string {
    match s
    case Parens(inner) => "(" + ScalarText(inner) + ")"
    case Name(text) => text
    case NumberToken(text) => text
    case HexToken(text) => "X'" + Upper(text) + "'"
    case StringToken(text) => "'" + text + "'"
    case Introduced(charset, text) => charset + (" " + ("'" + text + "'"))
    case LengthCall(fn, argument) => Upper(fn) + ("(" + argument + ")")
  }

  function PrimaryText(p: Primary): string {
    match p
    case Group(inner) => "(" + OrText(inner) + ")"
    case IsNull(operand, negated) => ScalarText(operand) + (if negated then " IS NOT NULL" else " IS NULL")
    case BetweenAnd(operand, low, high) =>
      ScalarText(operand) + (" BETWEEN" + ((" " + ScalarText(low)) + (" AND" + (" " + ScalarText(high)))))
    case Comparison(op, left, right) => ScalarText(left) + ((" " + op) + (" " + ScalarText(right)))
  }

  function NotText(n: NotSyntax): string {
    match n
    case Negation(inner) => "NOT" + (" " + NotText(inner))
    case Positive(primary) => PrimaryText(primary)
  }

  function AndText(a: AndSyntax): string {
    match a
    case OneNot(first) => NotText(first)
    case AndAlso(left, right) => AndText(left) + (" AND" + (" " + NotText(right)))
  }

  function OrText(o: OrSyntax): string {
    match o
    case OneAnd(first) => AndText(first)
    case OrElse(left, right) => OrText(left) + (" OR" + (" " + AndText(right)))
  }

  // ----- what can be written that way -----

  predicate Printable(text: string) {
    forall c | c in text :: 0x20 <= c as int <= 0x7E && c != '\\' && c != '\''
  }

  /** An even number of lower-case hexadecimal digits. */
  predicate HexDigits(text: string) {
    text != "" && |text| % 2 == 0 && forall c | c in text :: '0' <= c <= '9' || 'a' <= c <= 'f'
  }

  predicate Numeral(text: string) {
    text != "" && forall c | c in text :: '0' <= c <= '9'
  }

  predicate ScalarClear(s: ScalarSyntax) {
    match s
    case Parens(inner) => ScalarClear(inner)
    case Name(text) => IsName(text)
    case NumberToken(text) => Numeral(text)
    case HexToken(text) => HexDigits(text)
    case StringToken(text) => Printable(text)
    case Introduced(_, text) => Printable(text)
    case LengthCall(_, argument) => IsName(argument)
  }

  predicate PrimaryClear(p: Primary) {
    match p
    case Group(inner) => OrClear(inner)
    case IsNull(operand, _) => ScalarClear(operand)
    case BetweenAnd(operand, low, high) => ScalarClear(operand) && ScalarClear(low) && ScalarClear(high)
    case Comparison(op, left, right) =>
      (op == "=" || op == ">=" || op == "<=" || op == ">" || op == "<") && ScalarClear(left) && ScalarClear(right)
  }

  predicate NotClear(n: NotSyntax) {
    match n
    case Negation(inner) => NotClear(inner)
    case Positive(primary) => PrimaryClear(primary)
  }

  predicate AndClear(a: AndSyntax) {
    match a
    case OneNot(first) => NotClear(first)
    case AndAlso(left, right) => AndClear(left) && NotClear(right)
  }

  predicate OrClear(o: OrSyntax) {
    match o
    case OneAnd(first) => AndClear(first)
    case OrElse(left, right) => OrClear(left) && AndClear(right)
  }

  // ----- every piece is read as its tokens -----

  lemma Folded(upper: string, lower: string)
    requires |upper| == |lower| && forall i | 0 <= i < |upper| :: 'a' <= lower[i] <= 'z' || lower[i] == '_'
    requires forall i | 0 <= i < |upper| :: upper[i] == UpperChar(lower[i])
    ensures Upper(lower) == upper && Lower(upper) == lower
    ensures forall c | c in upper :: IsWordChar(c) && !IsDigit(c)
  {
    forall i | 0 <= i < |upper| ensures Lower(upper)[i] == lower[i] && Upper(lower)[i] == upper[i] {
      assert Lower(upper)[i] == LowerChar(upper[i]) && Upper(lower)[i] == UpperChar(lower[i]);
    }
  }

  lemma KeywordsLower()
    ensures Lower("IS") == "is" && Lower("NOT") == "not" && Lower("NULL") == "null" && Lower("BETWEEN") == "between"
    ensures Lower("AND") == "and" && Lower("OR") == "or"
  {
    hide Lower;
    NullKeywordsLower();
    BetweenLower();
    JoinKeywordsLower();
  }

  lemma NullKeywordsLower()
    ensures Lower("IS") == "is" && Lower("NOT") == "not" && Lower("NULL") == "null"
  {
    hide Lower, Upper;
    Folded("IS", "is");
    Folded("NOT", "not");
    Folded("NULL", "null");
  }

  lemma BetweenLower()
    ensures Lower("BETWEEN") == "between"
  {
    hide Lower, Upper;
    Folded("BETWEEN", "between");
  }

  lemma JoinKeywordsLower()
    ensures Lower("AND") == "and" && Lower("OR") == "or"
  {
    hide Lower, Upper;
    Folded("AND", "and");
    Folded("OR", "or");
  }

  lemma ReadsWord(word: string)
    requires IsIdentifier(word)
    ensures Reads(word, [Ident(Lower(word))])
  {
    ReadsLexeme(Word(word));
  }

  lemma ReadsKeywords()
    ensures Reads("IS", [Ident("is")]) && Reads("NOT", [Ident("not")]) && Reads("NULL", [Ident("null")])
    ensures Reads("BETWEEN", [Ident("between")]) && Reads("AND", [Ident("and")]) && Reads("OR", [Ident("or")])
  {
    KeywordsLower();
    hide Reads, Lower;
    ReadsWord("IS");
    ReadsWord("NOT");
    ReadsWord("NULL");
    ReadsWord("BETWEEN");
    ReadsWord("AND");
    ReadsWord("OR");
  }

  lemma UpperIsUndone(s: string)
    requires forall c | c in s :: !('A' <= c <= 'Z')
    ensures Lower(Upper(s)) == s
  {
    forall i | 0 <= i < |s| ensures Lower(Upper(s))[i] == s[i] {
      assert s[i] in s && Upper(s)[i] == UpperChar(s[i]);
      assert Lower(Upper(s))[i] == LowerChar(Upper(s)[i]);
    }
  }

  lemma UpperHex(text: string)
    requires HexDigits(text)
    ensures WellFormed(HexQuoted('X', Upper(text))) && Lower(Upper(text)) == text
  {
    UpperIsUndone(text);
    forall c | c in Upper(text) ensures IsHexDigit(c) {
      var i :| 0 <= i < |text| && Upper(text)[i] == c;
      assert text[i] in text;
    }
  }

  lemma {:induction false} PrintableIsItself(text: string)
    requires Printable(text)
    ensures Doubled(text) == text
    decreases |text|
  {
    if text != "" {
      assert text[0] in text;
      forall c | c in text[1..] ensures c in text {}
      PrintableIsItself(text[1..]);
    }
  }

  lemma ReadsString(text: string)
    requires Printable(text)
    ensures Reads("'" + text + "'", [Str(text)])
  {
    PrintableIsItself(text);
    ReadsLexeme(Quoted(text));
  }

  lemma ShortName()
    ensures Upper("length") == "LENGTH" && Lower("LENGTH") == "length" && IsIdentifier("LENGTH")
  {
    hide Upper, Lower;
    Folded("LENGTH", "length");
  }

  lemma LongName()
    ensures Upper("octet_length") == "OCTET_LENGTH" && Lower("OCTET_LENGTH") == "octet_length"
    ensures IsIdentifier("OCTET_LENGTH")
  {
    hide Upper, Lower;
    Folded("OCTET_LENGTH", "octet_length");
  }

  lemma FunctionNames()
    ensures Upper("length") == "LENGTH" && Lower("LENGTH") == "length" && IsIdentifier("LENGTH")
    ensures Upper("octet_length") == "OCTET_LENGTH" && Lower("OCTET_LENGTH") == "octet_length"
    ensures IsIdentifier("OCTET_LENGTH")
  {
    hide Lower, Upper, IsIdentifier;
    ShortName();
    LongName();
  }

  lemma LowerIsItself(s: string)
    requires forall i | 0 <= i < |s| :: !('A' <= s[i] <= 'Z')
    ensures Lower(s) == s
  {
    forall i | 0 <= i < |s| ensures Lower(s)[i] == s[i] { assert Lower(s)[i] == LowerChar(s[i]); }
  }

  lemma CharsetNames()
    ensures IsIdentifier("_utf8mb4") && IsIdentifier("_ascii")
    ensures Lower("_utf8mb4") == "_utf8mb4" && Lower("_ascii") == "_ascii"
  {
    hide Lower;
    LowerIsItself("_utf8mb4");
    LowerIsItself("_ascii");
  }

  lemma ReadsCall(fn: string, argument: string)
    requires IsLengthName(fn) && IsName(argument)
    ensures Reads(Upper(fn) + ("(" + argument + ")"), ScalarTokens(LengthCall(fn, argument)))
  {
    ReadsWord(argument);
    ReadsBracketed(argument, [Ident(argument)]);
    hide Lex, Upper, Lower, IsIdentifier;
    var tail := [LParen] + [Ident(argument)] + [RParen];
    assert [Ident(fn)] + tail == ScalarTokens(LengthCall(fn, argument));
    forall rest | Stops(rest)
      ensures Lex(Upper(fn) + ("(" + argument + ")") + rest) == Prefixed([Ident(fn)] + tail, Lex(rest))
    {
      var more := "(" + argument + ")" + rest;
      Assoc(Upper(fn), "(" + argument + ")", rest);
      CallWord(fn, more);
      PrefixedTwice([Ident(fn)], tail, Lex(rest));
    }
  }

  lemma CallWord(fn: string, more: string)
    requires IsLengthName(fn) && more != "" && more[0] == '('
    ensures Lex(Upper(fn) + more) == Prefixed([Ident(fn)], Lex(more))
  {
    FunctionNames();
    hide Lex, Upper, Lower;
    LexStep(Word(Upper(fn)), more);
  }

  lemma ReadsIntroduced(charset: string, text: string)
    requires IsCharset(charset) && Printable(text)
    ensures Reads(charset + (" " + ("'" + text + "'")), [Ident(charset), Str(text)])
  {
    CharsetNames();
    hide Reads, Lower, IsIdentifier;
    ReadsWord(charset);
    ReadsString(text);
    ReadsSpaced("'" + text + "'", [Str(text)]);
    ReadsJoin(charset, [Ident(charset)], " " + ("'" + text + "'"), [Str(text)]);
    assert [Ident(charset)] + [Str(text)] == [Ident(charset), Str(text)];
  }

  lemma {:induction false} ReadsScalar(s: ScalarSyntax)
    requires ScalarOk(s) && ScalarClear(s)
    ensures Reads(ScalarText(s), ScalarTokens(s))
    decreases s
  {
    hide Reads, Lower, Upper, Clear;
    match s {
      case Parens(inner) =>
        ReadsScalar(inner);
        ReadsBracketed(ScalarText(inner), ScalarTokens(inner));
      case Name(text) => ReadsWord(text);
      case NumberToken(text) => ReadsNumeral(text);
      case HexToken(text) => ReadsHex(text);
      case StringToken(text) => ReadsString(text);
      case Introduced(charset, text) => ReadsIntroduced(charset, text);
      case LengthCall(fn, argument) => ReadsCall(fn, argument);
    }
  }

  lemma ReadsNumeral(text: string)
    requires Numeral(text)
    ensures Reads(text, [Num(text)])
  {
    ReadsLexeme(Digits(text));
  }

  lemma ReadsHex(text: string)
    requires HexDigits(text)
    ensures Reads("X'" + Upper(text) + "'", [Hex(text)])
  {
    UpperHex(text);
    hide Upper, Lower;
    ReadsLexeme(HexQuoted('X', Upper(text)));
    assert "X'" + Upper(text) + "'" == Spell(HexQuoted('X', Upper(text)));
  }

  lemma ReadsOperator(op: string)
    requires op == "=" || op == ">=" || op == "<=" || op == ">" || op == "<"
    ensures Reads(" " + op, [Op(op)])
  {
    ReadsLexeme(Operator(op));
    ReadsSpaced(op, [Op(op)]);
  }

  /** A keyword with a space before it. */
  lemma ReadsSpacedKeywords()
    ensures Reads(" BETWEEN", [Ident("between")]) && Reads(" AND", [Ident("and")]) && Reads(" OR", [Ident("or")])
  {
    hide Reads;
    ReadsKeywords();
    ReadsSpaced("BETWEEN", [Ident("between")]);
    ReadsSpaced("AND", [Ident("and")]);
    ReadsSpaced("OR", [Ident("or")]);
    assert " " + "BETWEEN" == " BETWEEN" && " " + "AND" == " AND" && " " + "OR" == " OR";
  }

  lemma ReadsNull()
    ensures Reads(" IS NULL", [Ident("is"), Ident("null")])
    ensures Reads(" IS NOT NULL", [Ident("is"), Ident("not"), Ident("null")])
  {
    hide Reads;
    ReadsKeywords();
    ReadsSpaced("IS", [Ident("is")]);
    ReadsSpaced("NOT", [Ident("not")]);
    ReadsSpaced("NULL", [Ident("null")]);
    ReadsJoin(" " + "IS", [Ident("is")], " " + "NULL", [Ident("null")]);
    ReadsJoin(" " + "IS", [Ident("is")], " " + "NOT", [Ident("not")]);
    ReadsJoin(" " + "IS" + (" " + "NOT"), [Ident("is")] + [Ident("not")], " " + "NULL", [Ident("null")]);
    assert " " + "IS" + (" " + "NULL") == " IS NULL" && [Ident("is")] + [Ident("null")] == [Ident("is"), Ident("null")];
    assert " " + "IS" + (" " + "NOT") + (" " + "NULL") == " IS NOT NULL";
    assert [Ident("is")] + [Ident("not")] + [Ident("null")] == [Ident("is"), Ident("not"), Ident("null")];
  }

  /** A keyword and what it joins on. */
  lemma ReadsAfter(keyword: string, t: Token, text: string, ts: seq<Token>)
    requires Reads(keyword, [t]) && Reads(text, ts)
    ensures Reads(keyword + (" " + text), [t] + ts)
  {
    hide Reads;
    ReadsSpaced(text, ts);
    ReadsJoin(keyword, [t], " " + text, ts);
  }

  lemma ReadsBetween(operand: ScalarSyntax, low: ScalarSyntax, high: ScalarSyntax)
    requires PrimaryOk(BetweenAnd(operand, low, high)) && PrimaryClear(BetweenAnd(operand, low, high))
    ensures Reads(PrimaryText(BetweenAnd(operand, low, high)), PrimaryTokens(BetweenAnd(operand, low, high)))
  {
    hide Reads, ScalarText, ScalarTokens, ScalarOk, ScalarClear;
    ReadsScalar(operand);
    ReadsScalar(low);
    ReadsScalar(high);
    ReadsSpacedKeywords();
    ReadsAfter(" AND", Ident("and"), ScalarText(high), ScalarTokens(high));
    var last, lastTokens := " AND" + (" " + ScalarText(high)), [Ident("and")] + ScalarTokens(high);
    ReadsSpaced(ScalarText(low), ScalarTokens(low));
    ReadsJoin(" " + ScalarText(low), ScalarTokens(low), last, lastTokens);
    var both, bothTokens := " " + ScalarText(low) + last, ScalarTokens(low) + lastTokens;
    ReadsJoin(" BETWEEN", [Ident("between")], both, bothTokens);
    ReadsJoin(ScalarText(operand), ScalarTokens(operand), " BETWEEN" + both, [Ident("between")] + bothTokens);
  }

  lemma ReadsComparison(op: string, left: ScalarSyntax, right: ScalarSyntax)
    requires PrimaryOk(Comparison(op, left, right)) && PrimaryClear(Comparison(op, left, right))
    ensures Reads(PrimaryText(Comparison(op, left, right)), PrimaryTokens(Comparison(op, left, right)))
  {
    hide Reads, ScalarText, ScalarTokens, ScalarOk, ScalarClear;
    ReadsScalar(left);
    ReadsScalar(right);
    ReadsOperator(op);
    ReadsAfter(" " + op, Op(op), ScalarText(right), ScalarTokens(right));
    ReadsJoin(ScalarText(left), ScalarTokens(left), " " + op + (" " + ScalarText(right)),
      [Op(op)] + ScalarTokens(right));
  }

  lemma {:induction false} ReadsPrimary(p: Primary)
    requires PrimaryOk(p) && PrimaryClear(p)
    ensures Reads(PrimaryText(p), PrimaryTokens(p))
    decreases p
  {
    hide Reads, ScalarText, ScalarTokens, ScalarOk, ScalarClear;
    match p {
      case Group(inner) =>
        ReadsOr(inner);
        ReadsBracketed(OrText(inner), OrTokens(inner));
      case IsNull(operand, negated) =>
        ReadsScalar(operand);
        ReadsNull();
        ReadsJoin(ScalarText(operand), ScalarTokens(operand), if negated then " IS NOT NULL" else " IS NULL",
                  if negated then [Ident("is"), Ident("not"), Ident("null")] else [Ident("is"), Ident("null")]);
      case BetweenAnd(operand, low, high) => ReadsBetween(operand, low, high);
      case Comparison(op, left, right) => ReadsComparison(op, left, right);
    }
  }

  lemma {:induction false} ReadsNot(n: NotSyntax)
    requires NotOk(n) && NotClear(n)
    ensures Reads(NotText(n), NotTokens(n))
    decreases n
  {
    hide Reads, PrimaryText, PrimaryTokens, PrimaryOk, PrimaryClear;
    match n {
      case Negation(inner) =>
        ReadsNot(inner);
        ReadsKeywords();
        ReadsAfter("NOT", Ident("not"), NotText(inner), NotTokens(inner));
      case Positive(primary) => ReadsPrimary(primary);
    }
  }

  lemma {:induction false} ReadsAnd(a: AndSyntax)
    requires AndOk(a) && AndClear(a)
    ensures Reads(AndText(a), AndTokens(a))
    decreases a
  {
    hide Reads, NotText, NotTokens, NotOk, NotClear;
    match a {
      case OneNot(first) => ReadsNot(first);
      case AndAlso(left, right) =>
        ReadsAnd(left);
        ReadsNot(right);
        ReadsSpacedKeywords();
        ReadsAfter(" AND", Ident("and"), NotText(right), NotTokens(right));
        ReadsJoin(AndText(left), AndTokens(left), " AND" + (" " + NotText(right)), [Ident("and")] + NotTokens(right));
    }
  }

  lemma {:induction false} ReadsOr(o: OrSyntax)
    requires OrOk(o) && OrClear(o)
    ensures Reads(OrText(o), OrTokens(o))
    decreases o
  {
    hide Reads, AndText, AndTokens, AndOk, AndClear;
    match o {
      case OneAnd(first) => ReadsAnd(first);
      case OrElse(left, right) =>
        ReadsOr(left);
        ReadsAnd(right);
        ReadsSpacedKeywords();
        ReadsAfter(" OR", Ident("or"), AndText(right), AndTokens(right));
        ReadsJoin(OrText(left), OrTokens(left), " OR" + (" " + AndText(right)), [Ident("or")] + AndTokens(right));
    }
  }

  lemma {:induction false} UnescapeNothing(s: string)
    requires '\\' !in s
    ensures Unescape(s) == s
    decreases |s|
  {
    if s != "" {
      assert s[0] in s && s == [s[0]] + s[1..];
      forall c | c in s[1..] ensures c in s {}
      UnescapeNothing(s[1..]);
    }
  }

  /** Every clause that obeys the grammar, written this way, is read as that clause. */
  lemma WrittenIsParsed(o: OrSyntax)
    requires OrOk(o) && OrClear(o)
    ensures Parse(OrText(o)) == Some(o)
  {
    hide OrText, OrTokens, OrOk, OrClear, ParseClause;
    ReadsOr(o);
    var text := OrText(o);
    hide Lex;
    assert text + "" == text && Stops("");
    LexNothing();
    assert Prefixed(OrTokens(o), Some([])) == Some(OrTokens(o)) by { assert OrTokens(o) + [] == OrTokens(o); }
    UnescapeNothing(text);
    ParseIffWritten(OrTokens(o), o);
  }

  lemma LexNothing()
    ensures Lex("") == Some([])
  {
  }

  // ----- the clauses of the table contract -----

  /** One conjunct and the text it is written as. */
  datatype Conjunct = Conjunct(term: NotSyntax, text: string)

  predicate Fits(c: Conjunct) {
    NotOk(c.term) && NotClear(c.term) && NotText(c.term) == c.text
  }

  function AllOf(cs: seq<Conjunct>): AndSyntax
    requires cs != []
  {
    if |cs| == 1 then OneNot(cs[0].term) else AndAlso(AllOf(cs[..|cs| - 1]), cs[|cs| - 1].term)
  }

  function AndJoined(cs: seq<Conjunct>): string
    requires cs != []
  {
    if |cs| == 1 then cs[0].text else AndJoined(cs[..|cs| - 1]) + " AND " + cs[|cs| - 1].text
  }

  lemma {:induction false} AllOfFits(cs: seq<Conjunct>)
    requires cs != [] && forall i | 0 <= i < |cs| :: Fits(cs[i])
    ensures AndOk(AllOf(cs)) && AndClear(AllOf(cs)) && AndText(AllOf(cs)) == AndJoined(cs)
    decreases |cs|
  {
    hide NotOk, NotClear, NotText;
    var n := |cs| - 1;
    assert Fits(cs[n]);
    if n > 0 {
      AllOfFits(cs[..n]);
      assert " AND " == " AND" + " ";
      Assoc4(AndJoined(cs[..n]), " AND", " ", cs[n].text);
    }
  }

  function Compared(left: ScalarSyntax, op: string, right: ScalarSyntax): Conjunct {
    Conjunct(Positive(Comparison(op, left, right)), ScalarText(left) + " " + op + " " + ScalarText(right))
  }

  lemma ComparedFits(left: ScalarSyntax, op: string, right: ScalarSyntax)
    requires LeftOk(left) && ScalarOk(right) && ScalarClear(left) && ScalarClear(right)
    requires op == "=" || op == ">=" || op == ">"
    ensures Fits(Compared(left, op, right))
  {
    hide ScalarText, ScalarOk, ScalarClear, LeftOk;
    var p := Comparison(op, left, right);
    assert NotText(Positive(p)) == PrimaryText(p);
    Assoc4(ScalarText(left), " ", op, " " + ScalarText(right));
    Assoc4(ScalarText(left) + " ", op, " ", ScalarText(right));
    assert NotOk(Positive(p)) == PrimaryOk(p) && NotClear(Positive(p)) == PrimaryClear(p);
  }

  function Tested(name: string, negated: bool): Conjunct {
    Conjunct(Positive(IsNull(Name(name), negated)), name + (if negated then " IS NOT NULL" else " IS NULL"))
  }

  lemma TestedFits(name: string, negated: bool)
    requires LeftOk(Name(name)) && IsName(name)
    ensures Fits(Tested(name, negated))
  {
    hide LeftOk, IsName;
    var p := IsNull(Name(name), negated);
    assert NotText(Positive(p)) == PrimaryText(p) && NotOk(Positive(p)) == PrimaryOk(p);
    assert NotClear(Positive(p)) == PrimaryClear(p);
  }

  function EitherOf(a: seq<Conjunct>, b: seq<Conjunct>): OrSyntax
    requires a != [] && b != []
  {
    OrElse(OneAnd(AllOf(a)), AllOf(b))
  }

  function Bracketed(o: OrSyntax, text: string): Conjunct {
    Conjunct(Positive(Group(o)), "(" + text + ")")
  }

  lemma EitherFits(a: seq<Conjunct>, b: seq<Conjunct>)
    requires a != [] && b != []
    requires (forall i | 0 <= i < |a| :: Fits(a[i])) && (forall i | 0 <= i < |b| :: Fits(b[i]))
    ensures OrOk(EitherOf(a, b)) && OrClear(EitherOf(a, b))
    ensures OrText(EitherOf(a, b)) == AndJoined(a) + " OR " + AndJoined(b)
  {
    AllOfFits(a);
    AllOfFits(b);
    hide Fits, AllOf, Joined, AndOk, AndClear, AndText;
    assert OrText(OneAnd(AllOf(a))) == AndText(AllOf(a));
    assert OrOk(OneAnd(AllOf(a))) == AndOk(AllOf(a)) && OrClear(OneAnd(AllOf(a))) == AndClear(AllOf(a));
    assert " OR " == " OR" + " ";
    Assoc4(AndJoined(a), " OR", " ", AndJoined(b));
  }

  lemma BracketedFits(o: OrSyntax, text: string)
    requires OrOk(o) && OrClear(o) && OrText(o) == text
    ensures Fits(Bracketed(o, text))
  {
    hide OrOk, OrClear, OrText;
    assert NotText(Positive(Group(o))) == PrimaryText(Group(o));
    assert NotOk(Positive(Group(o))) == PrimaryOk(Group(o)) && NotClear(Positive(Group(o))) == PrimaryClear(Group(o));
  }

  // -- the columns --

  predicate IsColumn(name: string) {
    IsName(name) && LeftOk(Name(name)) && ScalarClear(Name(name))
  }

  lemma ColumnName(name: string)
    requires |name| > 4 && name[0] != '_'
    requires forall i | 0 <= i < |name| :: 'a' <= name[i] <= 'z' || name[i] == '_' || (i > 0 && '0' <= name[i] <= '9')
    ensures IsColumn(name)
  {
    LowerIsItself(name);
    hide Lower;
    assert !IsCharset(name) && name != "not";
  }

  /** Two texts with an operator or keyword between them. */
  function Infix(left: string, op: string, right: string): string {
    left + " " + op + " " + right
  }

  function Size(name: string): string {
    "OCTET_LENGTH" + ("(" + name + ")")
  }

  function InQuotes(text: string): string {
    "'" + text + "'"
  }

  function Numbered(name: string, op: string, digits: string): Conjunct {
    Conjunct(Positive(Comparison(op, Name(name), NumberToken(digits))), Infix(name, op, digits))
  }

  function Related(name: string, op: string, other: string): Conjunct {
    Conjunct(Positive(Comparison(op, Name(name), Name(other))), Infix(name, op, other))
  }

  function Sized(name: string, digits: string): Conjunct {
    Conjunct(Positive(Comparison("=", LengthCall("octet_length", name), NumberToken(digits))),
             Infix(Size(name), "=", digits))
  }

  function Worded(name: string, text: string): Conjunct {
    Conjunct(Positive(Comparison("=", Name(name), StringToken(text))), Infix(name, "=", InQuotes(text)))
  }

  function Ranged(name: string, low: string, high: string): Conjunct {
    Conjunct(Positive(BetweenAnd(LengthCall("octet_length", name), NumberToken(low), NumberToken(high))),
             Infix(Size(name), "BETWEEN", Infix(low, "AND", high)))
  }

  lemma NumberedFits(name: string, op: string, digits: string)
    requires IsColumn(name) && Numeral(digits) && (op == "=" || op == ">=" || op == ">")
    ensures Fits(Numbered(name, op, digits))
  {
    hide IsName, Fits;
    ComparedFits(Name(name), op, NumberToken(digits));
  }

  lemma RelatedFits(name: string, op: string, other: string)
    requires IsColumn(name) && IsColumn(other) && (op == "=" || op == ">=" || op == ">")
    ensures Fits(Related(name, op, other))
  {
    hide IsName, Fits;
    ComparedFits(Name(name), op, Name(other));
  }

  lemma CallFits(name: string)
    requires IsColumn(name)
    ensures LeftOk(LengthCall("octet_length", name)) && ScalarClear(LengthCall("octet_length", name))
    ensures ScalarText(LengthCall("octet_length", name)) == Size(name)
  {
    hide IsName, Upper, Lower;
    LongName();
  }

  lemma SizedFits(name: string, digits: string)
    requires IsColumn(name) && Numeral(digits)
    ensures Fits(Sized(name, digits))
  {
    hide IsColumn, Fits, Size, LeftOk;
    CallFits(name);
    ComparedFits(LengthCall("octet_length", name), "=", NumberToken(digits));
  }

  lemma WordedFits(name: string, text: string)
    requires IsColumn(name) && Printable(text)
    ensures Fits(Worded(name, text))
  {
    hide IsName, Fits;
    ComparedFits(Name(name), "=", StringToken(text));
  }

  lemma RangedFits(name: string, low: string, high: string)
    requires IsColumn(name) && Numeral(low) && Numeral(high)
    ensures Fits(Ranged(name, low, high))
  {
    hide IsColumn, Size, LeftOk;
    CallFits(name);
    var call := LengthCall("octet_length", name);
    var p := BetweenAnd(call, NumberToken(low), NumberToken(high));
    assert " BETWEEN" == " " + "BETWEEN" && " AND" == " " + "AND";
    RegroupRange(Size(name), low, high);
    assert ScalarText(NumberToken(low)) == low && ScalarText(NumberToken(high)) == high;
    assert NotText(Positive(p)) == PrimaryText(p) == Infix(Size(name), "BETWEEN", Infix(low, "AND", high));
    assert PrimaryOk(p) && PrimaryClear(p);
  }

  lemma RegroupRange(size: string, low: string, high: string)
    ensures size + (" BETWEEN" + ((" " + low) + (" AND" + (" " + high)))) ==
            Infix(size, "BETWEEN", Infix(low, "AND", high))
  {
    var last := " AND" + (" " + high);
    assert Infix(low, "AND", high) == low + last;
    assert Infix(size, "BETWEEN", low + last) == size + (" BETWEEN" + (" " + (low + last)));
    Assoc(" ", low, last);
  }

  // -- conjunctions --

  lemma AndJoinedOne(c: Conjunct)
    ensures AndJoined([c]) == c.text
  {
  }

  lemma AndJoinedSnoc(cs: seq<Conjunct>, c: Conjunct)
    requires cs != []
    ensures AndJoined(cs + [c]) == AndJoined(cs) + " AND " + c.text
  {
    assert (cs + [c])[..|cs|] == cs;
  }

  lemma ConjunctionIsParsed(cs: seq<Conjunct>)
    requires cs != [] && forall i | 0 <= i < |cs| :: Fits(cs[i])
    ensures Parse(AndJoined(cs)) == Some(OneAnd(AllOf(cs)))
  {
    hide Parse, Fits, AllOf, AndJoined;
    AllOfFits(cs);
    WrittenIsParsed(OneAnd(AllOf(cs)));
  }

  lemma AcceptedIffParsed(clause: string)
    ensures Canonical(clause).Some? <==> Parse(clause).Some?
  {
  }

  lemma JsonType()
    ensures Printable("application/json") && IsColumn("http_status") && IsColumn("media_type")
  {
    hide IsColumn;
    ColumnName("http_status");
    ColumnName("media_type");
  }

  /** chk_admin_operation_responses_http. */
  lemma HttpIsAccepted()
    ensures Canonical(Infix("http_status", "=", "201") + " AND "
                      + Infix("media_type", "=", InQuotes("application/json"))).Some?
  {
    hide Parse, Fits, AndJoined, AllOf, IsColumn, Canonical, Infix, Printable;
    JsonType();
    NumberedFits("http_status", "=", "201");
    WordedFits("media_type", "application/json");
    var a, b := Numbered("http_status", "=", "201"), Worded("media_type", "application/json");
    ConjunctionIsParsed([a] + [b]);
    AndJoinedOne(a);
    AndJoinedSnoc([a], b);
    AcceptedIffParsed(AndJoined([a] + [b]));
  }

  // -- chk_admin_operation_responses_body --

  function BodyLeaves(): (Tree, Tree) {
    (Leaf(Between(Length("response_body"), Number("2"), Number("4096"))),
     Leaf(Compare("=", Length("body_sha256"), Number("64"))))
  }

  function BodyConjuncts(): (seq<Conjunct>) {
    [Ranged("response_body", "2", "4096")] + [Sized("body_sha256", "64")]
  }

  lemma BodyTree()
    ensures OrTree(OneAnd(AllOf(BodyConjuncts()))) == And([BodyLeaves().0, BodyLeaves().1])
  {
    hide Infix, Size;
    var both := BodyConjuncts();
    var a, b := both[0], both[1];
    assert both[..1] == [a];
    assert AllOf(both) == AndAlso(OneNot(a.term), b.term);
    assert PlainNumber("2") == "2" && PlainNumber("4096") == "4096" && PlainNumber("64") == "64";
    assert NotTree(a.term) == PrimaryTree(a.term.primary) == BodyLeaves().0;
    assert NotTree(b.term) == PrimaryTree(b.term.primary) == BodyLeaves().1;
    assert AndTree(OneNot(a.term)) == BodyLeaves().0;
    assert OrTree(OneAnd(AllOf(both))) == AndTree(AllOf(both));
  }

  /** How the length of a column and a number are printed. */
  function PrintedSize(name: string): string {
    "call(length,identifier(" + name + "))"
  }

  function PrintedNumber(digits: string): string {
    "number(" + digits + ")"
  }

  lemma ScalarsPrinted(name: string, digits: string)
    ensures PrintScalar(Length(name)) == PrintedSize(name) && PrintScalar(Number(digits)) == PrintedNumber(digits)
  {
    assert "call(length,identifier(" == "call" + "(" + "length,identifier(";
    assert "number(" == "number" + "(";
  }

  lemma LeavesPrinted(name: string, low: string, high: string)
    requires NoStop(name) && NoStop(low) && NoStop(high)
    ensures var size, first, last := PrintedSize(name), PrintedNumber(low), PrintedNumber(high);
            var a, b := Leaf(Between(Length(name), Number(low), Number(high))),
                        Leaf(Compare("=", Length(name), Number(high)));
            && Plain(a) && Print(a) == "between(" + (size + "," + first + "," + last + ")")
            && Plain(b) && Print(b) == "compare(" + ("=" + "," + size + "," + last + ")")
  {
    ScalarsPrinted(name, low);
    ScalarsPrinted(name, high);
    hide PrintScalar, PrintedSize, PrintedNumber;
    assert "between" + "(" == "between(" && "compare" + "(" == "compare(";
  }

  lemma PairPrinted(a: Tree, b: Tree)
    requires Plain(a) && Plain(b)
    ensures Plain(And([a, b])) && Print(And([a, b])) == "and(" + (Print(a) + "," + Print(b) + ")")
  {
    hide Print;
    var all := [a, b];
    assert all[1..] == [b];
    PairList(a, b);
    AndPrinted(all);
  }

  lemma PairList(a: Tree, b: Tree)
    requires Plain(a) && Plain(b)
    ensures PrintList([a, b]) == Print(a) + "," + Print(b)
  {
    assert [a, b][1..] == [b] && PrintList([b]) == Print(b);
  }

  lemma AndPrinted(ts: seq<Tree>)
    requires Plain(And(ts))
    ensures Print(And(ts)) == "and(" + (PrintList(ts) + ")")
  {
    assert "and" + "(" == "and(";
  }

  /** chk_admin_operation_responses_body, and the string it is compared by. */
  lemma BodyIsAccepted()
    ensures Canonical(Infix(Size("response_body"), "BETWEEN", Infix("2", "AND", "4096")) + " AND "
                      + Infix(Size("body_sha256"), "=", "64")) ==
            Some("and(" + ("between(" + (PrintedSize("response_body") + "," + PrintedNumber("2") + ","
                           + PrintedNumber("4096") + ")") + ","
                           + ("compare(" + ("=" + "," + PrintedSize("body_sha256") + "," + PrintedNumber("64") + ")"))
                           + ")"))
  {
    hide Parse, Fits, AndJoined, AllOf, IsColumn, Infix, OrTree, Print, Plain, PrintedSize, PrintedNumber;
    BodyColumns();
    RangedFits("response_body", "2", "4096");
    SizedFits("body_sha256", "64");
    var a, b := Ranged("response_body", "2", "4096"), Sized("body_sha256", "64");
    ConjunctionIsParsed([a] + [b]);
    AndJoinedOne(a);
    AndJoinedSnoc([a], b);
    BodyTree();
    LeavesPrinted("response_body", "2", "4096");
    LeavesPrinted("body_sha256", "64", "64");
    PairPrinted(BodyLeaves().0, BodyLeaves().1);
  }

  lemma BodyColumns()
    ensures IsColumn("response_body") && IsColumn("body_sha256") && NoStop("response_body") && NoStop("body_sha256")
  {
    hide IsColumn;
    ColumnName("response_body");
    ColumnName("body_sha256");
  }

  // -- chk_admin_operation_responses_lifecycle --

  predicate AllFit(cs: seq<Conjunct>) {
    cs != [] && forall i | 0 <= i < |cs| :: Fits(cs[i])
  }

  lemma OneFits(c: Conjunct)
    requires Fits(c)
    ensures AllFit([c])
  {
  }

  lemma SnocFits(cs: seq<Conjunct>, c: Conjunct)
    requires AllFit(cs) && Fits(c)
    ensures AllFit(cs + [c]) && AndJoined(cs + [c]) == AndJoined(cs) + " AND " + c.text
  {
    AndJoinedSnoc(cs, c);
    hide Fits, AndJoined;
  }

  /** A conjunction in brackets, and a disjunction in brackets. */
  function Grouped(cs: seq<Conjunct>): Conjunct
    requires cs != []
  {
    Bracketed(OneAnd(AllOf(cs)), AndJoined(cs))
  }

  function Choice(a: seq<Conjunct>, b: seq<Conjunct>): Conjunct
    requires a != [] && b != []
  {
    Bracketed(EitherOf(a, b), AndJoined(a) + " OR " + AndJoined(b))
  }

  lemma GroupedFits(cs: seq<Conjunct>)
    requires AllFit(cs)
    ensures Fits(Grouped(cs)) && Grouped(cs).text == "(" + AndJoined(cs) + ")"
  {
    hide Fits, AllOf, AndJoined;
    AllOfFits(cs);
    var o := OneAnd(AllOf(cs));
    hide AndOk, AndClear, AndText;
    assert OrOk(o) == AndOk(AllOf(cs)) && OrClear(o) == AndClear(AllOf(cs)) && OrText(o) == AndText(AllOf(cs));
    BracketedFits(o, AndJoined(cs));
  }

  lemma ChoiceFits(a: seq<Conjunct>, b: seq<Conjunct>)
    requires AllFit(a) && AllFit(b)
    ensures Fits(Choice(a, b)) && Choice(a, b).text == "(" + (AndJoined(a) + " OR " + AndJoined(b)) + ")"
  {
    hide Fits, EitherOf, AndJoined;
    EitherFits(a, b);
    BracketedFits(EitherOf(a, b), AndJoined(a) + " OR " + AndJoined(b));
  }

  /** A column compared with the two bytes of an empty JSON object. */
  function Emptied(name: string): Conjunct {
    Conjunct(Positive(Comparison("=", Name(name), HexToken("7b7d"))), Infix(name, "=", "X'7B7D'"))
  }

  lemma EmptiedFits(name: string)
    requires IsColumn(name)
    ensures Fits(Emptied(name))
  {
    hide IsName, Fits, Lower;
    assert Upper("7b7d") == "7B7D";
    ComparedFits(Name(name), "=", HexToken("7b7d"));
    assert "X'" + "7B7D" + "'" == "X'7B7D'";
  }

  /** The SHA-256 digest of those two bytes. */
  const DIGEST := "44136fa355b3678a" + "1146ad16f7e8649e" + "94fb4fc21fe77e83" + "10c060f61caaff8a"

  lemma PrintableJoin(a: string, b: string)
    requires Printable(a) && Printable(b)
    ensures Printable(a + b)
  {
  }

  lemma DigestIsPrintable()
    ensures Printable(DIGEST)
  {
    DigestParts();
    hide Printable;
    PrintableJoin("44136fa355b3678a", "1146ad16f7e8649e");
    PrintableJoin("44136fa355b3678a" + "1146ad16f7e8649e", "94fb4fc21fe77e83");
    PrintableJoin("44136fa355b3678a" + "1146ad16f7e8649e" + "94fb4fc21fe77e83", "10c060f61caaff8a");
  }

  lemma DigestParts()
    ensures Printable("44136fa355b3678a") && Printable("1146ad16f7e8649e")
    ensures Printable("94fb4fc21fe77e83") && Printable("10c060f61caaff8a")
  {
  }

  lemma StateColumns()
    ensures IsColumn("lifecycle_state") && IsColumn("target_guid") && IsColumn("is_deleted")
    ensures IsColumn("integrity_version") && IsColumn("response_hmac")
  {
    hide IsColumn;
    ColumnName("lifecycle_state");
    ColumnName("target_guid");
    ColumnName("is_deleted");
    ColumnName("integrity_version");
    ColumnName("response_hmac");
  }

  lemma AuditColumns()
    ensures IsColumn("created_at") && IsColumn("updated_at") && IsColumn("created_by") && IsColumn("updated_by")
  {
    hide IsColumn;
    ColumnName("created_at");
    ColumnName("updated_at");
    ColumnName("created_by");
    ColumnName("updated_by");
  }

  function Null(name: string): string {
    name + " IS NULL"
  }

  function NotNull(name: string): string {
    name + " IS NOT NULL"
  }

  lemma NullFits(name: string)
    requires IsColumn(name)
    ensures Fits(Tested(name, false)) && Tested(name, false).text == Null(name)
    ensures Fits(Tested(name, true)) && Tested(name, true).text == NotNull(name)
  {
    hide IsName, Fits, LeftOk;
    TestedFits(name, false);
    TestedFits(name, true);
  }

  /** Either nobody is named or one account is, as creator and as last writer. */
  lemma AuthorsFit() returns (c: Conjunct)
    ensures Fits(c) && c.text ==
            "(" + ("(" + (Null("created_by") + " AND " + Null("updated_by")) + ")" + " OR "
                   + ("(" + (NotNull("created_by") + " AND " + Infix("updated_by", "=", "created_by")) + ")")) + ")"
  {
    hide Fits, AndJoined, AllOf, IsColumn, Infix, Null, NotNull, AllFit, Tested, Related, Grouped, Choice;
    AuditColumns();
    NullFits("created_by");
    NullFits("updated_by");
    RelatedFits("updated_by", "=", "created_by");
    var none := Pair(Tested("created_by", false), Tested("updated_by", false));
    RelatedText("updated_by", "=", "created_by");
    var one := Pair(Tested("created_by", true), Related("updated_by", "=", "created_by"));
    GroupedFits(none);
    GroupedFits(one);
    OneFits(Grouped(none));
    OneFits(Grouped(one));
    AndJoinedOne(Grouped(none));
    AndJoinedOne(Grouped(one));
    ChoiceFits([Grouped(none)], [Grouped(one)]);
    c := Choice([Grouped(none)], [Grouped(one)]);
  }

  lemma RelatedText(name: string, op: string, other: string)
    ensures Related(name, op, other).text == Infix(name, op, other)
  {
  }

  lemma Pair(a: Conjunct, b: Conjunct) returns (cs: seq<Conjunct>)
    requires Fits(a) && Fits(b)
    ensures cs != [] && AllFit(cs) && AndJoined(cs) == a.text + " AND " + b.text
  {
    OneFits(a);
    AndJoinedOne(a);
    SnocFits([a], b);
    hide Fits, AndJoined;
    cs := [a] + [b];
  }

  /** What the clause asks of a snapshot that still holds its answer. */
  function LiveText(): string {
    Infix("lifecycle_state", "=", "1") + " AND " + NotNull("target_guid") + " AND "
    + Infix("target_guid", ">", "0") + " AND " + Infix("is_deleted", "=", "0") + " AND "
    + Infix("updated_at", "=", "created_at") + " AND " + Infix("integrity_version", "=", "1") + " AND "
    + Infix(Size("response_hmac"), "=", "64") + " AND "
    + ("(" + ("(" + (Null("created_by") + " AND " + Null("updated_by")) + ")" + " OR "
              + ("(" + (NotNull("created_by") + " AND " + Infix("updated_by", "=", "created_by")) + ")")) + ")")
  }

  /** And of one whose answer has been taken out. */
  function RedactedText(): string {
    Infix("lifecycle_state", "=", "2") + " AND "
    + ("(" + (Null("target_guid") + " OR " + Infix("target_guid", ">", "0")) + ")") + " AND "
    + Infix("is_deleted", "=", "1") + " AND " + Infix("integrity_version", "=", "1") + " AND "
    + Infix(Size("response_hmac"), "=", "64") + " AND " + Infix("http_status", "=", "201") + " AND "
    + Infix("media_type", "=", InQuotes("application/json")) + " AND "
    + Infix("response_body", "=", "X'7B7D'") + " AND "
    + Infix("body_sha256", "=", InQuotes(DIGEST)) + " AND "
    + Infix("updated_at", ">=", "created_at") + " AND " + NotNull("updated_by")
  }

  lemma LiveFits() returns (cs: seq<Conjunct>)
    ensures cs != [] && AllFit(cs)
    ensures AndJoined(cs) == LiveText()
  {
    hide Fits, AndJoined, IsColumn, Infix, Null, NotNull, Size, AllFit, Tested;
    StateColumns();
    AuditColumns();
    NumberedFits("lifecycle_state", "=", "1");
    NullFits("target_guid");
    NumberedFits("target_guid", ">", "0");
    NumberedFits("is_deleted", "=", "0");
    RelatedFits("updated_at", "=", "created_at");
    NumberedFits("integrity_version", "=", "1");
    SizedFits("response_hmac", "64");
    var authors := AuthorsFit();
    cs := Pair(Numbered("lifecycle_state", "=", "1"), Tested("target_guid", true));
    SnocFits(cs, Numbered("target_guid", ">", "0"));
    cs := cs + [Numbered("target_guid", ">", "0")];
    SnocFits(cs, Numbered("is_deleted", "=", "0"));
    cs := cs + [Numbered("is_deleted", "=", "0")];
    SnocFits(cs, Related("updated_at", "=", "created_at"));
    cs := cs + [Related("updated_at", "=", "created_at")];
    SnocFits(cs, Numbered("integrity_version", "=", "1"));
    cs := cs + [Numbered("integrity_version", "=", "1")];
    SnocFits(cs, Sized("response_hmac", "64"));
    cs := cs + [Sized("response_hmac", "64")];
    SnocFits(cs, authors);
    cs := cs + [authors];
  }

  lemma NoTargetFits() returns (c: Conjunct)
    ensures Fits(c) && c.text == "(" + (Null("target_guid") + " OR " + Infix("target_guid", ">", "0")) + ")"
  {
    hide Fits, AndJoined, IsColumn, Infix, Null, AllFit, Tested, Choice;
    StateColumns();
    NullFits("target_guid");
    NumberedFits("target_guid", ">", "0");
    var a, b := Tested("target_guid", false), Numbered("target_guid", ">", "0");
    OneFits(a);
    OneFits(b);
    AndJoinedOne(a);
    AndJoinedOne(b);
    ChoiceFits([a], [b]);
    c := Choice([a], [b]);
  }

  lemma RedactedFits() returns (cs: seq<Conjunct>)
    ensures cs != [] && AllFit(cs)
    ensures AndJoined(cs) == RedactedText()
  {
    hide Fits, AndJoined, IsColumn, Infix, Null, NotNull, Size, InQuotes, AllFit, Tested, Printable;
    StateColumns();
    AuditColumns();
    JsonType();
    BodyColumns();
    DigestIsPrintable();
    var target := NoTargetFits();
    NumberedFits("lifecycle_state", "=", "2");
    NumberedFits("is_deleted", "=", "1");
    NumberedFits("integrity_version", "=", "1");
    SizedFits("response_hmac", "64");
    NumberedFits("http_status", "=", "201");
    WordedFits("media_type", "application/json");
    EmptiedFits("response_body");
    WordedFits("body_sha256", DIGEST);
    RelatedFits("updated_at", ">=", "created_at");
    NullFits("updated_by");
    cs := Pair(Numbered("lifecycle_state", "=", "2"), target);
    SnocFits(cs, Numbered("is_deleted", "=", "1"));
    cs := cs + [Numbered("is_deleted", "=", "1")];
    SnocFits(cs, Numbered("integrity_version", "=", "1"));
    cs := cs + [Numbered("integrity_version", "=", "1")];
    SnocFits(cs, Sized("response_hmac", "64"));
    cs := cs + [Sized("response_hmac", "64")];
    SnocFits(cs, Numbered("http_status", "=", "201"));
    cs := cs + [Numbered("http_status", "=", "201")];
    SnocFits(cs, Worded("media_type", "application/json"));
    cs := cs + [Worded("media_type", "application/json")];
    SnocFits(cs, Emptied("response_body"));
    cs := cs + [Emptied("response_body")];
    SnocFits(cs, Worded("body_sha256", DIGEST));
    cs := cs + [Worded("body_sha256", DIGEST)];
    SnocFits(cs, Related("updated_at", ">=", "created_at"));
    cs := cs + [Related("updated_at", ">=", "created_at")];
    SnocFits(cs, Tested("updated_by", true));
    cs := cs + [Tested("updated_by", true)];
  }

  /** chk_admin_operation_responses_lifecycle. */
  lemma LifecycleIsAccepted()
    ensures Canonical("(" + LiveText() + ")" + " OR " + ("(" + RedactedText() + ")")).Some?
  {
    hide Parse, Fits, AndJoined, AllFit, Canonical, LiveText, RedactedText, Grouped, EitherOf;
    var live := LiveFits();
    var redacted := RedactedFits();
    GroupedFits(live);
    GroupedFits(redacted);
    OneFits(Grouped(live));
    OneFits(Grouped(redacted));
    AndJoinedOne(Grouped(live));
    AndJoinedOne(Grouped(redacted));
    ChoiceIsParsed([Grouped(live)], [Grouped(redacted)]);
  }

  lemma ChoiceIsParsed(a: seq<Conjunct>, b: seq<Conjunct>)
    requires AllFit(a) && AllFit(b)
    ensures Canonical(AndJoined(a) + " OR " + AndJoined(b)).Some?
  {
    hide Parse, Fits, AndJoined, EitherOf, Canonical;
    EitherFits(a, b);
    WrittenIsParsed(EitherOf(a, b));
    AcceptedIffParsed(AndJoined(a) + " OR " + AndJoined(b));
  }

  // ----- a second character set -----

  /** `media_type = _ascii 'json'`, with one more character set before the string or not. */
  function Example(again: bool): string {
    "media_type" + ((" " + "=") + (" " + (
      if again then "_utf8mb4" + (" " + ("_ascii" + (" " + ("'" + "json" + "'"))))
      else "_ascii" + (" " + ("'" + "json" + "'")))))
  }

  lemma OneCharsetIsAccepted()
    ensures Canonical(Example(false)).Some?
  {
    hide Parse, Canonical, IsName;
    ColumnName("media_type");
    var p := Comparison("=", Name("media_type"), Introduced("_ascii", "json"));
    var o := OneAnd(OneNot(Positive(p)));
    assert PrimaryOk(p) && PrimaryClear(p);
    assert OrOk(o) == AndOk(o.first) == NotOk(o.first.first) == PrimaryOk(p);
    assert OrClear(o) == AndClear(o.first) == NotClear(o.first.first) == PrimaryClear(p);
    assert OrText(o) == AndText(o.first) == NotText(o.first.first) == PrimaryText(p) == Example(false);
    WrittenIsParsed(o);
    AcceptedIffParsed(Example(false));
  }

  /** A clause with one character set before a string is accepted, with two refused. */
  lemma SecondCharsetIsRefused()
    ensures Canonical(Example(false)).Some? && Canonical(Example(true)).None?
  {
    OneCharsetIsAccepted();
    hide Reads, Canonical, Lex, IsName;
    ColumnName("media_type");
    CharsetNames();
    ReadsName("media_type");
    ReadsWord("_utf8mb4");
    ReadsOperator("=");
    ReadsIntroduced("_ascii", "json");
    var last := "_ascii" + (" " + ("'" + "json" + "'"));
    var ts := [Ident("_ascii"), Str("json")];
    ReadsAfter("_utf8mb4", Ident("_utf8mb4"), last, ts);
    var two := [Ident("_utf8mb4")] + ts;
    ReadsAfter(" " + "=", Op("="), "_utf8mb4" + (" " + last), two);
    ReadsJoin("media_type", [Ident("media_type")], " " + "=" + (" " + ("_utf8mb4" + (" " + last))), [Op("=")] + two);
    var before := [Ident("media_type"), Op("="), Ident("_utf8mb4")];
    assert [Ident("media_type")] + ([Op("=")] + two) == before + ts;
    ReadsWhole(Example(true), before + ts);
    ResponseSpelling.StrayIntroducerIsRefused(Example(true), before, ts);
  }

  lemma ReadsName(name: string)
    requires IsName(name)
    ensures Reads(name, [Ident(name)])
  {
    ReadsWord(name);
  }

  lemma ReadsWhole(text: string, ts: seq<Token>)
    requires Reads(text, ts)
    ensures Lex(Unescape(text)) == Some(ts)
  {
    hide Lex;
    UnescapeNothing(text);
    assert text + "" == text && Stops("");
    LexNothing();
    assert ts + [] == ts;
  }
}
