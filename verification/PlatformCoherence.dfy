/** The two CHECK grammars never disagree: a clause that both parsers accept has the same
    truth value under both, so the meaning of a platform clause does not depend on which
    parser the fallback used. */
module PlatformCoherence {
  import opened Prelude
  import opened CheckLexer
  import opened CheckMeaning
  import opened SafetyGrammar
  import opened SafetyMeaning
  import R = ResponseGrammar
  import M = ResponseMeaning
  import CheckLayout

  // ----- the tokens of one lexer as those of the other -----

  function Typed(t: string): Token {
    if t == "(" then LParen
    else if t == ")" then RParen
    else if t == "," then Comma
    else if IsNumber(t) then Num(t)
    else if IsComparison(t) then Op(t)
    else Ident(t)
  }

  function AllTyped(ts: seq<string>): (r: seq<Token>)
    ensures |r| == |ts|
  {
    seq(|ts|, i requires 0 <= i < |ts| => Typed(ts[i]))
  }

  lemma TypedRest(ts: seq<string>, n: nat)
    requires n <= |ts|
    ensures AllTyped(ts)[n..] == AllTyped(ts[n..])
  {
  }

  lemma TypedName(t: string)
    requires IsIdentifier(t)
    ensures Typed(t) == Ident(t)
  {
    assert t[0] in t;
  }

  lemma TypedNumber(t: string)
    requires IsNumber(t)
    ensures Typed(t) == Num(t) && t != "not"
  {
    assert t[0] in t;
  }

  lemma TypedComparison(t: string)
    requires IsComparison(t)
    ensures Typed(t) == Op(t)
  {
    assert t[0] in t;
  }

  lemma TypedKeyword(ts: seq<string>, word: string)
    requires IsIdentifier(word)
    ensures At(ts, word) <==> R.At(AllTyped(ts), Ident(word))
  {
    TypedName(word);
  }

  lemma TypedMarks(ts: seq<string>)
    ensures At(ts, "(") <==> R.At(AllTyped(ts), LParen)
    ensures At(ts, ")") <==> R.At(AllTyped(ts), RParen)
  {
  }

  // ----- one parser follows the other -----

  lemma {:induction false} NumberAgrees(ts: seq<string>, row: Row)
    requires ParseNumber(ts).Some?
    ensures var s, r := ParseNumber(ts).value, R.ParseScalar(AllTyped(ts));
            && r.Some? && r.value.1 == AllTyped(s.1)
            && M.SyntaxValue(r.value.0, row) == Integer(NumberValue(s.0))
    decreases |ts|
  {
    TypedRest(ts, 1);
    TypedMarks(ts);
    if At(ts, "(") {
      NumberAgrees(ts[1..], row);
      var rest := ParseNumber(ts[1..]).value.1;
      TypedMarks(rest);
      TypedRest(rest, 1);
    } else {
      TypedNumber(ts[0]);
    }
  }

  /** The two readings of the same tokens agree. */
  predicate PrimariesAgree(s: (Primary, seq<string>), r: (R.Primary, seq<Token>), row: Row) {
    r.1 == AllTyped(s.1) && EvalPrimary(s.0, row) == M.EvalPrimary(r.0, row)
  }

  lemma NullAgrees(name: string, ts: seq<string>, row: Row)
    requires At(ts, "is") && ParseTail(name, ts).Some? && R.ParseTail(R.Name(name), AllTyped(ts)).Some?
    ensures PrimariesAgree(ParseTail(name, ts).value, R.ParseTail(R.Name(name), AllTyped(ts)).value, row)
  {
    TypedKeyword(ts, "is");
    TypedKeyword(ts[1..], "not");
    TypedRest(ts, 1);
    TypedRest(ts, 2);
    var rest := if At(ts[1..], "not") then ts[2..] else ts[1..];
    TypedRest(rest, 1);
  }

  lemma BoundTails(name: string, ts: seq<string>)
    requires At(ts, "between")
    ensures ParseTail(name, ts) == ParseBounds(name, ts[1..])
    ensures var low := R.ParseScalar(AllTyped(ts[1..]));
            R.ParseTail(R.Name(name), AllTyped(ts)) ==
            if low.None? || !R.At(low.value.1, Ident("and")) then None else
            var high := R.ParseScalar(low.value.1[1..]);
            if high.None? then None else Some((R.BetweenAnd(R.Name(name), low.value.0, high.value.0), high.value.1))
  {
    hide ParseBounds, R.ParseScalar;
    TypedKeyword(ts, "between");
    TypedKeyword(ts, "is");
    TypedRest(ts, 1);
  }

  lemma BoundsAgree(name: string, ts: seq<string>, row: Row)
    requires At(ts, "between") && ParseTail(name, ts).Some? && R.ParseTail(R.Name(name), AllTyped(ts)).Some?
    ensures PrimariesAgree(ParseTail(name, ts).value, R.ParseTail(R.Name(name), AllTyped(ts)).value, row)
  {
    hide ParseNumber, R.ParseScalar, ParseTail, R.ParseTail, Typed;
    BoundTails(name, ts);
    NumberAgrees(ts[1..], row);
    var rest := ParseNumber(ts[1..]).value.1;
    TypedRest(rest, 1);
    NumberAgrees(rest[1..], row);
  }

  lemma NamesCompared(ts: seq<string>)
    requires ts != [] && AtName(ts[1..]) && !At(ts[2..], "(")
    requires R.ParseScalar(AllTyped(ts[1..])).Some?
    ensures R.ParseScalar(AllTyped(ts[1..])) == Some((R.Name(ts[1]), AllTyped(ts[2..])))
  {
    TypedName(ts[1]);
    TypedRest(ts[1..], 1);
    TypedMarks(ts[2..]);
    assert ts[1..][1..] == ts[2..];
  }

  lemma ComparisonTails(name: string, ts: seq<string>)
    requires ts != [] && IsComparison(ts[0])
    ensures ParseTail(name, ts) == ParseComparison(name, ts)
    ensures var right := R.ParseScalar(AllTyped(ts[1..]));
            R.ParseTail(R.Name(name), AllTyped(ts)) ==
            if right.None? then None else Some((R.Comparison(ts[0], R.Name(name), right.value.0), right.value.1))
  {
    hide ParseComparison, R.ParseScalar;
    TypedComparison(ts[0]);
    TypedRest(ts, 1);
  }

  lemma ComparisonAgrees(name: string, ts: seq<string>, row: Row)
    requires ts != [] && IsComparison(ts[0]) && ParseTail(name, ts).Some?
    requires R.ParseTail(R.Name(name), AllTyped(ts)).Some? && !At(ParseTail(name, ts).value.1, "(")
    ensures PrimariesAgree(ParseTail(name, ts).value, R.ParseTail(R.Name(name), AllTyped(ts)).value, row)
  {
    hide ParseNumber, R.ParseScalar, ParseTail, R.ParseTail, Typed, IsComparison;
    ComparisonTails(name, ts);
    if AtName(ts[1..]) { NamesCompared(ts); } else { NumberAgrees(ts[1..], row); }
  }

  lemma TailAgrees(name: string, ts: seq<string>, row: Row)
    requires ParseTail(name, ts).Some? && R.ParseTail(R.Name(name), AllTyped(ts)).Some?
    requires !At(ParseTail(name, ts).value.1, "(")
    ensures PrimariesAgree(ParseTail(name, ts).value, R.ParseTail(R.Name(name), AllTyped(ts)).value, row)
  {
    hide PrimariesAgree, ParseNumber, R.ParseScalar, ParseList;
    if At(ts, "is") {
      NullAgrees(name, ts, row);
    } else if At(ts, "in") {
      TypedName("in");
      assert false;
    } else if At(ts, "between") {
      BoundsAgree(name, ts, row);
    } else {
      ComparisonAgrees(name, ts, row);
    }
  }

  /** No clause both parsers accept starts a primary with the word NOT: the safety
      parser takes it for a column, the response parser for the operator. */
  lemma NotIsNoColumn(ts: seq<string>)
    requires At(ts, "not") && ParsePrimary(ts).Some?
    ensures R.ParseNot(AllTyped(ts)).None?
  {
    TypedKeyword(ts, "not");
    TypedRest(ts, 1);
    TypedRest(ts, 2);
    var rest := ts[1..];
    assert ParseTail("not", rest).Some? by { TypedName("not"); }
    AfterNot(rest);
  }

  lemma ColumnAfterNot(rest: seq<string>)
    requires rest != [] && IsIdentifier(rest[0]) && rest[0] != "not"
    requires rest[0] == "is" || rest[0] == "in" || rest[0] == "between"
    requires At(rest[1..], "(") || R.ParseTail(R.Name(rest[0]), AllTyped(rest[1..])).None?
    ensures R.ParseNot(AllTyped(rest)).None?
  {
    hide R.ParseTail;
    TypedName(rest[0]);
    TypedRest(rest, 1);
    TypedMarks(rest[1..]);
  }

  lemma AfterNot(rest: seq<string>)
    requires ParseTail("not", rest).Some?
    ensures R.ParseNot(AllTyped(rest)).None?
  {
    hide ParseTail, R.ParseTail, IsNumber, Typed;
    AfterNotStart(rest);
    if IsComparison(rest[0]) {
      TypedComparison(rest[0]);
      assert AllTyped(rest)[0] == Typed(rest[0]);
    } else {
      if !At(rest[1..], "(") { NoTail(R.Name(rest[0]), rest[1..]); }
      ColumnAfterNot(rest);
    }
  }

  /** What the safety parser can read after a column named NOT. */
  lemma AfterNotStart(rest: seq<string>)
    requires ParseTail("not", rest).Some?
    ensures rest != [] && rest[0] != "not" && rest[0] != "("
    ensures IsComparison(rest[0]) || rest[0] == "is" || rest[0] == "in" || rest[0] == "between"
    ensures At(rest, "in") ==> At(rest[1..], "(")
    ensures At(rest, "is") ==> At(rest[1..], "null") || At(rest[1..], "not")
    ensures At(rest, "between") ==> |rest| > 1 && (rest[1] == "(" || IsNumber(rest[1]))
  {
    hide ParseList;
  }

  lemma NoTail(left: R.ScalarSyntax, ts: seq<string>)
    requires At(ts, "null") || At(ts, "not") || (ts != [] && (ts[0] == "(" || IsNumber(ts[0])))
    ensures R.ParseTail(left, AllTyped(ts)).None?
  {
    TypedName("null");
    TypedName("not");
    if IsNumber(ts[0]) { TypedNumber(ts[0]); }
    assert AllTyped(ts)[0] == Typed(ts[0]);
  }

  lemma {:induction false} PrimaryAgrees(ts: seq<string>, row: Row)
    requires ParsePrimary(ts).Some? && R.ParsePrimary(AllTyped(ts)).Some?
    requires !At(ParsePrimary(ts).value.1, "(")
    ensures PrimariesAgree(ParsePrimary(ts).value, R.ParsePrimary(AllTyped(ts)).value, row)
    decreases |ts|, 0
  {
    hide ParseTail, R.ParseTail;
    TypedMarks(ts);
    TypedRest(ts, 1);
    if At(ts, "(") {
      OrAgrees(ts[1..], row);
      var rest := ParseOr(ts[1..]).value.1;
      TypedRest(rest, 1);
    } else {
      TypedName(ts[0]);
      NoOpenAfterName(ts);
      TailAgrees(ts[0], ts[1..], row);
    }
  }

  lemma NoOpenAfterName(ts: seq<string>)
    requires AtName(ts) && ParseTail(ts[0], ts[1..]).Some? && R.ParseScalar(AllTyped(ts)).Some?
    ensures R.ParseScalar(AllTyped(ts)) == Some((R.Name(ts[0]), AllTyped(ts[1..])))
  {
    TypedName(ts[0]);
    TypedRest(ts, 1);
    TypedMarks(ts[1..]);
  }

  lemma {:induction false} NotAgrees(ts: seq<string>, row: Row)
    requires ParsePrimary(ts).Some? && R.ParseNot(AllTyped(ts)).Some?
    requires !At(ParsePrimary(ts).value.1, "(")
    ensures var s, r := ParsePrimary(ts).value, R.ParseNot(AllTyped(ts)).value;
            r.1 == AllTyped(s.1) && EvalPrimary(s.0, row) == M.EvalNot(r.0, row)
    decreases |ts|, 1
  {
    hide ParsePrimary, R.ParsePrimary;
    TypedKeyword(ts, "not");
    if At(ts, "not") { NotIsNoColumn(ts); } else { PrimaryAgrees(ts, row); }
  }

  lemma {:induction false} AndAgrees(ts: seq<string>, row: Row)
    requires ParseAnd(ts).Some? && R.ParseAnd(AllTyped(ts)).Some? && !At(ParseAnd(ts).value.1, "(")
    ensures var s, r := ParseAnd(ts).value, R.ParseAnd(AllTyped(ts)).value;
            r.1 == AllTyped(s.1) && EvalAnd(s.0, row) == M.EvalAnd(r.0, row)
    decreases |ts|, 2
  {
    hide ParsePrimary, R.ParseNot;
    var first := ParsePrimary(ts).value;
    MoreConjuncts(OnePrimary(first.0), first.1);
    NotAgrees(ts, row);
    var last := R.ParseNot(AllTyped(ts)).value;
    AndMoreAgrees(OnePrimary(first.0), R.OneNot(last.0), first.1, row);
  }

  /** What follows an operand is the next AND or what follows the chain. */
  lemma MoreConjuncts(left: AndSyntax, ts: seq<string>)
    requires ParseAndMore(left, ts).Some? && !At(ParseAndMore(left, ts).value.1, "(")
    ensures !At(ts, "(")
  {
  }

  lemma {:induction false} AndMoreAgrees(left: AndSyntax, other: R.AndSyntax, ts: seq<string>, row: Row)
    requires ParseAndMore(left, ts).Some? && R.ParseAndMore(other, AllTyped(ts)).Some?
    requires !At(ParseAndMore(left, ts).value.1, "(") && EvalAnd(left, row) == M.EvalAnd(other, row)
    ensures var s, r := ParseAndMore(left, ts).value, R.ParseAndMore(other, AllTyped(ts)).value;
            r.1 == AllTyped(s.1) && EvalAnd(s.0, row) == M.EvalAnd(r.0, row)
    decreases |ts|, 3
  {
    hide ParsePrimary, R.ParseNot;
    TypedKeyword(ts, "and");
    if At(ts, "and") {
      TypedRest(ts, 1);
      var right := ParsePrimary(ts[1..]).value;
      MoreConjuncts(AndAlso(left, right.0), right.1);
      NotAgrees(ts[1..], row);
      var next := R.ParseNot(AllTyped(ts[1..])).value;
      AndMoreAgrees(AndAlso(left, right.0), R.AndAlso(other, next.0), right.1, row);
    }
  }

  lemma {:induction false} OrAgrees(ts: seq<string>, row: Row)
    requires ParseOr(ts).Some? && R.ParseOr(AllTyped(ts)).Some? && !At(ParseOr(ts).value.1, "(")
    ensures var s, r := ParseOr(ts).value, R.ParseOr(AllTyped(ts)).value;
            r.1 == AllTyped(s.1) && EvalOr(s.0, row) == M.EvalOr(r.0, row)
    decreases |ts|, 4
  {
    hide ParseAnd, R.ParseAnd;
    var first := ParseAnd(ts).value;
    MoreDisjuncts(OneAnd(first.0), first.1);
    AndAgrees(ts, row);
    var last := R.ParseAnd(AllTyped(ts)).value;
    OrMoreAgrees(OneAnd(first.0), R.OneAnd(last.0), first.1, row);
  }

  lemma MoreDisjuncts(left: OrSyntax, ts: seq<string>)
    requires ParseOrMore(left, ts).Some? && !At(ParseOrMore(left, ts).value.1, "(")
    ensures !At(ts, "(")
  {
  }

  lemma {:induction false} OrMoreAgrees(left: OrSyntax, other: R.OrSyntax, ts: seq<string>, row: Row)
    requires ParseOrMore(left, ts).Some? && R.ParseOrMore(other, AllTyped(ts)).Some?
    requires !At(ParseOrMore(left, ts).value.1, "(") && EvalOr(left, row) == M.EvalOr(other, row)
    ensures var s, r := ParseOrMore(left, ts).value, R.ParseOrMore(other, AllTyped(ts)).value;
            r.1 == AllTyped(s.1) && EvalOr(s.0, row) == M.EvalOr(r.0, row)
    decreases |ts|, 5
  {
    hide ParseAnd, R.ParseAnd;
    TypedKeyword(ts, "or");
    if At(ts, "or") {
      TypedRest(ts, 1);
      var right := ParseAnd(ts[1..]).value;
      MoreDisjuncts(OrElse(left, right.0), right.1);
      AndAgrees(ts[1..], row);
      var next := R.ParseAnd(AllTyped(ts[1..])).value;
      OrMoreAgrees(OrElse(left, right.0), R.OrElse(other, next.0), right.1, row);
    }
  }

  // ----- one lexer follows the other -----

  predicate EndsNumber(t: string) {
    t == ")" || t == "," || t == "and" || t == "or"
  }

  /** No number runs into a word: `0x` cannot start a hexadecimal literal. */
  predicate NumbersEnd(ts: seq<string>) {
    forall i | 0 <= i < |ts| - 1 && IsNumber(ts[i]) :: EndsNumber(ts[i + 1])
  }

  lemma NumbersEndConcat(a: seq<string>, b: seq<string>)
    requires NumbersEnd(a) && NumbersEnd(b)
    requires a != [] && b != [] && IsNumber(a[|a| - 1]) ==> EndsNumber(b[0])
    ensures NumbersEnd(a + b)
  {
    hide IsNumber, EndsNumber;
    var all := a + b;
    forall i | 0 <= i < |all| - 1 && IsNumber(all[i]) ensures EndsNumber(all[i + 1]) {
      if i >= |a| { assert all[i] == b[i - |a|] && all[i + 1] == b[i + 1 - |a|]; }
    }
  }

  lemma NameIsNoNumber(t: string)
    requires IsIdentifier(t) || IsComparison(t) || t == "(" || t == ")" || t == ","
    ensures !IsNumber(t)
  {
    assert t[0] in t;
  }

  /** Tokens in brackets, or after one that is no number. */
  lemma NumbersEndAfter(t: string, ts: seq<string>)
    requires !IsNumber(t) && NumbersEnd(ts)
    ensures NumbersEnd([t] + ts)
  {
    hide IsNumber;
    NumbersEndConcat([t], ts);
  }

  lemma NumbersEndBefore(ts: seq<string>, t: string)
    requires NumbersEnd(ts) && EndsNumber(t)
    ensures NumbersEnd(ts + [t])
  {
    hide IsNumber;
    NumbersEndConcat(ts, [t]);
  }

  lemma NumbersEndLinked(a: seq<string>, link: string, b: seq<string>)
    requires NumbersEnd(a) && EndsNumber(link) && NumbersEnd(b)
    ensures NumbersEnd(a + ([link] + b))
  {
    hide NumbersEnd, IsNumber;
    NameIsNoNumber(link);
    NumbersEndAfter(link, b);
    NumbersEndConcat(a, [link] + b);
  }

  lemma NumbersEndBracketed(ts: seq<string>)
    requires NumbersEnd(ts)
    ensures NumbersEnd(["("] + (ts + [")"]))
  {
    hide NumbersEnd, IsNumber;
    NumbersEndBefore(ts, ")");
    NameIsNoNumber("(");
    NumbersEndAfter("(", ts + [")"]);
  }

  lemma {:induction false} NumberEnds(n: NumberSyntax)
    ensures NumbersEnd(NumberTokens(n))
    decreases n
  {
    if n.Bracketed? {
      NumberEnds(n.inner);
      NumbersEndBracketed(NumberTokens(n.inner));
    }
  }

  lemma {:induction false} ListEnds(ns: seq<NumberSyntax>)
    requires ns != []
    ensures NumbersEnd(ListTokens(ns))
    decreases |ns|
  {
    hide NumbersEnd, NumberTokens;
    NumberEnds(ns[0]);
    if |ns| > 1 {
      ListEnds(ns[1..]);
      NumbersEndLinked(NumberTokens(ns[0]), ",", ListTokens(ns[1..]));
    }
  }

  lemma AtomEnds(p: Primary)
    requires PrimaryOk(p) && !p.Group?
    ensures NumbersEnd(PrimaryTokens(p))
  {
    hide NumberTokens, ListTokens, IsNumber, IsComparison, IsIdentifier, NumberOk;
    assert forall t | IsIdentifier(t) || IsComparison(t) :: !IsNumber(t) by {
      forall t | IsIdentifier(t) || IsComparison(t) ensures !IsNumber(t) { NameIsNoNumber(t); }
    }
    KeywordsAreNames();
    match p {
      case IsNull(_, _) =>
      case OneOf(_, values) =>
        ListEnds(values);
        InEnds(ListTokens(values));
      case BetweenNumbers(_, low, high) =>
        NumberEnds(low);
        NumberEnds(high);
        NumbersEndLinked(NumberTokens(low), "and", NumberTokens(high));
        NumbersEndAfter("between", NumberTokens(low) + (["and"] + NumberTokens(high)));
      case CompareName(_, _, _) =>
      case CompareNumber(op, _, value) =>
        NumberEnds(value);
        NumbersEndAfter(op, NumberTokens(value));
    }
    NumbersEndAfter(p.name, TailTokens(p));
  }

  lemma InEnds(ts: seq<string>)
    requires NumbersEnd(ts)
    ensures NumbersEnd(["in", "("] + (ts + [")"]))
  {
    hide NumbersEnd, IsNumber;
    NumbersEndBracketed(ts);
    NameIsNoNumber("in");
    NumbersEndAfter("in", ["("] + (ts + [")"]));
    assert ["in"] + (["("] + (ts + [")"])) == ["in", "("] + (ts + [")"]);
  }

  lemma KeywordsAreNames()
    ensures IsIdentifier("is") && IsIdentifier("not") && IsIdentifier("null")
    ensures IsIdentifier("in") && IsIdentifier("between")
  {
  }

  lemma {:induction false} PrimaryEnds(p: Primary)
    requires PrimaryOk(p)
    ensures NumbersEnd(PrimaryTokens(p))
    decreases p
  {
    hide NumbersEnd, TailTokens;
    if p.Group? {
      OrEnds(p.inner);
      NumbersEndBracketed(OrTokens(p.inner));
    } else {
      AtomEnds(p);
    }
  }

  lemma {:induction false} AndEnds(a: AndSyntax)
    requires AndOk(a)
    ensures NumbersEnd(AndTokens(a))
    decreases a
  {
    hide NumbersEnd, PrimaryTokens, PrimaryOk;
    match a {
      case OnePrimary(first) => PrimaryEnds(first);
      case AndAlso(left, right) =>
        AndEnds(left);
        PrimaryEnds(right);
        NumbersEndLinked(AndTokens(left), "and", PrimaryTokens(right));
    }
  }

  lemma {:induction false} OrEnds(o: OrSyntax)
    requires OrOk(o)
    ensures NumbersEnd(OrTokens(o))
    decreases o
  {
    hide NumbersEnd, AndTokens, AndOk;
    match o {
      case OneAnd(first) => AndEnds(first);
      case OrElse(left, right) =>
        OrEnds(left);
        AndEnds(right);
        NumbersEndLinked(OrTokens(left), "or", AndTokens(right));
    }
  }

  lemma LowerIsName(t: string)
    requires IsIdentifier(t)
    ensures IsIdentifier(Lower(t))
  {
    assert forall i | 0 <= i < |t| :: t[i] in t;
  }

  lemma RunIsWord(s: string)
    requires s != "" && IsWordStart(s[0])
    ensures IsIdentifier(s[..LexRun(s, WordClass)])
  {
    var n := LexRun(s, WordClass);
    forall c | c in s[..n] ensures IsWordChar(c) {
      var i :| 0 <= i < n && s[i] == c;
      if i > 0 { assert InClass(s[1..][i - 1], WordClass); }
    }
  }

  lemma RunIsNumber(s: string)
    requires s != "" && IsDigit(s[0])
    ensures IsNumber(s[..LexRun(s, DigitClass)])
  {
    var n := LexRun(s, DigitClass);
    forall c | c in s[..n] ensures IsDigit(c) {
      var i :| 0 <= i < n && s[i] == c;
      if i > 0 { assert InClass(s[1..][i - 1], DigitClass); }
    }
  }

  /** The response tokenizer would read a hexadecimal literal here. */
  predicate AtHex(s: string) {
    && |s| > 1
    && (((s[0] == 'x' || s[0] == 'X') && s[1] == '\'') || (s[0] == '0' && (s[1] == 'x' || s[1] == 'X')))
  }

  /** Elsewhere both read the same token. */
  lemma OneTokenAgrees(s: string)
    requires s != "" && LexOneBare(s).Some? && !AtHex(s)
    ensures LexOne(s) == Some((Typed(LexOneBare(s).value.0), LexOneBare(s).value.1))
  {
    hide LexRun, Lower, IsIdentifier, IsNumber, Typed, IsComparison;
    var c, t := s[0], LexOneBare(s).value.0;
    if c == '`' {
      LowerIsName(s[1..1 + Span(s[1..], NotTick)]);
      TypedName(t);
    } else if IsWordStart(c) {
      RunIsWord(s);
      LowerIsName(s[..LexRun(s, WordClass)]);
      TypedName(t);
    } else if IsDigit(c) {
      RunIsNumber(s);
      TypedNumber(t);
    } else if IsOpChar(c) {
      TypedComparison(t);
    } else {
      MarksAgree(s);
    }
  }

  lemma MarksAgree(s: string)
    requires s != "" && (s[0] == '(' || s[0] == ')' || s[0] == ',')
    ensures LexOne(s) == Some((Typed(s[..1]), 1))
  {
    assert s[..1] == [s[0]];
  }

  /** A hexadecimal literal is no safety token, and `0x41` as a number and a name never
      parses. */
  lemma NoHexBare(s: string)
    requires AtHex(s) && LexBare(s).Some?
    ensures !NumbersEnd(LexBare(s).value)
  {
    if s[0] == '0' {
      var ts := LexBare(s).value;
      assert !IsDigit(s[1]) && s[1..][0] == s[1];
      assert LexOneBare(s) == Some((s[..1], 1)) && s[..1] == "0";
      RunIsWord(s[1..]);
      WordAfterZero(s[1..]);
      assert ts[0] == "0" && ts[1] == LexBare(s[1..]).value[0];
      assert IsNumber(ts[0]) && !EndsNumber(ts[1]);
    } else {
      QuoteIsRefused(s);
    }
  }

  lemma QuoteIsRefused(s: string)
    requires AtHex(s) && s[0] != '0'
    ensures LexBare(s).None?
  {
    assert s[1..][0] == '\'' && LexOneBare(s).value.1 == 1 && LexBare(s[1..]).None?;
  }

  lemma WordAfterZero(s: string)
    requires s != "" && (s[0] == 'x' || s[0] == 'X') && LexBare(s).Some?
    ensures LexBare(s).value != [] && LexBare(s).value[0] != "" && LexBare(s).value[0][0] == 'x'
  {
    assert LexOneBare(s).value.0 == Lower(s[..LexRun(s, WordClass)]);
  }

  lemma {:induction false} LexAgrees(s: string)
    requires LexBare(s).Some? && NumbersEnd(LexBare(s).value)
    ensures Lex(s) == Some(AllTyped(LexBare(s).value))
    decreases |s|
  {
    hide LexOneBare, LexOne, Typed, IsNumber, EndsNumber;
    if s != "" {
      if IsSpace(s[0]) {
        LexAgrees(s[1..]);
      } else {
        if AtHex(s) { NoHexBare(s); }
        OneTokenAgrees(s);
        var first, ts := LexOneBare(s).value, LexBare(s).value;
        assert ts[1..] == LexBare(s[first.1..]).value;
        assert NumbersEnd(ts[1..]) by {
          forall i | 0 <= i < |ts[1..]| - 1 && IsNumber(ts[1..][i]) ensures EndsNumber(ts[1..][i + 1]) {
            assert ts[i + 1] == ts[1..][i] && ts[i + 2] == ts[1..][i + 1];
          }
        }
        LexAgrees(s[first.1..]);
        assert AllTyped(ts) == [Typed(first.0)] + AllTyped(ts[1..]);
      }
    }
  }

  // ----- a clause both accept -----

  lemma OneBareIsPlain(s: string)
    requires s != "" && LexOneBare(s).Some?
    ensures '\\' !in s[..LexOneBare(s).value.1]
  {
    var n := LexOneBare(s).value.1;
    if s[0] == '`' {
      forall c | c in s[..n] ensures c != '\\' {
        var i :| 0 <= i < n && s[i] == c;
        if 1 <= i < n - 1 { assert s[1..n - 1][i - 1] == c && IsWordChar(c); }
      }
    } else if IsWordStart(s[0]) {
      RunIsWord(s);
    } else if IsDigit(s[0]) {
      RunIsNumber(s);
    }
  }

  lemma {:induction false} BareIsPlain(s: string)
    requires LexBare(s).Some?
    ensures '\\' !in s
    decreases |s|
  {
    hide LexOneBare;
    if s != "" {
      if IsSpace(s[0]) {
        BareIsPlain(s[1..]);
        assert s == [s[0]] + s[1..];
      } else {
        var n := LexOneBare(s).value.1;
        OneBareIsPlain(s);
        BareIsPlain(s[n..]);
        assert s == s[..n] + s[n..];
      }
    }
  }

  /** A clause that both parsers accept has the same truth value on every row under both. */
  lemma GrammarsAgree(clause: string, row: Row)
    requires Parse(clause).Some? && M.Parse(clause).Some?
    ensures Meaning(clause, row) == M.Meaning(clause, row)
  {
    hide LexBare, Lex, ParseOr, R.ParseOr, EvalOr, M.EvalOr, OrTokens, OrOk;
    var ts := LexBare(clause).value;
    BareIsPlain(clause);
    CheckLayout.UnescapeUndoes(clause);
    ParseIffWritten(ts, Parse(clause).value);
    OrEnds(Parse(clause).value);
    LexAgrees(clause);
    OrAgrees(ts, row);
  }

  /** So the platform meaning is the meaning under every parser that accepts the clause. */
  lemma PlatformMeaningIsEither(clause: string, row: Row)
    requires PlatformCanonical(clause).Some?
    ensures Parse(clause).Some? || M.Parse(clause).Some?
    ensures Parse(clause).Some? ==> PlatformMeaning(clause, row) == Meaning(clause, row)
    ensures M.Parse(clause).Some? ==> PlatformMeaning(clause, row) == M.Meaning(clause, row)
  {
    hide Parse, M.Parse, Meaning, M.Meaning;
    if Parse(clause).Some? && M.Parse(clause).Some? { GrammarsAgree(clause, row); }
  }

  predicate MeansUnderSome(clause: string, row: Row, truth: Truth) {
    (Parse(clause).Some? && Meaning(clause, row) == truth) || (M.Parse(clause).Some? && M.Meaning(clause, row) == truth)
  }

  /** Clauses with one platform string have one truth value on every row, whichever of
      the parsers that accept them is asked. */
  lemma EqualStringsMeanTheSame(a: string, b: string, row: Row, x: Truth, y: Truth)
    requires PlatformCanonical(a).Some? && PlatformCanonical(a) == PlatformCanonical(b)
    requires MeansUnderSome(a, row, x) && MeansUnderSome(b, row, y)
    ensures x == y
  {
    hide PlatformCanonical, PlatformMeaning, Parse, M.Parse, Meaning, M.Meaning;
    PlatformMeaningIsEither(a, row);
    PlatformMeaningIsEither(b, row);
    PlatformCanonicalIsSound(a, b, row);
  }
}
