/** The grammar of the response CHECK clauses: concrete syntax trees, the tokens
    they are written with, the parser as functions on token lists, and the proof
    that the parser and the grammar are inverse to each other. */
module ResponseGrammar {
  import opened Prelude
  import opened CheckLexer

  datatype ScalarSyntax =
    | Parens(inner: ScalarSyntax)
    | Name(text: string)
    | NumberToken(text: string)
    | HexToken(text: string)
    | StringToken(text: string)
    | Introduced(charset: string, text: string)
    | LengthCall(fn: string, argument: string)

  datatype Primary =
    | Group(inner: OrSyntax)
    | IsNull(operand: ScalarSyntax, negated: bool)
    | BetweenAnd(operand: ScalarSyntax, low: ScalarSyntax, high: ScalarSyntax)
    | Comparison(op: string, left: ScalarSyntax, right: ScalarSyntax)

  datatype NotSyntax = Negation(inner: NotSyntax) | Positive(primary: Primary)

  datatype AndSyntax = OneNot(first: NotSyntax) | AndAlso(left: AndSyntax, right: NotSyntax)

  datatype OrSyntax = OneAnd(first: AndSyntax) | OrElse(left: OrSyntax, right: AndSyntax)

  predicate IsCharset(text: string) {
    text == "_utf8mb4" || text == "_ascii"
  }

  predicate IsLengthName(text: string) {
    text == "length" || text == "octet_length"
  }

  /** What the parser demands beyond the shape: charset names introduce strings,
      only the length functions are called, and never on `_utf8mb4`. */
  predicate ScalarOk(s: ScalarSyntax) {
    match s
    case Parens(inner) => ScalarOk(inner)
    case Name(text) => !IsCharset(text)
    case Introduced(charset, _) => IsCharset(charset)
    case LengthCall(fn, argument) => IsLengthName(fn) && argument != "_utf8mb4"
    case _ => true
  }

  /** A left operand is not parenthesised and does not read as NOT. */
  predicate LeftOk(s: ScalarSyntax) {
    ScalarOk(s) && !s.Parens? && s != Name("not")
  }

  predicate PrimaryOk(p: Primary) {
    match p
    case Group(inner) => OrOk(inner)
    case IsNull(operand, _) => LeftOk(operand)
    case BetweenAnd(operand, low, high) => LeftOk(operand) && ScalarOk(low) && ScalarOk(high)
    case Comparison(_, left, right) => LeftOk(left) && ScalarOk(right)
  }

  predicate NotOk(n: NotSyntax) {
    match n
    case Negation(inner) => NotOk(inner)
    case Positive(primary) => PrimaryOk(primary)
  }

  predicate AndOk(a: AndSyntax) {
    match a
    case OneNot(first) => NotOk(first)
    case AndAlso(left, right) => AndOk(left) && NotOk(right)
  }

  predicate OrOk(o: OrSyntax) {
    match o
    case OneAnd(first) => AndOk(first)
    case OrElse(left, right) => OrOk(left) && AndOk(right)
  }

  // ----- writing -----

  function ScalarTokens(s: ScalarSyntax): seq<Token> {
    match s
    case Parens(inner) => [LParen] + ScalarTokens(inner) + [RParen]
    case Name(text) => [Ident(text)]
    case NumberToken(text) => [Num(text)]
    case HexToken(text) => [Hex(text)]
    case StringToken(text) => [Str(text)]
    case Introduced(charset, text) => [Ident(charset), Str(text)]
    case LengthCall(fn, argument) => [Ident(fn), LParen, Ident(argument), RParen]
  }

  function PrimaryTokens(p: Primary): seq<Token> {
    match p
    case Group(inner) => [LParen] + OrTokens(inner) + [RParen]
    case IsNull(operand, negated) =>
      ScalarTokens(operand) +
        (if negated then [Ident("is"), Ident("not"), Ident("null")] else [Ident("is"), Ident("null")])
    case BetweenAnd(operand, low, high) =>
      ScalarTokens(operand) + ([Ident("between")] + (ScalarTokens(low) + ([Ident("and")] + ScalarTokens(high))))
    case Comparison(op, left, right) => ScalarTokens(left) + ([Op(op)] + ScalarTokens(right))
  }

  function NotTokens(n: NotSyntax): seq<Token> {
    match n
    case Negation(inner) => [Ident("not")] + NotTokens(inner)
    case Positive(primary) => PrimaryTokens(primary)
  }

  function AndTokens(a: AndSyntax): seq<Token> {
    match a
    case OneNot(first) => NotTokens(first)
    case AndAlso(left, right) => AndTokens(left) + ([Ident("and")] + NotTokens(right))
  }

  function OrTokens(o: OrSyntax): seq<Token> {
    match o
    case OneAnd(first) => AndTokens(first)
    case OrElse(left, right) => OrTokens(left) + ([Ident("or")] + AndTokens(right))
  }

  // ----- reading -----

  predicate At(ts: seq<Token>, t: Token) {
    ts != [] && ts[0] == t
  }

  type Parsed<T> = Option<(T, seq<Token>)>

  function ParseScalar(ts: seq<Token>): (r: Parsed<ScalarSyntax>)
    ensures r.Some? ==> |r.value.1| < |ts|
    decreases |ts|
  {
    if ts == [] then None else
    match ts[0]
    case LParen =>
      var inner := ParseScalar(ts[1..]);
      if inner.None? || !At(inner.value.1, RParen) then None else Some((Parens(inner.value.0), inner.value.1[1..]))
    case Hex(text) => Some((HexToken(text), ts[1..]))
    case Num(text) => Some((NumberToken(text), ts[1..]))
    case Str(text) => Some((StringToken(text), ts[1..]))
    case Ident(text) =>
      if IsCharset(text) then
        if |ts| > 1 && ts[1].Str? then Some((Introduced(text, ts[1].text), ts[2..])) else None
      else if !At(ts[1..], LParen) then Some((Name(text), ts[1..]))
      else if !IsLengthName(text) || |ts| < 4 || !ts[2].Ident? || ts[2].text == "_utf8mb4" || ts[3] != RParen then None
      else Some((LengthCall(text, ts[2].text), ts[4..]))
    case _ => None
  }

  /** The predicate after its left operand. */
  function ParseTail(left: ScalarSyntax, ts: seq<Token>): (r: Parsed<Primary>)
    ensures r.Some? ==> |r.value.1| < |ts|
  {
    if At(ts, Ident("is")) then
      var negated := At(ts[1..], Ident("not"));
      var rest := if negated then ts[2..] else ts[1..];
      if At(rest, Ident("null")) then Some((IsNull(left, negated), rest[1..])) else None
    else if At(ts, Ident("between")) then
      var low := ParseScalar(ts[1..]);
      if low.None? || !At(low.value.1, Ident("and")) then None else
      var high := ParseScalar(low.value.1[1..]);
      if high.None? then None else Some((BetweenAnd(left, low.value.0, high.value.0), high.value.1))
    else if ts == [] || !ts[0].Op? then None
    else
      var right := ParseScalar(ts[1..]);
      if right.None? then None else Some((Comparison(ts[0].text, left, right.value.0), right.value.1))
  }

  function ParsePrimary(ts: seq<Token>): (r: Parsed<Primary>)
    ensures r.Some? ==> |r.value.1| < |ts|
    decreases |ts|, 0
  {
    if At(ts, LParen) then
      var inner := ParseOr(ts[1..]);
      if inner.None? || !At(inner.value.1, RParen) then None else Some((Group(inner.value.0), inner.value.1[1..]))
    else
      var left := ParseScalar(ts);
      if left.None? then None else ParseTail(left.value.0, left.value.1)
  }

  function ParseNot(ts: seq<Token>): (r: Parsed<NotSyntax>)
    ensures r.Some? ==> |r.value.1| < |ts|
    decreases |ts|, 1
  {
    if At(ts, Ident("not")) then
      var inner := ParseNot(ts[1..]);
      if inner.None? then None else Some((Negation(inner.value.0), inner.value.1))
    else
      var primary := ParsePrimary(ts);
      if primary.None? then None else Some((Positive(primary.value.0), primary.value.1))
  }

  function ParseAnd(ts: seq<Token>): (r: Parsed<AndSyntax>)
    ensures r.Some? ==> |r.value.1| < |ts|
    decreases |ts|, 2
  {
    var first := ParseNot(ts);
    if first.None? then None else ParseAndMore(OneNot(first.value.0), first.value.1)
  }

  function ParseAndMore(left: AndSyntax, ts: seq<Token>): (r: Parsed<AndSyntax>)
    ensures r.Some? ==> |r.value.1| <= |ts|
    decreases |ts|, 3
  {
    if !At(ts, Ident("and")) then Some((left, ts)) else
    var right := ParseNot(ts[1..]);
    if right.None? then None else ParseAndMore(AndAlso(left, right.value.0), right.value.1)
  }

  function ParseOr(ts: seq<Token>): (r: Parsed<OrSyntax>)
    ensures r.Some? ==> |r.value.1| < |ts|
    decreases |ts|, 4
  {
    var first := ParseAnd(ts);
    if first.None? then None else ParseOrMore(OneAnd(first.value.0), first.value.1)
  }

  function ParseOrMore(left: OrSyntax, ts: seq<Token>): (r: Parsed<OrSyntax>)
    ensures r.Some? ==> |r.value.1| <= |ts|
    decreases |ts|, 5
  {
    if !At(ts, Ident("or")) then Some((left, ts)) else
    var right := ParseAnd(ts[1..]);
    if right.None? then None else ParseOrMore(OrElse(left, right.value.0), right.value.1)
  }

  /** The whole clause: nothing may be left over. */
  function ParseClause(ts: seq<Token>): Option<OrSyntax> {
    var r := ParseOr(ts);
    if r.None? || r.value.1 != [] then None else Some(r.value.0)
  }

  // ----- what is read is what was written: every parse is a grammar tree -----

  lemma AtomSound(ts: seq<Token>)
    requires ParseScalar(ts).Some? && !ts[0].LParen?
    ensures var r := ParseScalar(ts).value; ScalarOk(r.0) && ts == ScalarTokens(r.0) + r.1
  {
    if ts[0].Ident? && IsCharset(ts[0].text) {
      assert ts == [ts[0], ts[1]] + ts[2..];
    } else if ts[0].Ident? && At(ts[1..], LParen) {
      assert ts == [ts[0], ts[1], ts[2], ts[3]] + ts[4..];
    } else {
      assert ts == [ts[0]] + ts[1..];
    }
  }

  lemma {:induction false} ScalarSound(ts: seq<Token>)
    requires ParseScalar(ts).Some?
    ensures var r := ParseScalar(ts).value; ScalarOk(r.0) && ts == ScalarTokens(r.0) + r.1
    decreases |ts|
  {
    if ts[0].LParen? {
      ScalarSound(ts[1..]);
      var inner := ParseScalar(ts[1..]).value;
      assert ts == [LParen] + ts[1..];
      assert inner.1 == [RParen] + inner.1[1..];
    } else {
      AtomSound(ts);
    }
  }

  lemma NullTailSound(left: ScalarSyntax, ts: seq<Token>)
    requires LeftOk(left) && At(ts, Ident("is")) && ParseTail(left, ts).Some?
    ensures var r := ParseTail(left, ts).value; PrimaryOk(r.0) && ScalarTokens(left) + ts == PrimaryTokens(r.0) + r.1
  {
  }

  lemma BetweenTailSound(left: ScalarSyntax, ts: seq<Token>)
    requires LeftOk(left) && At(ts, Ident("between")) && ParseTail(left, ts).Some?
    ensures var r := ParseTail(left, ts).value; PrimaryOk(r.0) && ScalarTokens(left) + ts == PrimaryTokens(r.0) + r.1
  {
    hide ScalarTokens, LeftOk, ParseScalar, ScalarOk;
    var r := ParseTail(left, ts).value;
    var low := ParseScalar(ts[1..]).value;
    ScalarSound(ts[1..]);
    ScalarSound(low.1[1..]);
    assert low.1 == [Ident("and")] + low.1[1..];
    assert ts == [Ident("between")] + ts[1..];
    RegroupBetween(ScalarTokens(left), ScalarTokens(low.0), ScalarTokens(r.0.high), r.1);
  }

  lemma RegroupBetween(a: seq<Token>, b: seq<Token>, c: seq<Token>, rest: seq<Token>)
    ensures a + ([Ident("between")] + (b + ([Ident("and")] + (c + rest)))) ==
            a + ([Ident("between")] + (b + ([Ident("and")] + c))) + rest
  {
  }

  lemma CompareTailSound(left: ScalarSyntax, ts: seq<Token>)
    requires LeftOk(left) && ParseTail(left, ts).Some? && ParseTail(left, ts).value.0.Comparison?
    ensures var r := ParseTail(left, ts).value; PrimaryOk(r.0) && ScalarTokens(left) + ts == PrimaryTokens(r.0) + r.1
  {
    hide ScalarTokens, LeftOk, ParseScalar, ScalarOk;
    var r := ParseTail(left, ts).value;
    ScalarSound(ts[1..]);
    assert ts == [ts[0]] + (ScalarTokens(r.0.right) + r.1);
    assert ScalarTokens(left) + ts == ScalarTokens(left) + ([ts[0]] + ScalarTokens(r.0.right)) + r.1;
  }

  lemma TailSound(left: ScalarSyntax, ts: seq<Token>)
    requires LeftOk(left) && ParseTail(left, ts).Some?
    ensures var r := ParseTail(left, ts).value; PrimaryOk(r.0) && ScalarTokens(left) + ts == PrimaryTokens(r.0) + r.1
  {
    hide ScalarTokens, LeftOk, ParseScalar, ScalarOk, PrimaryTokens, PrimaryOk;
    if At(ts, Ident("is")) { NullTailSound(left, ts); }
    else if At(ts, Ident("between")) { BetweenTailSound(left, ts); }
    else { CompareTailSound(left, ts); }
  }

  lemma {:induction false} PrimarySound(ts: seq<Token>)
    requires ParsePrimary(ts).Some? && !At(ts, Ident("not"))
    ensures var r := ParsePrimary(ts).value; PrimaryOk(r.0) && ts == PrimaryTokens(r.0) + r.1
    decreases |ts|, 0
  {
    var r := ParsePrimary(ts).value;
    if At(ts, LParen) {
      OrSound(ts[1..]);
      var inner := ParseOr(ts[1..]).value;
      assert ts == [LParen] + ts[1..];
      assert inner.1 == [RParen] + r.1;
    } else {
      var left := ParseScalar(ts).value;
      ScalarSound(ts);
      TailSound(left.0, left.1);
    }
  }

  lemma {:induction false} NotSound(ts: seq<Token>)
    requires ParseNot(ts).Some?
    ensures var r := ParseNot(ts).value; NotOk(r.0) && ts == NotTokens(r.0) + r.1
    decreases |ts|, 1
  {
    hide ParsePrimary, PrimaryTokens, PrimaryOk;
    if At(ts, Ident("not")) {
      NotSound(ts[1..]);
      assert ts == [Ident("not")] + ts[1..];
    } else {
      PrimarySound(ts);
    }
  }

  lemma {:induction false} AndSound(ts: seq<Token>)
    requires ParseAnd(ts).Some?
    ensures var r := ParseAnd(ts).value; AndOk(r.0) && ts == AndTokens(r.0) + r.1
    decreases |ts|, 2
  {
    NotSound(ts);
    var first := ParseNot(ts).value;
    AndMoreSound(OneNot(first.0), first.1);
  }

  lemma {:induction false} AndMoreSound(left: AndSyntax, ts: seq<Token>)
    requires AndOk(left) && ParseAndMore(left, ts).Some?
    ensures var r := ParseAndMore(left, ts).value; AndOk(r.0) && AndTokens(left) + ts == AndTokens(r.0) + r.1
    decreases |ts|, 3
  {
    hide ParseNot, NotTokens, NotOk;
    if At(ts, Ident("and")) {
      NotSound(ts[1..]);
      var right := ParseNot(ts[1..]).value;
      assert ts == [Ident("and")] + (NotTokens(right.0) + right.1);
      assert AndTokens(left) + ts == AndTokens(AndAlso(left, right.0)) + right.1;
      AndMoreSound(AndAlso(left, right.0), right.1);
    }
  }

  lemma {:induction false} OrSound(ts: seq<Token>)
    requires ParseOr(ts).Some?
    ensures var r := ParseOr(ts).value; OrOk(r.0) && ts == OrTokens(r.0) + r.1
    decreases |ts|, 4
  {
    AndSound(ts);
    var first := ParseAnd(ts).value;
    OrMoreSound(OneAnd(first.0), first.1);
  }

  lemma {:induction false} OrMoreSound(left: OrSyntax, ts: seq<Token>)
    requires OrOk(left) && ParseOrMore(left, ts).Some?
    ensures var r := ParseOrMore(left, ts).value; OrOk(r.0) && OrTokens(left) + ts == OrTokens(r.0) + r.1
    decreases |ts|, 5
  {
    if At(ts, Ident("or")) {
      AndSound(ts[1..]);
      var right := ParseAnd(ts[1..]).value;
      assert ts == [Ident("or")] + (AndTokens(right.0) + right.1);
      OrMoreSound(OrElse(left, right.0), right.1);
    }
  }

  // ----- what was written is what is read: every grammar tree parses to itself -----

  /** The text after a scalar does not turn a name into a call. */
  predicate NoCall(rest: seq<Token>) {
    !At(rest, LParen)
  }

  lemma {:induction false} ScalarComplete(s: ScalarSyntax, rest: seq<Token>)
    requires ScalarOk(s) && NoCall(rest)
    ensures ParseScalar(ScalarTokens(s) + rest) == Some((s, rest))
    decreases s
  {
    var ts := ScalarTokens(s) + rest;
    match s {
      case Parens(inner) =>
        ScalarComplete(inner, [RParen] + rest);
        assert ts[1..] == ScalarTokens(inner) + ([RParen] + rest);
        assert ([RParen] + rest)[1..] == rest;
      case Introduced(_, _) => assert ts[2..] == rest;
      case LengthCall(_, _) => assert ts[4..] == rest && ts[1..][0] == LParen;
      case _ => assert ts[1..] == rest;
    }
  }

  function LeftOf(p: Primary): ScalarSyntax
    requires !p.Group?
  {
    if p.Comparison? then p.left else p.operand
  }

  /** The tokens of a predicate after its left operand. */
  function TailTokens(p: Primary): seq<Token>
    requires !p.Group?
  {
    match p
    case IsNull(_, negated) =>
      if negated then [Ident("is"), Ident("not"), Ident("null")] else [Ident("is"), Ident("null")]
    case BetweenAnd(_, low, high) => [Ident("between")] + (ScalarTokens(low) + ([Ident("and")] + ScalarTokens(high)))
    case Comparison(op, _, right) => [Op(op)] + ScalarTokens(right)
  }

  lemma TailShape(p: Primary, rest: seq<Token>)
    requires !p.Group?
    ensures PrimaryTokens(p) + rest == ScalarTokens(LeftOf(p)) + (TailTokens(p) + rest)
    ensures NoCall(TailTokens(p) + rest)
  {
  }

  lemma NullTailComplete(p: Primary, rest: seq<Token>)
    requires p.IsNull?
    ensures ParseTail(p.operand, TailTokens(p) + rest) == Some((p, rest))
  {
  }

  lemma BetweenTailComplete(p: Primary, rest: seq<Token>)
    requires p.BetweenAnd? && PrimaryOk(p) && NoCall(rest)
    ensures ParseTail(p.operand, TailTokens(p) + rest) == Some((p, rest))
  {
    hide ParseScalar, ScalarTokens, ScalarOk;
    var last := [Ident("and")] + (ScalarTokens(p.high) + rest);
    ScalarComplete(p.low, last);
    ScalarComplete(p.high, rest);
    assert TailTokens(p) + rest == [Ident("between")] + (ScalarTokens(p.low) + last);
    assert (TailTokens(p) + rest)[1..] == ScalarTokens(p.low) + last && last[1..] == ScalarTokens(p.high) + rest;
  }

  lemma CompareTailComplete(p: Primary, rest: seq<Token>)
    requires p.Comparison? && PrimaryOk(p) && NoCall(rest)
    ensures ParseTail(p.left, TailTokens(p) + rest) == Some((p, rest))
  {
    hide ParseScalar, ScalarTokens, ScalarOk;
    ScalarComplete(p.right, rest);
    assert (TailTokens(p) + rest)[1..] == ScalarTokens(p.right) + rest;
  }

  lemma TailComplete(p: Primary, rest: seq<Token>)
    requires PrimaryOk(p) && !p.Group? && NoCall(rest)
    ensures ParseTail(LeftOf(p), TailTokens(p) + rest) == Some((p, rest))
  {
    hide ParseTail, TailTokens, PrimaryOk, NoCall;
    match p {
      case IsNull(_, _) => NullTailComplete(p, rest);
      case BetweenAnd(_, _, _) => BetweenTailComplete(p, rest);
      case Comparison(_, _, _) => CompareTailComplete(p, rest);
    }
  }

  lemma LeftStart(s: ScalarSyntax, ts: seq<Token>)
    requires LeftOk(s)
    ensures ScalarTokens(s) + ts != [] && (ScalarTokens(s) + ts)[0] != LParen &&
            (ScalarTokens(s) + ts)[0] != Ident("not")
  {
  }

  /** After a complete chain neither the word that would continue it nor a call. */
  predicate EndsAnd(rest: seq<Token>) {
    NoCall(rest) && !At(rest, Ident("and"))
  }

  predicate EndsOr(rest: seq<Token>) {
    EndsAnd(rest) && !At(rest, Ident("or"))
  }

  lemma {:induction false} PrimaryComplete(p: Primary, rest: seq<Token>)
    requires PrimaryOk(p) && NoCall(rest)
    ensures ParsePrimary(PrimaryTokens(p) + rest) == Some((p, rest))
    ensures !At(PrimaryTokens(p) + rest, Ident("not"))
    decreases p, 0
  {
    hide ParseScalar, ScalarTokens, ScalarOk, ParseTail, TailTokens;
    if p.Group? {
      var after := [RParen] + rest;
      OrComplete(p.inner, after);
      assert (PrimaryTokens(p) + rest)[1..] == OrTokens(p.inner) + after;
      assert after[1..] == rest;
    } else {
      var left, ts := LeftOf(p), TailTokens(p) + rest;
      TailComplete(p, rest);
      TailShape(p, rest);
      ScalarComplete(left, ts);
      LeftStart(left, ts);
    }
  }

  lemma {:induction false} NotComplete(n: NotSyntax, rest: seq<Token>)
    requires NotOk(n) && NoCall(rest)
    ensures ParseNot(NotTokens(n) + rest) == Some((n, rest))
    decreases n, 1
  {
    hide ParsePrimary, PrimaryTokens, PrimaryOk;
    match n {
      case Negation(inner) =>
        NotComplete(inner, rest);
        assert (NotTokens(n) + rest)[1..] == NotTokens(inner) + rest;
      case Positive(primary) => PrimaryComplete(primary, rest);
    }
  }

  lemma {:induction false} AndComplete(a: AndSyntax, rest: seq<Token>)
    requires AndOk(a) && NoCall(rest)
    ensures ParseAnd(AndTokens(a) + rest) == ParseAndMore(a, rest)
    decreases a, 2
  {
    match a {
      case OneNot(first) => NotComplete(first, rest);
      case AndAlso(left, right) =>
        var after := [Ident("and")] + (NotTokens(right) + rest);
        AndComplete(left, after);
        assert AndTokens(a) + rest == AndTokens(left) + after;
        NotComplete(right, rest);
        assert after[1..] == NotTokens(right) + rest;
    }
  }

  lemma {:induction false} OrCompleteMore(o: OrSyntax, rest: seq<Token>)
    requires OrOk(o) && EndsAnd(rest)
    ensures ParseOr(OrTokens(o) + rest) == ParseOrMore(o, rest)
    decreases o, 3
  {
    match o {
      case OneAnd(first) => AndComplete(first, rest);
      case OrElse(left, right) =>
        var after := [Ident("or")] + (AndTokens(right) + rest);
        OrCompleteMore(left, after);
        assert OrTokens(o) + rest == OrTokens(left) + after;
        AndComplete(right, rest);
        assert after[1..] == AndTokens(right) + rest;
    }
  }

  lemma {:induction false} OrComplete(o: OrSyntax, rest: seq<Token>)
    requires OrOk(o) && EndsOr(rest)
    ensures ParseOr(OrTokens(o) + rest) == Some((o, rest))
    decreases o, 4
  {
    OrCompleteMore(o, rest);
  }

  /** Parsing and writing are inverse: a token list parses to a tree exactly when
      it is what that tree, obeying the grammar, is written with. */
  lemma ParseIffWritten(ts: seq<Token>, o: OrSyntax)
    ensures ParseClause(ts) == Some(o) <==> OrOk(o) && ts == OrTokens(o)
  {
    if ParseClause(ts) == Some(o) {
      OrSound(ts);
      assert OrTokens(o) + [] == OrTokens(o);
    }
    if OrOk(o) && ts == OrTokens(o) {
      OrComplete(o, []);
      assert OrTokens(o) + [] == OrTokens(o);
    }
  }
}
