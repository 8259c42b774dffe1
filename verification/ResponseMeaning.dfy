/** What a response CHECK clause means as written, the tree the parser makes of
    it, and the proof that the tree has the same meaning. Flattening chains,
    dropping brackets, leading zeros and charset introducers changes nothing. */
module ResponseMeaning {
  import opened Prelude
  import opened CheckLexer
  import opened CheckMeaning
  import opened CheckPrint
  import opened ResponseGrammar

  // ----- the meaning of the text itself -----

  function SyntaxValue(s: ScalarSyntax, row: Row): Value {
    match s
    case Parens(inner) => SyntaxValue(inner, row)
    case Name(text) => row.column(text)
    case NumberToken(text) => Integer(NatOf(text))
    case HexToken(text) => Bytes(text)
    case StringToken(text) => Chars(text)
    case Introduced(_, text) => Chars(text)
    case LengthCall(_, argument) => if row.column(argument).Null? then Null else Integer(row.size(row.column(argument)))
  }

  function EvalPrimary(p: Primary, row: Row): Truth {
    match p
    case Group(inner) => EvalOr(inner, row)
    case IsNull(operand, negated) => if SyntaxValue(operand, row).Null? != negated then True else False
    case BetweenAnd(operand, low, high) =>
      var v := SyntaxValue(operand, row);
      Both(CompareValues(">=", v, SyntaxValue(low, row), row), CompareValues("<=", v, SyntaxValue(high, row), row))
    case Comparison(op, left, right) => CompareValues(op, SyntaxValue(left, row), SyntaxValue(right, row), row)
  }

  function EvalNot(n: NotSyntax, row: Row): Truth {
    match n
    case Negation(inner) => Negated(EvalNot(inner, row))
    case Positive(primary) => EvalPrimary(primary, row)
  }

  function EvalAnd(a: AndSyntax, row: Row): Truth {
    match a
    case OneNot(first) => EvalNot(first, row)
    case AndAlso(left, right) => Both(EvalAnd(left, row), EvalNot(right, row))
  }

  function EvalOr(o: OrSyntax, row: Row): Truth {
    match o
    case OneAnd(first) => EvalAnd(first, row)
    case OrElse(left, right) => Either(EvalOr(left, row), EvalAnd(right, row))
  }

  // ----- the tree the parser builds -----

  function ScalarOf(s: ScalarSyntax): Scalar {
    match s
    case Parens(inner) => ScalarOf(inner)
    case Name(text) => Column(text)
    case NumberToken(text) => Number(PlainNumber(text))
    case HexToken(text) => HexLiteral(text)
    case StringToken(text) => StringLiteral(text)
    case Introduced(_, text) => StringLiteral(text)
    case LengthCall(_, argument) => Length(argument)
  }

  function Conjuncts(t: Tree): seq<Tree> {
    if t.And? then t.children else [t]
  }

  function Disjuncts(t: Tree): seq<Tree> {
    if t.Or? then t.children else [t]
  }

  function MergeAnd(left: Tree, right: Tree): Tree {
    And(Conjuncts(left) + Conjuncts(right))
  }

  function MergeOr(left: Tree, right: Tree): Tree {
    Or(Disjuncts(left) + Disjuncts(right))
  }

  function PrimaryTree(p: Primary): Tree {
    match p
    case Group(inner) => OrTree(inner)
    case IsNull(operand, negated) => Leaf(NullTest(ScalarOf(operand), negated))
    case BetweenAnd(operand, low, high) => Leaf(Between(ScalarOf(operand), ScalarOf(low), ScalarOf(high)))
    case Comparison(op, left, right) => Leaf(Compare(op, ScalarOf(left), ScalarOf(right)))
  }

  function NotTree(n: NotSyntax): Tree {
    match n
    case Negation(inner) => Not(NotTree(inner))
    case Positive(primary) => PrimaryTree(primary)
  }

  function AndTree(a: AndSyntax): Tree {
    match a
    case OneNot(first) => NotTree(first)
    case AndAlso(left, right) => MergeAnd(AndTree(left), NotTree(right))
  }

  function OrTree(o: OrSyntax): Tree {
    match o
    case OneAnd(first) => AndTree(first)
    case OrElse(left, right) => MergeOr(OrTree(left), AndTree(right))
  }

  // ----- the tree means what the text means -----

  lemma {:induction false} ScalarMeaning(s: ScalarSyntax, row: Row)
    ensures ScalarValue(ScalarOf(s), row) == SyntaxValue(s, row)
    decreases s
  {
    if s.Parens? { ScalarMeaning(s.inner, row); }
    if s.NumberToken? { PlainNumberValue(s.text); }
  }

  lemma ConjunctsMeaning(t: Tree, row: Row)
    ensures EvalAll(Conjuncts(t), row) == Eval(t, row)
  {
    if !t.And? { assert [t][1..] == []; }
  }

  lemma DisjunctsMeaning(t: Tree, row: Row)
    ensures EvalAny(Disjuncts(t), row) == Eval(t, row)
  {
    if !t.Or? { assert [t][1..] == []; }
  }

  /** Flattening one chain into another keeps the truth value, NULLs included. */
  lemma MergeMeaning(left: Tree, right: Tree, row: Row)
    ensures Eval(MergeAnd(left, right), row) == Both(Eval(left, row), Eval(right, row))
    ensures Eval(MergeOr(left, right), row) == Either(Eval(left, row), Eval(right, row))
  {
    hide Conjuncts, Disjuncts, EvalAll, EvalAny, Both, Either;
    ConjunctsMeaning(left, row);
    ConjunctsMeaning(right, row);
    EvalAllConcat(Conjuncts(left), Conjuncts(right), row);
    DisjunctsMeaning(left, row);
    DisjunctsMeaning(right, row);
    EvalAnyConcat(Disjuncts(left), Disjuncts(right), row);
  }

  lemma {:induction false} PrimaryMeaning(p: Primary, row: Row)
    ensures Eval(PrimaryTree(p), row) == EvalPrimary(p, row)
    decreases p
  {
    match p {
      case Group(inner) => OrMeaning(inner, row);
      case IsNull(operand, _) => ScalarMeaning(operand, row);
      case BetweenAnd(operand, low, high) =>
        ScalarMeaning(operand, row);
        ScalarMeaning(low, row);
        ScalarMeaning(high, row);
      case Comparison(_, left, right) =>
        ScalarMeaning(left, row);
        ScalarMeaning(right, row);
    }
  }

  lemma {:induction false} NotMeaning(n: NotSyntax, row: Row)
    ensures Eval(NotTree(n), row) == EvalNot(n, row)
    decreases n
  {
    match n {
      case Negation(inner) => NotMeaning(inner, row);
      case Positive(primary) => PrimaryMeaning(primary, row);
    }
  }

  lemma {:induction false} AndMeaning(a: AndSyntax, row: Row)
    ensures Eval(AndTree(a), row) == EvalAnd(a, row)
    decreases a
  {
    match a {
      case OneNot(first) => NotMeaning(first, row);
      case AndAlso(left, right) =>
        AndMeaning(left, row);
        NotMeaning(right, row);
        MergeMeaning(AndTree(left), NotTree(right), row);
    }
  }

  /** The tree of a clause has the clause's truth value on every row. */
  lemma {:induction false} OrMeaning(o: OrSyntax, row: Row)
    ensures Eval(OrTree(o), row) == EvalOr(o, row)
    decreases o
  {
    match o {
      case OneAnd(first) => AndMeaning(first, row);
      case OrElse(left, right) =>
        OrMeaning(left, row);
        AndMeaning(right, row);
        MergeMeaning(OrTree(left), AndTree(right), row);
    }
  }

  // ----- the names the tokenizer makes hold no bracket and no comma -----

  predicate PlainToken(t: Token) {
    match t
    case Ident(text) => NoStop(text)
    case Hex(text) => NoStop(text)
    case Num(text) => NoStop(text)
    case Op(text) => NoStop(text)
    case _ => true
  }

  predicate PlainTokens(ts: seq<Token>) {
    forall t | t in ts :: PlainToken(t)
  }

  lemma PlainParts(a: seq<Token>, b: seq<Token>)
    requires PlainTokens(a + b)
    ensures PlainTokens(a) && PlainTokens(b)
  {
    forall t | t in a ensures PlainToken(t) { assert t in a + b; }
    forall t | t in b ensures PlainToken(t) { assert t in a + b; }
  }

  lemma LowerPlain(s: string)
    requires forall c | c in s :: IsWordChar(c)
    ensures NoStop(Lower(s))
  {
    forall c | c in Lower(s) ensures !IsStop(c) {
      var i :| 0 <= i < |s| && Lower(s)[i] == c;
      assert s[i] in s;
    }
  }

  lemma TickedPlain(s: string)
    requires s != "" && LexTicked(s).Some?
    ensures NoStop(LexTicked(s).value.0)
  {
    LowerPlain(s[1..1 + Span(s[1..], NotTick)]);
  }

  lemma RunPlain(s: string, k: Class)
    requires s != "" && IsWordChar(s[0]) && (k == WordClass || k == DigitClass)
    ensures forall c | c in s[..LexRun(s, k)] :: IsWordChar(c)
    ensures NoStop(s[..LexRun(s, k)]) && NoStop(Lower(s[..LexRun(s, k)]))
  {
    forall c | c in s[..LexRun(s, k)] ensures IsWordChar(c) && !IsStop(c) {
      var i :| 0 <= i < LexRun(s, k) && s[i] == c;
      if i > 0 { assert s[1..][i - 1] == c; }
    }
    LowerPlain(s[..LexRun(s, k)]);
  }

  lemma HexPlainToken(s: string, quoted: bool)
    requires |s| >= 2 && LexHex(s, quoted).Some?
    ensures PlainToken(LexHex(s, quoted).value.0)
  {
    var n := Span(s[2..], HexClass);
    forall c | c in s[2..2 + n] ensures IsWordChar(c) {
      var i :| 0 <= i < n && s[2..][i] == c;
    }
    LowerPlain(s[2..2 + n]);
  }

  lemma OnePlain(s: string)
    requires s != "" && LexOne(s).Some?
    ensures PlainToken(LexOne(s).value.0)
  {
    hide LexQuote, LexTicked, LexHex, LexRun, Lower;
    if s[0] == '`' { TickedPlain(s); }
    if (s[0] == 'x' || s[0] == 'X') && |s| > 1 && s[1] == '\'' { HexPlainToken(s, true); }
    if s[0] == '0' && |s| > 2 && (s[1] == 'x' || s[1] == 'X') { HexPlainToken(s, false); }
    if IsWordStart(s[0]) { RunPlain(s, WordClass); }
    if IsDigit(s[0]) { RunPlain(s, DigitClass); }
  }

  lemma {:induction false} LexPlain(s: string)
    requires Lex(s).Some?
    ensures PlainTokens(Lex(s).value)
    decreases |s|
  {
    hide LexOne, PlainToken;
    if s != "" {
      if IsSpace(s[0]) {
        LexPlain(s[1..]);
      } else {
        OnePlain(s);
        LexPlain(s[LexOne(s).value.1..]);
      }
    }
  }

  lemma {:induction false} TrimPlain(digits: string)
    requires NoStop(digits)
    ensures NoStop(PlainNumber(digits)) && NoStop(TrimZeros(digits))
    decreases |digits|
  {
    if digits != "" && digits[0] == '0' {
      forall c | c in digits[1..] ensures c in digits {}
      TrimPlain(digits[1..]);
    }
  }

  lemma {:induction false} ScalarIsPlain(s: ScalarSyntax)
    requires PlainTokens(ScalarTokens(s))
    ensures PlainScalar(ScalarOf(s))
    decreases s
  {
    hide PlainToken;
    match s {
      case Parens(inner) =>
        PlainParts([LParen] + ScalarTokens(inner), [RParen]);
        PlainParts([LParen], ScalarTokens(inner));
        ScalarIsPlain(inner);
      case _ => SimpleScalarIsPlain(s);
    }
  }

  lemma SimpleScalarIsPlain(s: ScalarSyntax)
    requires !s.Parens? && PlainTokens(ScalarTokens(s))
    ensures PlainScalar(ScalarOf(s))
  {
    assert PlainToken(ScalarTokens(s)[0]);
    if s.NumberToken? { TrimPlain(s.text); }
    if s.LengthCall? { assert PlainToken(ScalarTokens(s)[2]); }
  }

  lemma {:induction false} PrimaryIsPlain(p: Primary)
    requires PlainTokens(PrimaryTokens(p))
    ensures Plain(PrimaryTree(p))
    decreases p
  {
    hide PlainTokens, ScalarTokens, PlainScalar, ScalarOf;
    match p {
      case Group(inner) =>
        PlainParts([LParen] + OrTokens(inner), [RParen]);
        PlainParts([LParen], OrTokens(inner));
        OrIsPlain(inner);
      case IsNull(operand, negated) =>
        var words := if negated then [Ident("is"), Ident("not"), Ident("null")] else [Ident("is"), Ident("null")];
        PlainParts(ScalarTokens(operand), words);
        ScalarIsPlain(operand);
      case BetweenAnd(operand, low, high) =>
        var last := [Ident("and")] + ScalarTokens(high);
        PlainParts(ScalarTokens(operand), [Ident("between")] + (ScalarTokens(low) + last));
        PlainParts([Ident("between")], ScalarTokens(low) + last);
        PlainParts(ScalarTokens(low), last);
        PlainParts([Ident("and")], ScalarTokens(high));
        ScalarIsPlain(operand);
        ScalarIsPlain(low);
        ScalarIsPlain(high);
      case Comparison(op, left, right) =>
        PlainParts(ScalarTokens(left), [Op(op)] + ScalarTokens(right));
        PlainParts([Op(op)], ScalarTokens(right));
        ScalarIsPlain(left);
        ScalarIsPlain(right);
        OpIsPlain(op);
    }
  }

  lemma OpIsPlain(op: string)
    requires PlainTokens([Op(op)])
    ensures NoStop(op)
  {
    assert PlainToken([Op(op)][0]);
  }

  lemma {:induction false} NotIsPlain(n: NotSyntax)
    requires PlainTokens(NotTokens(n))
    ensures Plain(NotTree(n))
    decreases n
  {
    hide PlainTokens, PrimaryTokens;
    match n {
      case Negation(inner) =>
        PlainParts([Ident("not")], NotTokens(inner));
        NotIsPlain(inner);
      case Positive(primary) => PrimaryIsPlain(primary);
    }
  }

  lemma MergePlain(left: Tree, right: Tree)
    requires Plain(left) && Plain(right)
    ensures Plain(MergeAnd(left, right)) && Plain(MergeOr(left, right))
  {
  }

  lemma {:induction false} AndIsPlain(a: AndSyntax)
    requires PlainTokens(AndTokens(a))
    ensures Plain(AndTree(a))
    decreases a
  {
    hide PlainTokens, NotTokens, Plain;
    match a {
      case OneNot(first) => NotIsPlain(first);
      case AndAlso(left, right) =>
        PlainParts(AndTokens(left), [Ident("and")] + NotTokens(right));
        PlainParts([Ident("and")], NotTokens(right));
        AndIsPlain(left);
        NotIsPlain(right);
        MergePlain(AndTree(left), NotTree(right));
    }
  }

  lemma {:induction false} OrIsPlain(o: OrSyntax)
    requires PlainTokens(OrTokens(o))
    ensures Plain(OrTree(o))
    decreases o
  {
    hide PlainTokens, AndTokens, Plain;
    match o {
      case OneAnd(first) => AndIsPlain(first);
      case OrElse(left, right) =>
        PlainParts(OrTokens(left), [Ident("or")] + AndTokens(right));
        PlainParts([Ident("or")], AndTokens(right));
        OrIsPlain(left);
        AndIsPlain(right);
        MergePlain(OrTree(left), AndTree(right));
    }
  }

  // ----- the canonicalizer and its soundness -----

  /** The clause as the grammar reads it. */
  function Parse(clause: string): Option<OrSyntax> {
    var tokens := Lex(Unescape(clause));
    if tokens.None? then None else ParseClause(tokens.value)
  }

  lemma ParsedIsPlain(clause: string)
    requires Parse(clause).Some?
    ensures Plain(OrTree(Parse(clause).value))
  {
    hide Lex, Plain, OrTree;
    var tokens := Lex(Unescape(clause)).value;
    LexPlain(Unescape(clause));
    ParseIffWritten(tokens, Parse(clause).value);
    OrIsPlain(Parse(clause).value);
  }

  /** canonicalizeAdminOperationResponseCheck. */
  function Canonical(clause: string): Option<string> {
    if Parse(clause).None? then None else
    ParsedIsPlain(clause);
    Some(Print(OrTree(Parse(clause).value)))
  }

  /** What an accepted clause says of a row. */
  function Meaning(clause: string, row: Row): Truth
    requires Parse(clause).Some?
  {
    EvalOr(Parse(clause).value, row)
  }

  /** Two clauses get the same canonical string exactly when they parse to the
      same tree, and then they agree on every row, NULLs included. */
  lemma CanonicalIsSound(a: string, b: string, row: Row)
    requires Canonical(a).Some? && Canonical(b).Some?
    ensures Canonical(a) == Canonical(b) <==> OrTree(Parse(a).value) == OrTree(Parse(b).value)
    ensures Canonical(a) == Canonical(b) ==> Meaning(a, row) == Meaning(b, row)
  {
    hide Parse, Plain, Print, OrTree, EvalOr;
    var p, q := Parse(a).value, Parse(b).value;
    ParsedIsPlain(a);
    ParsedIsPlain(b);
    OrMeaning(p, row);
    OrMeaning(q, row);
    if Canonical(a) == Canonical(b) { PrintInjective(OrTree(p), OrTree(q)); }
  }
}
