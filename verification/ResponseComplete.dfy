/** The response canonicalizer accepts every presentation of a clause: any layout
    of its tokens, any regrouping of a chain, and every canonical tree has a text. */
module ResponseComplete {
  import opened Prelude
  import opened CheckLexer
  import opened CheckMeaning
  import opened CheckPrint
  import opened CheckLayout
  import opened CheckLayoutSound
  import opened ResponseGrammar
  import opened ResponseMeaning

  /** Any spacing, letter case, backticks and hexadecimal spelling, with or without
      a backslash before each quote, is read back as the tree that was written. */
  lemma EveryLayoutIsRead(o: OrSyntax, items: seq<Placed>, tail: string)
    requires OrOk(o) && Laid(items, tail) && Tokens(items) == OrTokens(o)
    ensures Parse(Render(items, tail)) == Some(o) && Parse(EscapeQuotes(Render(items, tail))) == Some(o)
  {
    hide Lex, Unescape, EscapeQuotes, OrOk, OrTokens;
    LayoutNoBackslash(items, tail);
    UnescapeUndoes(Render(items, tail));
    LexReadsLayout(items, tail);
    ParseIffWritten(Tokens(items), o);
  }

  /** And nothing else is read: a clause parses to a tree exactly when, its quotes
      unescaped, it is a layout of the tokens of that tree. */
  lemma ParsesIffLaid(clause: string, o: OrSyntax)
    ensures Parse(clause) == Some(o) <==>
            OrOk(o) && exists items, tail ::
              Laid(items, tail) && Render(items, tail) == Unescape(clause) && Tokens(items) == OrTokens(o)
  {
    hide Lex, Unescape, Laid, Render, Tokens, OrOk, OrTokens, ParseClause;
    var s := Unescape(clause);
    LexIffLaid(s, OrTokens(o));
    if Lex(s).Some? { ParseIffWritten(Lex(s).value, o); }
    ParseIffWritten(OrTokens(o), o);
  }

  // ----- any regrouping of one chain -----

  /** A bracketing of a list of operands; the left part of a join may be bracketed or not. */
  datatype Grouping<T> = Item(term: T) | Join(left: Grouping<T>, right: Grouping<T>, bracketed: bool)

  function Items<T>(g: Grouping<T>): (terms: seq<T>)
    ensures |terms| >= 1 && (|terms| == 1 <==> g.Item?)
  {
    match g
    case Item(term) => [term]
    case Join(left, right, _) => Items(left) + Items(right)
  }

  function BracketAnd(a: AndSyntax): NotSyntax {
    Positive(Group(OneAnd(a)))
  }

  function WriteAnd(g: Grouping<NotSyntax>): AndSyntax {
    match g
    case Item(term) => OneNot(term)
    case Join(left, right, bracketed) =>
      AndAlso(if bracketed then OneNot(BracketAnd(WriteAnd(left))) else WriteAnd(left),
              if right.Item? then right.term else BracketAnd(WriteAnd(right)))
  }

  function BracketOr(o: OrSyntax): AndSyntax {
    OneNot(Positive(Group(o)))
  }

  function WriteOr(g: Grouping<AndSyntax>): OrSyntax {
    match g
    case Item(term) => OneAnd(term)
    case Join(left, right, bracketed) =>
      OrElse(if bracketed then OneAnd(BracketOr(WriteOr(left))) else WriteOr(left),
             if right.Item? then right.term else BracketOr(WriteOr(right)))
  }

  function AllConjuncts(terms: seq<NotSyntax>): seq<Tree> {
    if terms == [] then [] else Conjuncts(NotTree(terms[0])) + AllConjuncts(terms[1..])
  }

  function AllDisjuncts(terms: seq<AndSyntax>): seq<Tree> {
    if terms == [] then [] else Disjuncts(AndTree(terms[0])) + AllDisjuncts(terms[1..])
  }

  lemma {:induction false} AllConjunctsConcat(a: seq<NotSyntax>, b: seq<NotSyntax>)
    ensures AllConjuncts(a + b) == AllConjuncts(a) + AllConjuncts(b)
    decreases |a|
  {
    if a == [] {
      assert a + b == b;
    } else {
      assert (a + b)[1..] == a[1..] + b;
      AllConjunctsConcat(a[1..], b);
    }
  }

  lemma {:induction false} AllDisjunctsConcat(a: seq<AndSyntax>, b: seq<AndSyntax>)
    ensures AllDisjuncts(a + b) == AllDisjuncts(a) + AllDisjuncts(b)
    decreases |a|
  {
    if a == [] {
      assert a + b == b;
    } else {
      assert (a + b)[1..] == a[1..] + b;
      AllDisjunctsConcat(a[1..], b);
    }
  }

  lemma AndBracketsDropped(a: AndSyntax)
    ensures NotTree(BracketAnd(a)) == AndTree(a) && NotOk(BracketAnd(a)) == AndOk(a)
  {
    assert PrimaryTree(Group(OneAnd(a))) == OrTree(OneAnd(a)) == AndTree(a);
    assert PrimaryOk(Group(OneAnd(a))) == OrOk(OneAnd(a)) == AndOk(a);
  }

  lemma OrBracketsDropped(o: OrSyntax)
    ensures AndTree(BracketOr(o)) == OrTree(o) && AndOk(BracketOr(o)) == OrOk(o)
  {
    assert NotTree(Positive(Group(o))) == PrimaryTree(Group(o)) == OrTree(o);
    assert NotOk(Positive(Group(o))) == PrimaryOk(Group(o)) == OrOk(o);
  }

  lemma {:induction false} GroupedAnd(g: Grouping<NotSyntax>)
    ensures Conjuncts(AndTree(WriteAnd(g))) == AllConjuncts(Items(g))
    ensures g.Join? ==> AndTree(WriteAnd(g)).And?
    decreases g
  {
    match g {
      case Item(term) => assert [term][1..] == [];
      case Join(left, right, _) =>
        GroupedAnd(left);
        GroupedAnd(right);
        AndBracketsDropped(WriteAnd(left));
        AndBracketsDropped(WriteAnd(right));
        assert AndTree(OneNot(BracketAnd(WriteAnd(left)))) == AndTree(WriteAnd(left));
        assert right.Item? ==> AndTree(WriteAnd(right)) == NotTree(right.term);
        AllConjunctsConcat(Items(left), Items(right));
    }
  }

  lemma {:induction false} GroupedOr(g: Grouping<AndSyntax>)
    ensures Disjuncts(OrTree(WriteOr(g))) == AllDisjuncts(Items(g))
    ensures g.Join? ==> OrTree(WriteOr(g)).Or?
    decreases g
  {
    match g {
      case Item(term) => assert [term][1..] == [];
      case Join(left, right, _) =>
        GroupedOr(left);
        GroupedOr(right);
        OrBracketsDropped(WriteOr(left));
        OrBracketsDropped(WriteOr(right));
        assert OrTree(OneAnd(BracketOr(WriteOr(left)))) == OrTree(WriteOr(left));
        assert right.Item? ==> OrTree(WriteOr(right)) == AndTree(right.term);
        AllDisjunctsConcat(Items(left), Items(right));
    }
  }

  /** Two bracketings of one AND chain make the same tree, and so do two of one
      OR chain; the canonical string depends on the operands and their order only. */
  lemma RegroupingAnd(g: Grouping<NotSyntax>, h: Grouping<NotSyntax>)
    requires Items(g) == Items(h)
    ensures AndTree(WriteAnd(g)) == AndTree(WriteAnd(h))
  {
    GroupedAnd(g);
    GroupedAnd(h);
    if g.Item? { assert g.term == Items(g)[0] && h.term == Items(h)[0]; }
  }

  lemma RegroupingOr(g: Grouping<AndSyntax>, h: Grouping<AndSyntax>)
    requires Items(g) == Items(h)
    ensures OrTree(WriteOr(g)) == OrTree(WriteOr(h))
  {
    GroupedOr(g);
    GroupedOr(h);
    if g.Item? { assert g.term == Items(g)[0] && h.term == Items(h)[0]; }
  }

  // ----- every canonical tree is the tree of some clause -----

  /** Flattened trees: chains have two operands or more and no operand that is
      itself a chain of the same kind; no IN lists, no number with leading zeros,
      and nothing the tokenizer could not have read. */
  predicate Flat(t: Tree)
    decreases t, 0
  {
    match t
    case Leaf(atom) => FlatAtom(atom)
    case Not(child) => Flat(child)
    case And(children) => |children| >= 2 && FlatList(children) && forall c | c in children :: !c.And?
    case Or(children) => |children| >= 2 && FlatList(children) && forall c | c in children :: !c.Or?
  }

  predicate FlatList(ts: seq<Tree>)
    decreases ts, 1
  {
    forall t | t in ts :: Flat(t)
  }

  predicate FlatScalar(s: Scalar) {
    match s
    case Column(name) => IsName(name) && !IsCharset(name)
    case Number(digits) => digits != "" && AllIn(digits, DigitClass) && PlainNumber(digits) == digits
    case HexLiteral(digits) => digits != "" && |digits| % 2 == 0 && AllIn(digits, HexClass) && Lower(digits) == digits
    case StringLiteral(text) => forall c | c in text :: 0x20 <= c as int <= 0x7E && c != '\\'
    case Length(name) => IsName(name) && name != "_utf8mb4"
  }

  predicate FlatAtom(a: Atom) {
    match a
    case NullTest(operand, _) => FlatScalar(operand) && operand != Column("not")
    case Between(operand, low, high) =>
      FlatScalar(operand) && operand != Column("not") && FlatScalar(low) && FlatScalar(high)
    case Compare(op, left, right) => IsComparison(op) && FlatScalar(left) && left != Column("not") && FlatScalar(right)
    case In(_, _) => false
  }

  function UnparseScalar(s: Scalar): ScalarSyntax {
    match s
    case Column(name) => Name(name)
    case Number(digits) => NumberToken(digits)
    case HexLiteral(digits) => HexToken(digits)
    case StringLiteral(text) => StringToken(text)
    case Length(name) => LengthCall("length", name)
  }

  function UnparsePrimary(t: Tree): Primary
    requires Flat(t)
    decreases t, 1
  {
    match t
    case Leaf(NullTest(operand, negated)) => IsNull(UnparseScalar(operand), negated)
    case Leaf(Between(operand, low, high)) =>
      BetweenAnd(UnparseScalar(operand), UnparseScalar(low), UnparseScalar(high))
    case Leaf(Compare(op, left, right)) => Comparison(op, UnparseScalar(left), UnparseScalar(right))
    case Not(child) => Group(OneAnd(OneNot(Negation(Positive(UnparsePrimary(child))))))
    case And(children) => Group(OneAnd(UnparseAnd(children)))
    case Or(children) => Group(UnparseOr(children))
  }

  function UnparseAnd(ts: seq<Tree>): AndSyntax
    requires ts != [] && FlatList(ts)
    decreases ts, 2
  {
    var last := Positive(UnparsePrimary(ts[|ts| - 1]));
    if |ts| == 1 then OneNot(last) else AndAlso(UnparseAnd(ts[..|ts| - 1]), last)
  }

  function UnparseOr(ts: seq<Tree>): OrSyntax
    requires ts != [] && FlatList(ts)
    decreases ts, 2
  {
    var last := OneNot(Positive(UnparsePrimary(ts[|ts| - 1])));
    if |ts| == 1 then OneAnd(last) else OrElse(UnparseOr(ts[..|ts| - 1]), last)
  }

  lemma {:induction false} UnparsePrimaryTree(t: Tree)
    requires Flat(t)
    ensures PrimaryTree(UnparsePrimary(t)) == t && PrimaryOk(UnparsePrimary(t))
    decreases t, 1
  {
    match t {
      case Leaf(_) => UnparseAtomTree(t);
      case Not(child) =>
        UnparsePrimaryTree(child);
        var term := Negation(Positive(UnparsePrimary(child)));
        assert NotTree(term) == Not(child) && NotOk(term);
        assert OrTree(OneAnd(OneNot(term))) == AndTree(OneNot(term)) &&
               OrOk(OneAnd(OneNot(term))) == AndOk(OneNot(term));
      case And(children) => UnparseAndTree(children);
      case Or(children) => UnparseOrTree(children);
    }
  }

  lemma UnparseAtomTree(t: Tree)
    requires Flat(t) && t.Leaf?
    ensures PrimaryTree(UnparsePrimary(t)) == t && PrimaryOk(UnparsePrimary(t))
  {
    hide FlatScalar, ScalarOf, ScalarOk, UnparseScalar;
    match t.atom {
      case NullTest(operand, _) => UnparseScalarTree(operand);
      case Between(operand, low, high) =>
        UnparseScalarTree(operand);
        UnparseScalarTree(low);
        UnparseScalarTree(high);
      case Compare(_, left, right) =>
        UnparseScalarTree(left);
        UnparseScalarTree(right);
    }
  }

  lemma UnparseScalarTree(s: Scalar)
    requires FlatScalar(s)
    ensures ScalarOf(UnparseScalar(s)) == s && ScalarOk(UnparseScalar(s)) && !UnparseScalar(s).Parens?
    ensures UnparseScalar(s) == Name("not") ==> s == Column("not")
  {
  }

  lemma {:induction false} UnparseAndTree(ts: seq<Tree>)
    requires ts != [] && FlatList(ts) && forall t | t in ts :: !t.And?
    ensures AndTree(UnparseAnd(ts)) == (if |ts| == 1 then ts[0] else And(ts)) && AndOk(UnparseAnd(ts))
    decreases ts, 2
  {
    UnparsePrimaryTree(ts[|ts| - 1]);
    if |ts| > 1 {
      hide PrimaryTree, UnparsePrimary, Flat;
      UnparseAndTree(ts[..|ts| - 1]);
      assert Conjuncts(AndTree(UnparseAnd(ts[..|ts| - 1]))) == ts[..|ts| - 1];
      assert ts == ts[..|ts| - 1] + [ts[|ts| - 1]];
    }
  }

  lemma {:induction false} UnparseOrTree(ts: seq<Tree>)
    requires ts != [] && FlatList(ts) && forall t | t in ts :: !t.Or?
    ensures OrTree(UnparseOr(ts)) == (if |ts| == 1 then ts[0] else Or(ts)) && OrOk(UnparseOr(ts))
    decreases ts, 2
  {
    UnparsePrimaryTree(ts[|ts| - 1]);
    var last := OneNot(Positive(UnparsePrimary(ts[|ts| - 1])));
    assert NotTree(last.first) == ts[|ts| - 1] && NotOk(last.first);
    assert AndTree(last) == ts[|ts| - 1] && AndOk(last);
    if |ts| > 1 {
      hide PrimaryTree, UnparsePrimary, Flat;
      UnparseOrTree(ts[..|ts| - 1]);
      assert Disjuncts(OrTree(UnparseOr(ts[..|ts| - 1]))) == ts[..|ts| - 1];
      assert ts == ts[..|ts| - 1] + [ts[|ts| - 1]];
    }
  }

  // ----- a text for every flattened tree -----

  predicate Writable(t: Token) {
    match t
    case Ident(text) => IsName(text)
    case Hex(text) => FlatScalar(HexLiteral(text))
    case Num(text) => text != "" && AllIn(text, DigitClass)
    case Str(text) => FlatScalar(StringLiteral(text))
    case Op(text) => IsComparison(text)
    case _ => true
  }

  predicate AllWritable(ts: seq<Token>) {
    forall t | t in ts :: Writable(t)
  }

  function LexemeOf(t: Token): Lexeme {
    match t
    case Ident(text) => Word(text)
    case Hex(text) => HexQuoted('x', text)
    case Num(text) => Digits(text)
    case Str(text) => Quoted(text)
    case Op(text) => Operator(text)
    case LParen => Punct('(')
    case RParen => Punct(')')
    case Comma => Punct(',')
  }

  /** The tokens with one space before each. */
  function Spaced(ts: seq<Token>): seq<Placed> {
    if ts == [] then [] else [Placed(" ", LexemeOf(ts[0]))] + Spaced(ts[1..])
  }

  lemma LexemeIsRead(t: Token, rest: string)
    requires Writable(t) && (rest == "" || rest[0] == ' ')
    ensures WellFormed(LexemeOf(t)) && TokenOf(LexemeOf(t)) == t && Clear(LexemeOf(t), rest)
  {
  }

  lemma {:induction false} SpacedIsLaid(ts: seq<Token>)
    requires AllWritable(ts)
    ensures Laid(Spaced(ts), "") && Tokens(Spaced(ts)) == ts
    ensures Render(Spaced(ts), "") == "" || Render(Spaced(ts), "")[0] == ' '
    decreases |ts|
  {
    if ts != [] {
      hide Clear, WellFormed, Writable, LexemeOf;
      SpacedIsLaid(ts[1..]);
      LexemeIsRead(ts[0], Render(Spaced(ts[1..]), ""));
      assert ts == [ts[0]] + ts[1..];
    }
  }

  lemma ScalarWritable(s: Scalar)
    requires FlatScalar(s)
    ensures AllWritable(ScalarTokens(UnparseScalar(s)))
  {
  }

  lemma AtomWritable(t: Tree)
    requires t.Leaf? && Flat(t)
    ensures AllWritable(PrimaryTokens(UnparsePrimary(t)))
  {
    hide FlatScalar, ScalarTokens, UnparseScalar;
    match t.atom {
      case NullTest(operand, _) => ScalarWritable(operand);
      case Between(operand, low, high) =>
        ScalarWritable(operand);
        ScalarWritable(low);
        ScalarWritable(high);
      case Compare(_, left, right) =>
        ScalarWritable(left);
        ScalarWritable(right);
    }
  }

  lemma {:induction false} TreeWritable(t: Tree)
    requires Flat(t)
    ensures AllWritable(PrimaryTokens(UnparsePrimary(t)))
    decreases t, 1
  {
    hide Writable, FlatAtom;
    match t {
      case Leaf(_) => AtomWritable(t);
      case Not(child) =>
        TreeWritable(child);
        NotWritable(UnparsePrimary(child));
      case And(children) =>
        AndWritable(children);
        assert OrTokens(OneAnd(UnparseAnd(children))) == AndTokens(UnparseAnd(children));
        BracketedWritable(OneAnd(UnparseAnd(children)));
      case Or(children) =>
        OrWritable(children);
        BracketedWritable(UnparseOr(children));
    }
  }

  lemma BracketedWritable(o: OrSyntax)
    requires AllWritable(OrTokens(o))
    ensures AllWritable(PrimaryTokens(Group(o)))
  {
  }

  lemma NotWritable(p: Primary)
    requires AllWritable(PrimaryTokens(p))
    ensures AllWritable(PrimaryTokens(Group(OneAnd(OneNot(Negation(Positive(p)))))))
  {
    var n := Negation(Positive(p));
    assert NotTokens(n) == [Ident("not")] + PrimaryTokens(p);
    assert OrTokens(OneAnd(OneNot(n))) == AndTokens(OneNot(n)) == NotTokens(n);
  }

  lemma {:induction false} AndWritable(ts: seq<Tree>)
    requires ts != [] && FlatList(ts)
    ensures AllWritable(AndTokens(UnparseAnd(ts)))
    decreases ts, 2
  {
    TreeWritable(ts[|ts| - 1]);
    var last := Positive(UnparsePrimary(ts[|ts| - 1]));
    assert NotTokens(last) == PrimaryTokens(last.primary);
    if |ts| > 1 {
      hide Writable, UnparsePrimary, PrimaryTokens, Flat;
      AndWritable(ts[..|ts| - 1]);
      assert Writable(Ident("and")) by { KeywordsWritable(); }
    }
  }

  lemma KeywordsWritable()
    ensures Writable(Ident("and")) && Writable(Ident("or"))
  {
  }

  lemma {:induction false} OrWritable(ts: seq<Tree>)
    requires ts != [] && FlatList(ts)
    ensures AllWritable(OrTokens(UnparseOr(ts)))
    decreases ts, 2
  {
    TreeWritable(ts[|ts| - 1]);
    var last := OneNot(Positive(UnparsePrimary(ts[|ts| - 1])));
    assert AndTokens(last) == NotTokens(last.first) == PrimaryTokens(last.first.primary);
    if |ts| > 1 {
      hide Writable, UnparsePrimary, PrimaryTokens, Flat;
      OrWritable(ts[..|ts| - 1]);
      assert Writable(Ident("or")) by { KeywordsWritable(); }
    }
  }

  /** A clause that says t. */
  function Unparse(t: Tree): string
    requires Flat(t)
  {
    Render(Spaced(PrimaryTokens(UnparsePrimary(t))), "")
  }

  /** Printing a tree as a clause and parsing it again gives the tree back. */
  lemma ParseUndoesUnparse(t: Tree)
    requires Flat(t)
    ensures Parse(Unparse(t)).Some? && OrTree(Parse(Unparse(t)).value) == t
  {
    var p := UnparsePrimary(t);
    var o := OneAnd(OneNot(Positive(p)));
    assert AndTokens(o.first) == NotTokens(o.first.first) == PrimaryTokens(p);
    assert AndTree(o.first) == NotTree(o.first.first) == PrimaryTree(p);
    assert AndOk(o.first) == NotOk(o.first.first) == PrimaryOk(p);
    hide Parse, Flat, PrimaryTree, UnparsePrimary, PrimaryTokens, PrimaryOk, Laid, Spaced, Tokens;
    UnparsePrimaryTree(t);
    TreeWritable(t);
    SpacedIsLaid(PrimaryTokens(p));
    EveryLayoutIsRead(o, Spaced(PrimaryTokens(p)), "");
  }
}
