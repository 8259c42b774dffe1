/** What a safety CHECK clause means as written, the tree its parser makes, and
    the soundness of its canonical string and of the two-parser fallback. */
module SafetyMeaning {
  import opened Prelude
  import opened CheckLexer
  import opened CheckMeaning
  import opened CheckPrint
  import opened CheckPrintBinary
  import opened CheckLayout
  import opened CheckLayoutSound
  import opened SafetyGrammar
  import Response = ResponseMeaning

  // ----- the meaning of the text itself -----

  function NumberValue(n: NumberSyntax): nat {
    match n
    case Digits(text) => NatOf(text)
    case Bracketed(inner) => NumberValue(inner)
  }

  /** `v = n1 or v = n2 or ...` */
  function EqualsOneOf(v: Value, ns: seq<NumberSyntax>, row: Row): Truth {
    if ns == [] then False else
    Either(CompareValues("=", v, Integer(NumberValue(ns[0])), row), EqualsOneOf(v, ns[1..], row))
  }

  function EvalPrimary(p: Primary, row: Row): Truth {
    match p
    case Group(inner) => EvalOr(inner, row)
    case IsNull(name, negated) => if row.column(name).Null? != negated then True else False
    case OneOf(name, values) => EqualsOneOf(row.column(name), values, row)
    case BetweenNumbers(name, low, high) =>
      Both(CompareValues(">=", row.column(name), Integer(NumberValue(low)), row),
           CompareValues("<=", row.column(name), Integer(NumberValue(high)), row))
    case CompareName(op, name, other) => CompareValues(op, row.column(name), row.column(other), row)
    case CompareNumber(op, name, value) => CompareValues(op, row.column(name), Integer(NumberValue(value)), row)
  }

  function EvalAnd(a: AndSyntax, row: Row): Truth {
    match a
    case OnePrimary(first) => EvalPrimary(first, row)
    case AndAlso(left, right) => Both(EvalAnd(left, row), EvalPrimary(right, row))
  }

  function EvalOr(o: OrSyntax, row: Row): Truth {
    match o
    case OneAnd(first) => EvalAnd(first, row)
    case OrElse(left, right) => Either(EvalOr(left, row), EvalAnd(right, row))
  }

  // ----- the tree the parser builds -----

  function NumberOf(n: NumberSyntax): (s: Scalar)
    ensures s.Number?
  {
    match n
    case Digits(text) => Number(PlainNumber(text))
    case Bracketed(inner) => NumberOf(inner)
  }

  function NumbersOf(ns: seq<NumberSyntax>): (values: seq<Scalar>)
    ensures |values| == |ns|
  {
    if ns == [] then [] else [NumberOf(ns[0])] + NumbersOf(ns[1..])
  }

  function PrimaryTree(p: Primary): Tree {
    match p
    case Group(inner) => OrTree(inner)
    case IsNull(name, negated) => Leaf(NullTest(Column(name), negated))
    case OneOf(name, values) => Leaf(In(Column(name), NumbersOf(values)))
    case BetweenNumbers(name, low, high) => Leaf(Between(Column(name), NumberOf(low), NumberOf(high)))
    case CompareName(op, name, other) => Leaf(Compare(op, Column(name), Column(other)))
    case CompareNumber(op, name, value) => Leaf(Compare(op, Column(name), NumberOf(value)))
  }

  function AndTree(a: AndSyntax): Tree {
    match a
    case OnePrimary(first) => PrimaryTree(first)
    case AndAlso(left, right) => And([AndTree(left), PrimaryTree(right)])
  }

  function OrTree(o: OrSyntax): Tree {
    match o
    case OneAnd(first) => AndTree(first)
    case OrElse(left, right) => Or([OrTree(left), AndTree(right)])
  }

  // ----- the tree means what the text means -----

  lemma {:induction false} NumberMeaning(n: NumberSyntax, row: Row)
    ensures ScalarValue(NumberOf(n), row) == Integer(NumberValue(n))
    decreases n
  {
    if n.Bracketed? { NumberMeaning(n.inner, row); } else { PlainNumberValue(n.text); }
  }

  /** A chain of equalities may be taken from either end. */
  lemma {:induction false} AnyEqualFront(v: Value, values: seq<Scalar>, row: Row)
    requires values != []
    ensures AnyEqual(v, values, row) ==
            Either(CompareValues("=", v, ScalarValue(values[0], row), row), AnyEqual(v, values[1..], row))
    decreases |values|
  {
    hide ScalarValue;
    if |values| > 1 {
      var n := |values| - 1;
      AnyEqualFront(v, values[..n], row);
      assert values[..n][1..] == values[1..][..n - 1];
    }
  }

  lemma {:induction false} ListMeaning(v: Value, ns: seq<NumberSyntax>, row: Row)
    ensures AnyEqual(v, NumbersOf(ns), row) == EqualsOneOf(v, ns, row)
    decreases |ns|
  {
    if ns != [] {
      AnyEqualFront(v, NumbersOf(ns), row);
      NumberMeaning(ns[0], row);
      ListMeaning(v, ns[1..], row);
    }
  }

  lemma {:induction false} PrimaryMeaning(p: Primary, row: Row)
    ensures Eval(PrimaryTree(p), row) == EvalPrimary(p, row)
    decreases p
  {
    hide AnyEqual, EqualsOneOf;
    match p {
      case Group(inner) => OrMeaning(inner, row);
      case OneOf(name, values) => ListMeaning(row.column(name), values, row);
      case BetweenNumbers(_, low, high) =>
        NumberMeaning(low, row);
        NumberMeaning(high, row);
      case CompareNumber(_, _, value) => NumberMeaning(value, row);
      case _ =>
    }
  }

  lemma PairMeaning(a: Tree, b: Tree, row: Row)
    ensures Eval(And([a, b]), row) == Both(Eval(a, row), Eval(b, row))
    ensures Eval(Or([a, b]), row) == Either(Eval(a, row), Eval(b, row))
  {
    assert [a, b][1..] == [b] && [b][1..] == [];
    assert EvalAll([b], row) == Eval(b, row) && EvalAny([b], row) == Eval(b, row);
  }

  lemma {:induction false} AndMeaning(a: AndSyntax, row: Row)
    ensures Eval(AndTree(a), row) == EvalAnd(a, row)
    decreases a
  {
    hide Eval;
    match a {
      case OnePrimary(first) => PrimaryMeaning(first, row);
      case AndAlso(left, right) =>
        AndMeaning(left, row);
        PrimaryMeaning(right, row);
        PairMeaning(AndTree(left), PrimaryTree(right), row);
    }
  }

  lemma {:induction false} OrMeaning(o: OrSyntax, row: Row)
    ensures Eval(OrTree(o), row) == EvalOr(o, row)
    decreases o
  {
    hide Eval;
    match o {
      case OneAnd(first) => AndMeaning(first, row);
      case OrElse(left, right) =>
        OrMeaning(left, row);
        AndMeaning(right, row);
        PairMeaning(OrTree(left), AndTree(right), row);
    }
  }

  // ----- what the grammar accepts can be printed -----

  lemma {:induction false} NumberPlain(n: NumberSyntax)
    requires NumberOk(n)
    ensures BareWord(NumberOf(n))
    decreases n
  {
    if n.Bracketed? {
      NumberPlain(n.inner);
    } else {
      forall c | c in n.text ensures !IsStop(c) {}
      Response.TrimPlain(n.text);
    }
  }

  lemma {:induction false} NumbersPlain(ns: seq<NumberSyntax>)
    requires NumbersOk(ns)
    ensures forall v | v in NumbersOf(ns) :: v.Number? && BareWord(v)
    decreases |ns|
  {
    if ns != [] {
      NumberPlain(ns[0]);
      NumbersPlain(ns[1..]);
    }
  }

  lemma NamePlain(name: string)
    requires IsIdentifier(name) || IsComparison(name)
    ensures NoStop(name)
  {
  }

  lemma AtomPlain(p: Primary)
    requires PrimaryOk(p) && !p.Group?
    ensures Binary(PrimaryTree(p))
  {
    hide NoStop, IsIdentifier, IsComparison, NumberOk, NumberOf, NumbersOf, NumbersOk;
    NamePlain(p.name);
    match p {
      case OneOf(_, values) => NumbersPlain(values);
      case BetweenNumbers(_, low, high) =>
        NumberPlain(low);
        NumberPlain(high);
      case CompareName(op, _, other) =>
        NamePlain(op);
        NamePlain(other);
      case CompareNumber(op, _, value) =>
        NamePlain(op);
        NumberPlain(value);
      case _ =>
    }
  }

  lemma {:induction false} PrimaryBinary(p: Primary)
    requires PrimaryOk(p)
    ensures Binary(PrimaryTree(p))
    decreases p
  {
    if p.Group? { OrBinary(p.inner); } else { AtomPlain(p); }
  }

  lemma {:induction false} AndBinary(a: AndSyntax)
    requires AndOk(a)
    ensures Binary(AndTree(a))
    decreases a
  {
    hide PrimaryOk, PrimaryTree;
    match a {
      case OnePrimary(first) => PrimaryBinary(first);
      case AndAlso(left, right) =>
        AndBinary(left);
        PrimaryBinary(right);
    }
  }

  lemma {:induction false} OrBinary(o: OrSyntax)
    requires OrOk(o)
    ensures Binary(OrTree(o))
    decreases o
  {
    hide AndOk, AndTree;
    match o {
      case OneAnd(first) => AndBinary(first);
      case OrElse(left, right) =>
        OrBinary(left);
        AndBinary(right);
    }
  }

  // ----- the canonicalizer and its soundness -----

  function Parse(clause: string): Option<OrSyntax> {
    var tokens := LexBare(clause);
    if tokens.None? then None else ParseClause(tokens.value)
  }

  lemma ParsedIsBinary(clause: string)
    requires Parse(clause).Some?
    ensures Binary(OrTree(Parse(clause).value))
  {
    hide LexBare, Binary, OrTree;
    ParseIffWritten(LexBare(clause).value, Parse(clause).value);
    OrBinary(Parse(clause).value);
  }

  /** canonicalizeCheckClause. */
  function Canonical(clause: string): Option<string> {
    if Parse(clause).None? then None else
    ParsedIsBinary(clause);
    Some(PrintBinary(OrTree(Parse(clause).value)))
  }

  function Meaning(clause: string, row: Row): Truth
    requires Parse(clause).Some?
  {
    EvalOr(Parse(clause).value, row)
  }

  /** Equal canonical strings exactly for equal trees, and then equal truth values on every row. */
  lemma CanonicalIsSound(a: string, b: string, row: Row)
    requires Canonical(a).Some? && Canonical(b).Some?
    ensures Canonical(a) == Canonical(b) <==> OrTree(Parse(a).value) == OrTree(Parse(b).value)
    ensures Canonical(a) == Canonical(b) ==> Meaning(a, row) == Meaning(b, row)
  {
    hide Parse, Binary, PrintBinary, OrTree, EvalOr;
    var p, q := Parse(a).value, Parse(b).value;
    ParsedIsBinary(a);
    ParsedIsBinary(b);
    OrMeaning(p, row);
    OrMeaning(q, row);
    if Canonical(a) == Canonical(b) { PrintBinaryInjective(OrTree(p), OrTree(q)); }
  }

  /** Every layout of the tokens of a tree is read back as that tree. */
  lemma EveryLayoutIsRead(o: OrSyntax, items: seq<Placed>, tail: string)
    requires OrOk(o) && Laid(items, tail) && AllBare(items) && BareTokens(items) == OrTokens(o)
    ensures Parse(Render(items, tail)) == Some(o)
  {
    hide LexBare, OrOk, OrTokens;
    LexBareReadsLayout(items, tail);
    ParseIffWritten(BareTokens(items), o);
  }

  /** And nothing else is read: a clause parses to a tree exactly when it is a layout of
      the tokens of that tree. */
  lemma ParsesIffLaid(clause: string, o: OrSyntax)
    ensures Parse(clause) == Some(o) <==>
            OrOk(o) && exists items, tail ::
              BareLaid(items, tail) && Render(items, tail) == clause && TokenTexts(items) == OrTokens(o)
  {
    hide LexBare, BareLaid, Render, TokenTexts, OrOk, OrTokens, ParseClause;
    if LexBare(clause).Some? { ParseIffWritten(LexBare(clause).value, o); }
    if OrOk(o) {
      LexBareIffLaid(clause, OrTokens(o));
      ParseIffWritten(OrTokens(o), o);
    }
  }

  // ----- the fallback: the safety grammar first, then the response grammar -----

  /** canonicalizePlatformGenerationReceiptCheck. */
  function PlatformCanonical(clause: string): Option<string> {
    if Canonical(clause).Some? then Canonical(clause) else Response.Canonical(clause)
  }

  /** The meaning under the grammar whose string is used. */
  function PlatformMeaning(clause: string, row: Row): Truth
    requires PlatformCanonical(clause).Some?
  {
    if Canonical(clause).Some? then Meaning(clause, row) else Response.Meaning(clause, row)
  }

  lemma ImagesAreDisjoint(a: string, b: string)
    requires Canonical(a).Some? && Response.Canonical(b).Some?
    ensures Canonical(a) != Response.Canonical(b)
  {
    hide Parse, Binary, Plain, PrintThen, Print, OrTree, Response.Parse, Response.OrTree;
    ParsedIsBinary(a);
    Response.ParsedIsPlain(b);
    var t, u := OrTree(Parse(a).value), Response.OrTree(Response.Parse(b).value);
    PrintersDisjoint(t, "", u, "");
    assert Print(u) + "" == Print(u);
  }

  /** The fallback is sound too: a string of one grammar is never a string of the
      other, so equal strings come from one grammar and mean the same. */
  lemma PlatformCanonicalIsSound(a: string, b: string, row: Row)
    requires PlatformCanonical(a).Some? && PlatformCanonical(a) == PlatformCanonical(b)
    ensures PlatformMeaning(a, row) == PlatformMeaning(b, row)
    ensures Canonical(a).Some? <==> Canonical(b).Some?
  {
    hide Canonical, Response.Canonical, Meaning, Response.Meaning;
    if Canonical(a).Some? && Canonical(b).Some? { CanonicalIsSound(a, b, row); }
    if Canonical(a).None? && Canonical(b).None? { Response.CanonicalIsSound(a, b, row); }
    if Canonical(a).Some? && Canonical(b).None? { ImagesAreDisjoint(a, b); }
    if Canonical(a).None? && Canonical(b).Some? { ImagesAreDisjoint(b, a); }
  }
}
