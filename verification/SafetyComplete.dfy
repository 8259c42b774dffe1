/** Which trees safety clauses have: every binary tree over lower-case names and numbers
    without leading zeros is read back from the clause written for it, and no clause
    has any other. */
module SafetyComplete {
  import opened Prelude
  import opened CheckLexer
  import opened CheckMeaning
  import opened CheckPrint
  import opened CheckPrintBinary
  import opened CheckLayout
  import opened SafetyGrammar
  import opened SafetyMeaning

  // ----- the trees -----

  predicate WrittenName(s: Scalar) {
    s.Column? && IsName(s.name)
  }

  predicate WrittenNumber(s: Scalar) {
    s.Number? && IsNumber(s.digits) && PlainNumber(s.digits) == s.digits
  }

  predicate WrittenNumbers(values: seq<Scalar>) {
    forall v | v in values :: v.Number? && WrittenNumber(v)
  }

  predicate WrittenAtom(a: Atom) {
    match a
    case NullTest(operand, _) => WrittenName(operand)
    case Between(operand, low, high) => WrittenName(operand) && WrittenNumber(low) && WrittenNumber(high)
    case Compare(op, left, right) =>
      IsComparison(op) && WrittenName(left) && (WrittenName(right) || WrittenNumber(right))
    case In(operand, values) => WrittenName(operand) && values != [] && WrittenNumbers(values)
  }

  predicate Written(t: Tree) {
    match t
    case Leaf(atom) => WrittenAtom(atom)
    case Not(_) => false
    case And(children) => |children| == 2 && Written(children[0]) && Written(children[1])
    case Or(children) => |children| == 2 && Written(children[0]) && Written(children[1])
  }

  // ----- a clause for each -----

  function UnparseNumbers(values: seq<Scalar>): (ns: seq<NumberSyntax>)
    requires WrittenNumbers(values)
    ensures |ns| == |values|
  {
    if values == [] then [] else [NumberSyntax.Digits(values[0].digits)] + UnparseNumbers(values[1..])
  }

  function UnparseAtom(a: Atom): Primary
    requires WrittenAtom(a)
  {
    match a
    case NullTest(operand, negated) => IsNull(operand.name, negated)
    case Between(operand, low, high) =>
      BetweenNumbers(operand.name, NumberSyntax.Digits(low.digits), NumberSyntax.Digits(high.digits))
    case Compare(op, left, right) =>
      if right.Column? then CompareName(op, left.name, right.name)
      else CompareNumber(op, left.name, NumberSyntax.Digits(right.digits))
    case In(operand, values) => OneOf(operand.name, UnparseNumbers(values))
  }

  function UnparsePrimary(t: Tree): Primary
    requires Written(t)
  {
    match t
    case Leaf(atom) => UnparseAtom(atom)
    case And(children) =>
      Group(OneAnd(AndAlso(OnePrimary(UnparsePrimary(children[0])), UnparsePrimary(children[1]))))
    case Or(children) =>
      Group(OrElse(OneAnd(OnePrimary(UnparsePrimary(children[0]))), OnePrimary(UnparsePrimary(children[1]))))
  }

  lemma {:induction false} UnparseNumbersBack(values: seq<Scalar>)
    requires WrittenNumbers(values)
    ensures NumbersOf(UnparseNumbers(values)) == values && NumbersOk(UnparseNumbers(values))
    decreases |values|
  {
    if values != [] {
      UnparseNumbersBack(values[1..]);
      assert WrittenNumber(values[0]) && values == [values[0]] + values[1..];
      assert UnparseNumbers(values)[1..] == UnparseNumbers(values[1..]);
    }
  }

  lemma UnparseAtomBack(a: Atom)
    requires WrittenAtom(a)
    ensures PrimaryTree(UnparseAtom(a)) == Leaf(a) && PrimaryOk(UnparseAtom(a))
  {
    hide NumbersOf, NumbersOk, UnparseNumbers;
    if a.In? { UnparseNumbersBack(a.values); }
  }

  lemma {:induction false} UnparseBack(t: Tree)
    requires Written(t)
    ensures PrimaryTree(UnparsePrimary(t)) == t && PrimaryOk(UnparsePrimary(t))
    decreases t
  {
    hide WrittenAtom, UnparseAtom;
    match t {
      case Leaf(atom) => UnparseAtomBack(atom);
      case And(children) =>
        UnparseBack(children[0]);
        UnparseBack(children[1]);
        AndPairTree(UnparsePrimary(children[0]), UnparsePrimary(children[1]));
        assert children == [children[0], children[1]];
      case Or(children) =>
        UnparseBack(children[0]);
        UnparseBack(children[1]);
        OrPairTree(UnparsePrimary(children[0]), UnparsePrimary(children[1]));
        assert children == [children[0], children[1]];
    }
  }

  lemma AndPairTree(l: Primary, r: Primary)
    requires PrimaryOk(l) && PrimaryOk(r)
    ensures var p := Group(OneAnd(AndAlso(OnePrimary(l), r)));
            PrimaryOk(p) && PrimaryTree(p) == And([PrimaryTree(l), PrimaryTree(r)])
  {
    var a := AndAlso(OnePrimary(l), r);
    assert AndOk(a.left) && AndTree(a.left) == PrimaryTree(l);
    assert AndOk(a) && AndTree(a) == And([PrimaryTree(l), PrimaryTree(r)]);
    assert OrOk(OneAnd(a)) && OrTree(OneAnd(a)) == AndTree(a);
  }

  lemma OrPairTree(l: Primary, r: Primary)
    requires PrimaryOk(l) && PrimaryOk(r)
    ensures var p := Group(OrElse(OneAnd(OnePrimary(l)), OnePrimary(r)));
            PrimaryOk(p) && PrimaryTree(p) == Or([PrimaryTree(l), PrimaryTree(r)])
  {
    var o := OrElse(OneAnd(OnePrimary(l)), OnePrimary(r));
    assert AndOk(OnePrimary(l)) && AndTree(OnePrimary(l)) == PrimaryTree(l);
    assert AndOk(OnePrimary(r)) && AndTree(OnePrimary(r)) == PrimaryTree(r);
    assert OrOk(o.left) && OrTree(o.left) == PrimaryTree(l);
  }

  // ----- laid out with one space before each token -----

  predicate IsMark(s: string) {
    s == "(" || s == ")" || s == ","
  }

  predicate Writable(s: string) {
    IsName(s) || IsNumber(s) || IsComparison(s) || IsMark(s)
  }

  predicate AllWritable(ts: seq<string>) {
    forall t | t in ts :: Writable(t)
  }

  function LexemeOf(s: string): Lexeme
    requires Writable(s)
  {
    if IsMark(s) then Punct(s[0])
    else if IsNumber(s) then Lexeme.Digits(s)
    else if IsComparison(s) then Operator(s)
    else Word(s)
  }

  lemma LexemeIsRead(s: string, rest: string)
    requires Writable(s) && (rest == "" || rest[0] == ' ')
    ensures IsBare(LexemeOf(s)) && BareOf(LexemeOf(s)) == s
    ensures WellFormed(LexemeOf(s)) && Clear(LexemeOf(s), rest)
  {
    if !IsMark(s) && IsNumber(s) { assert AllIn(s, DigitClass); }
  }

  function Spaced(ts: seq<string>): seq<Placed>
    requires AllWritable(ts)
  {
    if ts == [] then [] else [Placed(" ", LexemeOf(ts[0]))] + Spaced(ts[1..])
  }

  lemma {:induction false} SpacedIsLaid(ts: seq<string>)
    requires AllWritable(ts)
    ensures Laid(Spaced(ts), "") && AllBare(Spaced(ts)) && BareTokens(Spaced(ts)) == ts
    ensures Render(Spaced(ts), "") == "" || Render(Spaced(ts), "")[0] == ' '
    decreases |ts|
  {
    if ts != [] {
      hide Clear, WellFormed, Writable, LexemeOf, IsBare, BareOf;
      SpacedIsLaid(ts[1..]);
      LexemeIsRead(ts[0], Render(Spaced(ts[1..]), ""));
      assert ts == [ts[0]] + ts[1..];
    }
  }

  lemma WordWritable(s: string)
    requires s != "" && forall i | 0 <= i < |s| :: 'a' <= s[i] <= 'z'
    ensures Writable(s)
  {
    assert Lower(s) == s;
  }

  lemma KeywordsWritable()
    ensures Writable("and") && Writable("or") && Writable("is") && Writable("not") && Writable("null")
    ensures Writable("in") && Writable("between") && Writable("(") && Writable(")") && Writable(",")
  {
    hide IsName, IsNumber, IsComparison;
    WordWritable("and");
    WordWritable("or");
    WordWritable("is");
    WordWritable("not");
    WordWritable("null");
    WordWritable("in");
    WordWritable("between");
  }

  lemma {:induction false} ListWritable(values: seq<Scalar>)
    requires values != [] && WrittenNumbers(values)
    ensures AllWritable(ListTokens(UnparseNumbers(values)))
    decreases |values|
  {
    hide PlainNumber;
    assert UnparseNumbers(values)[0] == NumberSyntax.Digits(values[0].digits);
    assert UnparseNumbers(values)[1..] == UnparseNumbers(values[1..]);
    if |values| > 1 { ListWritable(values[1..]); }
    KeywordsWritable();
  }

  lemma AtomWritable(a: Atom)
    requires WrittenAtom(a) && PrimaryOk(UnparseAtom(a))
    ensures AllWritable(PrimaryTokens(UnparseAtom(a)))
  {
    hide UnparseNumbers, ListTokens, IsName, IsNumber, IsComparison, PlainNumber, NumberOk, NumbersOk;
    KeywordsWritable();
    if a.In? { ListWritable(a.values); }
  }

  lemma BothWritable(ts: seq<string>, us: seq<string>)
    requires AllWritable(ts) && AllWritable(us)
    ensures AllWritable(["("] + (ts + (["and"] + us) + [")"])) && AllWritable(["("] + (ts + (["or"] + us) + [")"]))
  {
    KeywordsWritable();
    hide Writable;
  }

  lemma {:induction false} TreeWritable(t: Tree)
    requires Written(t) && PrimaryOk(UnparsePrimary(t))
    ensures AllWritable(PrimaryTokens(UnparsePrimary(t)))
    decreases t
  {
    hide Writable, AllWritable, WrittenAtom, UnparseAtom;
    match t {
      case Leaf(atom) => AtomWritable(atom);
      case And(children) =>
        UnparseBack(children[0]);
        UnparseBack(children[1]);
        TreeWritable(children[0]);
        TreeWritable(children[1]);
        var l, r := UnparsePrimary(children[0]), UnparsePrimary(children[1]);
        AndPairTokens(l, r);
        BothWritable(PrimaryTokens(l), PrimaryTokens(r));
      case Or(children) =>
        UnparseBack(children[0]);
        UnparseBack(children[1]);
        TreeWritable(children[0]);
        TreeWritable(children[1]);
        var l, r := UnparsePrimary(children[0]), UnparsePrimary(children[1]);
        OrPairTokens(l, r);
        BothWritable(PrimaryTokens(l), PrimaryTokens(r));
    }
  }

  lemma AndPairTokens(l: Primary, r: Primary)
    requires PrimaryOk(l) && PrimaryOk(r)
    ensures var p := Group(OneAnd(AndAlso(OnePrimary(l), r)));
            PrimaryOk(p) && PrimaryTokens(p) == ["("] + (PrimaryTokens(l) + (["and"] + PrimaryTokens(r)) + [")"])
  {
    var a := AndAlso(OnePrimary(l), r);
    assert AndOk(OnePrimary(l)) && AndTokens(OnePrimary(l)) == PrimaryTokens(l);
    assert AndOk(a) && AndTokens(a) == PrimaryTokens(l) + (["and"] + PrimaryTokens(r));
    assert OrOk(OneAnd(a)) && OrTokens(OneAnd(a)) == AndTokens(a);
  }

  lemma OrPairTokens(l: Primary, r: Primary)
    requires PrimaryOk(l) && PrimaryOk(r)
    ensures var p := Group(OrElse(OneAnd(OnePrimary(l)), OnePrimary(r)));
            PrimaryOk(p) && PrimaryTokens(p) == ["("] + (PrimaryTokens(l) + (["or"] + PrimaryTokens(r)) + [")"])
  {
    var o := OrElse(OneAnd(OnePrimary(l)), OnePrimary(r));
    assert AndOk(OnePrimary(l)) && AndTokens(OnePrimary(l)) == PrimaryTokens(l);
    assert AndOk(OnePrimary(r)) && AndTokens(OnePrimary(r)) == PrimaryTokens(r);
    assert OrOk(o.left) && OrTokens(o.left) == PrimaryTokens(l);
  }

  function Unparse(t: Tree): string
    requires Written(t)
  {
    UnparseBack(t);
    TreeWritable(t);
    Render(Spaced(PrimaryTokens(UnparsePrimary(t))), "")
  }

  /** Printing a tree as a clause and parsing it again gives the tree back. */
  lemma ParseUndoesUnparse(t: Tree)
    requires Written(t)
    ensures Parse(Unparse(t)).Some? && OrTree(Parse(Unparse(t)).value) == t
  {
    UnparseBack(t);
    TreeWritable(t);
    var p := UnparsePrimary(t);
    var o := OneAnd(OnePrimary(p));
    assert AndOk(o.first) && OrOk(o) && OrTokens(o) == AndTokens(o.first) == PrimaryTokens(p);
    assert AndTree(o.first) == PrimaryTree(p);
    hide Parse, Written, PrimaryTree, UnparsePrimary, PrimaryTokens, PrimaryOk, Laid, Spaced, BareTokens;
    SpacedIsLaid(PrimaryTokens(p));
    EveryLayoutIsRead(o, Spaced(PrimaryTokens(p)), "");
  }

  // ----- no clause has another tree -----

  /** The tokenizer lowers every word. */
  predicate Lowered(ts: seq<string>) {
    forall t | t in ts && IsIdentifier(t) :: Lower(t) == t
  }

  lemma LowerAgain(s: string)
    ensures Lower(Lower(s)) == Lower(s)
  {
  }

  lemma OneBareLowered(s: string)
    requires s != "" && LexOneBare(s).Some?
    ensures Lowered([LexOneBare(s).value.0])
  {
    hide Lower, LexRun;
    LowerAgain(s[..LexRun(s, WordClass)]);
    if s[0] == '`' { TickedLowered(s); }
  }

  lemma TickedLowered(s: string)
    requires s != "" && LexTicked(s).Some?
    ensures Lowered([LexTicked(s).value.0])
  {
  }

  lemma {:induction false} LexBareLowered(s: string)
    requires LexBare(s).Some?
    ensures Lowered(LexBare(s).value)
    decreases |s|
  {
    hide LexOneBare;
    if s != "" {
      if IsSpace(s[0]) {
        LexBareLowered(s[1..]);
      } else {
        OneBareLowered(s);
        LexBareLowered(s[LexOneBare(s).value.1..]);
      }
    }
  }

  lemma {:induction false} TrimAgain(digits: string)
    requires forall c | c in digits :: IsDigit(c)
    ensures TrimZeros(TrimZeros(digits)) == TrimZeros(digits)
    ensures forall c | c in TrimZeros(digits) :: IsDigit(c)
    decreases |digits|
  {
    if digits != "" && digits[0] == '0' { TrimAgain(digits[1..]); }
  }

  lemma {:induction false} NumberWritten(n: NumberSyntax)
    requires NumberOk(n)
    ensures WrittenNumber(NumberOf(n))
    decreases n
  {
    if n.Bracketed? {
      NumberWritten(n.inner);
    } else {
      TrimAgain(n.text);
      assert TrimZeros("0") == TrimZeros("");
    }
  }

  lemma {:induction false} NumbersWritten(ns: seq<NumberSyntax>)
    requires NumbersOk(ns)
    ensures WrittenNumbers(NumbersOf(ns))
    decreases |ns|
  {
    hide WrittenNumber, NumberOk;
    if ns != [] {
      NumberWritten(ns[0]);
      NumbersWritten(ns[1..]);
    }
  }

  lemma AtomIsWritten(p: Primary)
    requires PrimaryOk(p) && !p.Group? && Lowered(PrimaryTokens(p))
    ensures Written(PrimaryTree(p))
  {
    hide WrittenNumber, NumberOk, NumbersOk, NumberOf, NumbersOf, ListTokens, NumberTokens;
    assert PrimaryTokens(p)[0] == p.name;
    match p {
      case OneOf(_, values) => NumbersWritten(values);
      case BetweenNumbers(_, low, high) =>
        NumberWritten(low);
        NumberWritten(high);
      case CompareName(_, _, other) => assert PrimaryTokens(p)[2] == other;
      case CompareNumber(_, _, value) => NumberWritten(value);
      case _ =>
    }
  }

  lemma LoweredParts(ts: seq<string>, us: seq<string>)
    requires Lowered(ts + us)
    ensures Lowered(ts) && Lowered(us)
  {
    assert forall t | t in ts || t in us :: t in ts + us;
  }

  lemma {:induction false} PrimaryIsWritten(p: Primary)
    requires PrimaryOk(p) && Lowered(PrimaryTokens(p))
    ensures Written(PrimaryTree(p))
    decreases p
  {
    hide Lowered, Written;
    if p.Group? {
      LoweredParts(["("], OrTokens(p.inner) + [")"]);
      LoweredParts(OrTokens(p.inner), [")"]);
      OrIsWritten(p.inner);
    } else {
      AtomIsWritten(p);
    }
  }

  lemma PairWritten(a: Tree, b: Tree)
    requires Written(a) && Written(b)
    ensures Written(And([a, b])) && Written(Or([a, b]))
  {
  }

  lemma {:induction false} AndIsWritten(a: AndSyntax)
    requires AndOk(a) && Lowered(AndTokens(a))
    ensures Written(AndTree(a))
    decreases a
  {
    hide Lowered, Written, PrimaryOk, PrimaryTokens, PrimaryTree;
    match a {
      case OnePrimary(first) => PrimaryIsWritten(first);
      case AndAlso(left, right) =>
        LoweredParts(AndTokens(left), ["and"] + PrimaryTokens(right));
        LoweredParts(["and"], PrimaryTokens(right));
        AndIsWritten(left);
        PrimaryIsWritten(right);
        PairWritten(AndTree(left), PrimaryTree(right));
    }
  }

  lemma {:induction false} OrIsWritten(o: OrSyntax)
    requires OrOk(o) && Lowered(OrTokens(o))
    ensures Written(OrTree(o))
    decreases o
  {
    hide Lowered, Written, AndOk, AndTokens, AndTree;
    match o {
      case OneAnd(first) => AndIsWritten(first);
      case OrElse(left, right) =>
        LoweredParts(OrTokens(left), ["or"] + AndTokens(right));
        LoweredParts(["or"], AndTokens(right));
        OrIsWritten(left);
        AndIsWritten(right);
        PairWritten(OrTree(left), AndTree(right));
    }
  }

  ghost predicate IsTreeOf(t: Tree, clause: string) {
    Parse(clause).Some? && OrTree(Parse(clause).value) == t
  }

  /** The trees of safety clauses are exactly the written ones. */
  lemma TreesAreWritten(t: Tree)
    ensures (exists clause :: IsTreeOf(t, clause)) <==> Written(t)
  {
    hide LexBare, ParseClause, Written, OrTree, Unparse;
    if Written(t) {
      ParseUndoesUnparse(t);
      assert IsTreeOf(t, Unparse(t));
    }
    if clause :| IsTreeOf(t, clause) {
      var o := Parse(clause).value;
      ParseIffWritten(LexBare(clause).value, o);
      LexBareLowered(clause);
      OrIsWritten(o);
    }
  }
}
