/** The recursive-descent parser for safety CHECK clauses, with its position as a
    field. It builds the canonical string directly; each method is proved to read
    what the grammar reads and to return the printed tree of that syntax. */
module SafetyParser {
  import opened Prelude
  import opened CheckLexer
  import opened CheckMeaning
  import opened CheckPrint
  import opened CheckPrintBinary
  import opened SafetyMeaning
  import G = SafetyGrammar
  import CheckTokenizer
  import Response = ResponseMeaning
  import ResponseParser

  // ----- the strings the parser builds are what the printer prints -----

  lemma {:induction false} WordsThen(words: seq<string>, x: string)
    requires words != []
    ensures PrintWords(words, x) == Joined(words) + (")" + x)
    decreases |words|
  {
    if |words| > 1 {
      WordsThen(words[1..], x);
      Assoc(words[0], ",", Joined(words[1..]) + (")" + x));
      Assoc(words[0] + ",", Joined(words[1..]), ")" + x);
    }
  }

  lemma AtomTailThen(a: Atom, x: string)
    requires BinaryAtom(a)
    ensures AtomTail(a, x) == AtomTail(a, "") + x
  {
    if a.Compare? && a.right.Column? {
      CompareTailThen(a.op, a.left.name, a.right.name, x);
    } else {
      hide BinaryAtom, AtomWords, PrintWords;
      WordsThen(AtomWords(a), x);
      WordsThen(AtomWords(a), "");
      assert ")" + x == ")" + "" + x;
      Assoc(Joined(AtomWords(a)), ")" + "", x);
    }
  }

  lemma CompareTailThen(op: string, left: string, right: string, x: string)
    ensures op + ("," + (left + ("," + ("identifier" + ("(" + (right + (")" + (")" + x))))))))
            == op + ("," + (left + ("," + ("identifier" + ("(" + (right + (")" + (")" + "")))))))) + x
  {
  }

  lemma LeafThen(a: Atom, x: string)
    requires Binary(Leaf(a))
    ensures PrintThen(Leaf(a), x) == PrintBinary(Leaf(a)) + x
  {
    AtomTailThen(a, x);
    hide AtomTail, BinaryAtom, AtomKeyword;
    Assoc("(", AtomTail(a, ""), x);
    Assoc(AtomKeyword(a), "(" + AtomTail(a, ""), x);
  }

  function ChainWord(t: Tree): string {
    if t.And? then "and" else "or"
  }

  lemma PairShape(t: Tree, x: string)
    requires Binary(t) && !t.Leaf?
    ensures (t.And? || t.Or?) && |t.children| == 2
    ensures Binary(t.children[0]) && Binary(t.children[1]) && t.children[0] < t && t.children[1] < t
    ensures PrintThen(t, x) == ChainWord(t) + ("(" + PrintThen(t.children[0], "," + PrintThen(t.children[1], ")" + x)))
  {
  }

  lemma BinaryIs(t: Tree)
    requires Binary(t)
    ensures PrintBinary(t) == PrintThen(t, "")
  {
  }

  lemma {:induction false} PrintThenIs(t: Tree, x: string)
    requires Binary(t)
    ensures PrintThen(t, x) == PrintBinary(t) + x
    decreases t
  {
    hide PrintThen, PrintBinary, Binary, ChainWord;
    if t.Leaf? {
      LeafThen(t.atom, x);
    } else {
      PairShape(t, x);
      PairShape(t, "");
      BinaryIs(t);
      var l, r := t.children[0], t.children[1];
      PrintThenIs(r, ")" + x);
      PrintThenIs(r, ")" + "");
      PrintThenIs(l, "," + PrintThen(r, ")" + x));
      PrintThenIs(l, "," + PrintThen(r, ")" + ""));
      PairRegroup(ChainWord(t), PrintBinary(l), PrintBinary(r), x);
    }
  }

  lemma PairRegroup(k: string, l: string, r: string, x: string)
    ensures k + ("(" + (l + ("," + (r + (")" + x))))) == k + ("(" + (l + ("," + (r + (")" + ""))))) + x
  {
  }

  lemma PairText(l: Tree, r: Tree)
    requires Binary(l) && Binary(r)
    ensures PrintBinary(And([l, r])) == "and(" + PrintBinary(l) + "," + PrintBinary(r) + ")"
    ensures PrintBinary(Or([l, r])) == "or(" + PrintBinary(l) + "," + PrintBinary(r) + ")"
  {
    var a, b := PrintBinary(l), PrintBinary(r);
    assert ")" + "" == ")";
    PrintThenIs(r, ")");
    PrintThenIs(l, "," + PrintThen(r, ")"));
    PairGlue("and", a, b);
    PairGlue("or", a, b);
    assert "and" + "(" == "and(" && "or" + "(" == "or(";
  }

  lemma PairGlue(k: string, a: string, b: string)
    ensures k + ("(" + (a + ("," + (b + ")")))) == k + "(" + a + "," + b + ")"
  {
  }

  lemma LeafText(a: Atom)
    requires BinaryAtom(a) && !(a.Compare? && a.right.Column?)
    ensures PrintBinary(Leaf(a)) == AtomKeyword(a) + "(" + Joined(AtomWords(a)) + ")"
  {
    hide BinaryAtom, AtomWords, AtomKeyword;
    WordsThen(AtomWords(a), "");
    assert ")" + "" == ")";
    Assoc(AtomKeyword(a), "(", Joined(AtomWords(a)) + ")");
    Assoc(AtomKeyword(a) + "(", Joined(AtomWords(a)), ")");
  }

  lemma JoinedOne(a: string)
    ensures Joined([a]) == a
  {
  }

  lemma JoinedTwo(a: string, b: string)
    ensures Joined([a, b]) == a + "," + b
  {
    assert [a, b][1..] == [b];
  }

  lemma JoinedThree(a: string, b: string, c: string)
    ensures Joined([a, b, c]) == a + "," + b + "," + c
  {
    assert [a, b, c][1..] == [b, c];
    JoinedTwo(b, c);
    Assoc(a + ",", b, "," + c);
    Assoc(a + "," + b, ",", c);
    Assoc(b, ",", c);
  }

  lemma NullText(name: string, negated: bool)
    requires IsIdentifier(name)
    ensures Binary(Leaf(NullTest(Column(name), negated)))
    ensures PrintBinary(Leaf(NullTest(Column(name), negated))) ==
            (if negated then "notnull(" else "isnull(") + name + ")"
  {
    NamePlain(name);
    hide NoStop;
    LeafText(NullTest(Column(name), negated));
    JoinedOne(name);
    assert "notnull" + "(" == "notnull(" && "isnull" + "(" == "isnull(";
  }

  lemma InText(name: string, values: seq<Scalar>)
    requires BinaryAtom(In(Column(name), values))
    ensures PrintBinary(Leaf(In(Column(name), values))) == "in(" + name + "," + Joined(NumberWords(values)) + ")"
  {
    LeafText(In(Column(name), values));
    var words := [name] + NumberWords(values);
    assert words[1..] == NumberWords(values);
    assert Joined(words) == name + "," + Joined(NumberWords(values));
    Assoc("in(", name + ",", Joined(NumberWords(values)));
    Assoc("in(", name, ",");
    assert "in" + "(" == "in(";
  }

  lemma BoundsText(name: string, low: Scalar, high: Scalar)
    requires BinaryAtom(Between(Column(name), low, high))
    ensures PrintBinary(Leaf(Between(Column(name), low, high))) ==
            "between(" + name + "," + low.digits + "," + high.digits + ")"
  {
    LeafText(Between(Column(name), low, high));
    JoinedThree(name, low.digits, high.digits);
    ThreeGlue("between(", name, low.digits, high.digits);
    assert "between" + "(" == "between(";
  }

  lemma ThreeGlue(k: string, a: string, b: string, c: string)
    ensures k + (a + "," + b + "," + c) + ")" == k + a + "," + b + "," + c + ")"
  {
  }

  /** The last operand of a comparison as the parser writes it. */
  function ComparedText(s: Scalar): string
    requires BareWord(s)
  {
    if s.Number? then s.digits else "identifier(" + s.name + ")"
  }

  lemma CompareText(op: string, name: string, right: Scalar)
    requires BinaryAtom(Compare(op, Column(name), right))
    ensures PrintBinary(Leaf(Compare(op, Column(name), right))) ==
            "compare(" + op + "," + name + "," + ComparedText(right) + ")"
  {
    var a := Compare(op, Column(name), right);
    hide NoStop;
    assert "compare" + "(" == "compare(" && "identifier" + "(" == "identifier(";
    if right.Number? {
      LeafText(a);
      JoinedThree(op, name, right.digits);
      ThreeGlue("compare(", op, name, right.digits);
    } else {
      CompareGlue(op, name, right.name);
    }
  }

  lemma CompareGlue(op: string, left: string, right: string)
    ensures "compare" + ("(" + (op + ("," + (left + ("," + ("identifier" + ("(" + (right + (")" + (")" + ""))))))))))
            == "compare" + "(" + op + "," + left + "," + ("identifier" + "(" + right + ")") + ")"
  {
  }

  // ----- brackets around a number -----

  /** The outcome of reading a number inside k brackets, once they are closed. */
  function Closed(r: G.Parsed<G.NumberSyntax>, k: nat): G.Parsed<G.NumberSyntax>
    decreases k
  {
    if k == 0 then r else
    if r.None? || !G.At(r.value.1, ")") then None else Closed(Some((G.Bracketed(r.value.0), r.value.1[1..])), k - 1)
  }

  lemma ClosedNothing(k: nat)
    ensures Closed(None, k) == None
  {
  }

  lemma OneMoreBracket(ts: seq<string>, k: nat)
    requires G.At(ts, "(")
    ensures Closed(G.ParseNumber(ts), k) == Closed(G.ParseNumber(ts[1..]), k + 1)
  {
    ClosedNothing(k);
    var inner := G.ParseNumber(ts[1..]);
    assert Closed(inner, 1) == G.ParseNumber(ts);
  }

  class ClauseParser {
    const tokens: seq<string>
    var pos: nat

    constructor (tokens: seq<string>)
      ensures this.tokens == tokens && pos == 0
    {
      this.tokens := tokens;
      pos := 0;
    }

    ghost predicate Valid() reads this {
      pos <= |tokens|
    }

    ghost function Rest(): seq<string>
      requires Valid()
      reads this
    {
      tokens[pos..]
    }

    method Match(token: string) returns (ok: bool)
      requires Valid()
      modifies this
      ensures Valid() && ok == G.At(old(Rest()), token)
      ensures Rest() == if ok then old(Rest())[1..] else old(Rest())
      ensures pos == if ok then old(pos) + 1 else old(pos)
    {
      if pos >= |tokens| || tokens[pos] != token { return false; }
      pos := pos + 1;
      return true;
    }

    /** Counts the opening brackets, reads the digits, closes as many brackets. */
    method ParseNumber() returns (value: string, ok: bool)
      requires Valid()
      modifies this
      ensures Valid() && ok == G.ParseNumber(old(Rest())).Some?
      ensures ok ==> Rest() == G.ParseNumber(old(Rest())).value.1 && pos > old(pos)
      ensures ok ==> value == NumberOf(G.ParseNumber(old(Rest())).value.0).digits
    {
      hide PlainNumber;
      ghost var start := Rest();
      var parentheses := 0;
      if G.At(start, "(") { OneMoreBracket(start, 0); }
      var open := Match("(");
      while open
        invariant Valid() && pos >= old(pos)
        invariant open ==> pos > old(pos)
        invariant G.ParseNumber(start) == Closed(G.ParseNumber(Rest()), if open then parentheses + 1 else parentheses)
        invariant !open ==> !G.At(Rest(), "(")
        decreases |tokens| - pos, open
      {
        parentheses := parentheses + 1;
        if G.At(Rest(), "(") { OneMoreBracket(Rest(), parentheses); }
        open := Match("(");
      }
      ghost var inner := G.ParseNumber(Rest());
      if pos >= |tokens| || !G.IsNumber(tokens[pos]) {
        ClosedNothing(parentheses);
        return "", false;
      }
      value := TrimZeros(tokens[pos]);
      if value == "" { value := "0"; }
      PlainNumberIs(tokens[pos]);
      ghost var n := G.Digits(tokens[pos]);
      pos := pos + 1;
      while parentheses > 0
        invariant Valid() && pos > old(pos)
        invariant G.ParseNumber(start) == Closed(Some((n, Rest())), parentheses)
        invariant value == NumberOf(n).digits
      {
        var closed := Match(")");
        if !closed { return "", false; }
        n := G.Bracketed(n);
        parentheses := parentheses - 1;
      }
      return value, true;
    }

    lemma PlainNumberIs(digits: string)
      ensures PlainNumber(digits) == if TrimZeros(digits) == "" then "0" else TrimZeros(digits)
    {
    }

    /** parseComparisonValue: a column or a number. */
    method ParseComparisonValue(ghost name: string, ghost start: seq<string>) returns (text: string, ok: bool)
      requires Valid() && start != [] && IsComparison(start[0]) && Rest() == start[1..] && IsIdentifier(name)
      modifies this
      ensures Valid() && ok == G.ParseComparison(name, start).Some?
      ensures ok ==> Rest() == G.ParseComparison(name, start).value.1 && pos > old(pos)
      ensures ok ==> Binary(PrimaryTree(G.ParseComparison(name, start).value.0))
      ensures ok ==> text == ComparedText(PrimaryTree(G.ParseComparison(name, start).value.0).atom.right)
    {
      hide PlainNumber, Binary, IsComparison, IsIdentifier, G.ParseNumber;
      if pos < |tokens| && IsIdentifier(tokens[pos]) {
        var identifier := tokens[pos];
        pos := pos + 1;
        assert Rest() == start[2..];
        ComparisonIsBinary(name, start);
        return "identifier(" + identifier + ")", true;
      }
      text, ok := ParseNumber();
      if ok { ComparisonIsBinary(name, start); }
    }

    lemma ComparisonIsBinary(name: string, start: seq<string>)
      requires IsIdentifier(name) && G.ParseComparison(name, start).Some?
      ensures var p := G.ParseComparison(name, start).value.0;
              (p.CompareName? || p.CompareNumber?) && p.name == name && p.op == start[0] &&
              Binary(PrimaryTree(p)) && PrimaryTree(p).Leaf? && PrimaryTree(p).atom.Compare? &&
                BareWord(PrimaryTree(p).atom.right)
    {
      hide Binary, NumberOf;
      G.ComparisonSound(name, start);
      PrimaryBinary(G.ParseComparison(name, start).value.0);
      LeafOfBinary(PrimaryTree(G.ParseComparison(name, start).value.0));
    }

    lemma LeafOfBinary(t: Tree)
      requires Binary(t) && t.Leaf? && t.atom.Compare?
      ensures BareWord(t.atom.right) && BinaryAtom(t.atom)
    {
    }

    method ParseOr() returns (text: string, ok: bool)
      requires Valid()
      modifies this
      ensures Valid() && ok == G.ParseOr(old(Rest())).Some?
      ensures ok ==> Rest() == G.ParseOr(old(Rest())).value.1 && pos > old(pos)
      ensures ok ==> Binary(OrTree(G.ParseOr(old(Rest())).value.0))
      ensures ok ==> text == PrintBinary(OrTree(G.ParseOr(old(Rest())).value.0))
      decreases |tokens| - pos, 3
    {
      hide G.ParseAnd, PrintBinary, AndTree;
      text, ok := ParseAnd();
      if !ok { return; }
      ghost var acc := G.OneAnd(G.ParseAnd(old(Rest())).value.0);
      while true
        invariant Valid() && pos > old(pos)
        invariant G.ParseOr(old(Rest())) == G.ParseOrMore(acc, Rest())
        invariant Binary(OrTree(acc)) && text == PrintBinary(OrTree(acc))
        decreases |tokens| - pos
      {
        ghost var here := Rest();
        var more := Match("or");
        if !more { return text, true; }
        var right;
        right, ok := ParseAnd();
        if !ok { return; }
        ghost var term := G.ParseAnd(here[1..]).value.0;
        PairText(OrTree(acc), AndTree(term));
        text := "or(" + text + "," + right + ")";
        acc := G.OrElse(acc, term);
      }
    }

    method ParseAnd() returns (text: string, ok: bool)
      requires Valid()
      modifies this
      ensures Valid() && ok == G.ParseAnd(old(Rest())).Some?
      ensures ok ==> Rest() == G.ParseAnd(old(Rest())).value.1 && pos > old(pos)
      ensures ok ==> Binary(AndTree(G.ParseAnd(old(Rest())).value.0))
      ensures ok ==> text == PrintBinary(AndTree(G.ParseAnd(old(Rest())).value.0))
      decreases |tokens| - pos, 2
    {
      hide G.ParsePrimary, PrintBinary, PrimaryTree;
      text, ok := ParsePrimary();
      if !ok { return; }
      ghost var acc := G.OnePrimary(G.ParsePrimary(old(Rest())).value.0);
      while true
        invariant Valid() && pos > old(pos)
        invariant G.ParseAnd(old(Rest())) == G.ParseAndMore(acc, Rest())
        invariant Binary(AndTree(acc)) && text == PrintBinary(AndTree(acc))
        decreases |tokens| - pos
      {
        ghost var here := Rest();
        var more := Match("and");
        if !more { return text, true; }
        var right;
        right, ok := ParsePrimary();
        if !ok { return; }
        ghost var term := G.ParsePrimary(here[1..]).value.0;
        PairText(AndTree(acc), PrimaryTree(term));
        text := "and(" + text + "," + right + ")";
        acc := G.AndAlso(acc, term);
      }
    }

    method ParsePrimary() returns (text: string, ok: bool)
      requires Valid()
      modifies this
      ensures Valid() && ok == G.ParsePrimary(old(Rest())).Some?
      ensures ok ==> Rest() == G.ParsePrimary(old(Rest())).value.1 && pos > old(pos)
      ensures ok ==> Binary(PrimaryTree(G.ParsePrimary(old(Rest())).value.0))
      ensures ok ==> text == PrintBinary(PrimaryTree(G.ParsePrimary(old(Rest())).value.0))
      decreases |tokens| - pos, 1
    {
      hide G.ParseTail, Binary, PrintBinary, IsIdentifier;
      text := "";
      var open := Match("(");
      if open {
        text, ok := ParseOr();
        if !ok { return; }
        ok := Match(")");
        return;
      }
      if pos >= |tokens| || !IsIdentifier(tokens[pos]) { return "", false; }
      var identifier := tokens[pos];
      pos := pos + 1;
      text, ok := ParseTail(identifier);
    }

    /** What parsePrimary does once the column is read. */
    method ParseTail(identifier: string) returns (text: string, ok: bool)
      requires Valid() && IsIdentifier(identifier)
      modifies this
      ensures Valid() && ok == G.ParseTail(identifier, old(Rest())).Some?
      ensures ok ==> Rest() == G.ParseTail(identifier, old(Rest())).value.1 && pos > old(pos)
      ensures ok ==> Binary(PrimaryTree(G.ParseTail(identifier, old(Rest())).value.0))
      ensures ok ==> text == PrintBinary(PrimaryTree(G.ParseTail(identifier, old(Rest())).value.0))
      decreases |tokens| - pos, 0
    {
      hide G.ParseNull, G.ParseIn, G.ParseBounds, G.ParseComparison, Binary, PrintBinary, PrimaryTree;
      hide IsIdentifier;
      var nullTest := Match("is");
      if nullTest {
        text, ok := ParseNull(identifier);
        return;
      }
      var member := Match("in");
      if member {
        text, ok := ParseIn(identifier);
        return;
      }
      var between := Match("between");
      if between {
        text, ok := ParseBounds(identifier);
        return;
      }
      text, ok := ParseComparison(identifier);
    }

    method ParseNull(identifier: string) returns (text: string, ok: bool)
      requires Valid() && IsIdentifier(identifier)
      modifies this
      ensures Valid() && ok == G.ParseNull(identifier, old(Rest())).Some?
      ensures ok ==> Rest() == G.ParseNull(identifier, old(Rest())).value.1 && pos > old(pos)
      ensures ok ==> Binary(PrimaryTree(G.ParseNull(identifier, old(Rest())).value.0))
      ensures ok ==> text == PrintBinary(PrimaryTree(G.ParseNull(identifier, old(Rest())).value.0))
    {
      hide PrintBinary, Binary, IsIdentifier;
      text := "";
      var negated := Match("not");
      ok := Match("null");
      if !ok { return; }
      NullText(identifier, negated);
      if negated { return "notnull(" + identifier + ")", true; }
      return "isnull(" + identifier + ")", true;
    }

    method ParseIn(identifier: string) returns (text: string, ok: bool)
      requires Valid() && IsIdentifier(identifier)
      modifies this
      ensures Valid() && ok == G.ParseIn(identifier, old(Rest())).Some?
      ensures ok ==> Rest() == G.ParseIn(identifier, old(Rest())).value.1 && pos > old(pos)
      ensures ok ==> Binary(PrimaryTree(G.ParseIn(identifier, old(Rest())).value.0))
      ensures ok ==> text == PrintBinary(PrimaryTree(G.ParseIn(identifier, old(Rest())).value.0))
    {
      hide PrintBinary, Binary, IsIdentifier, G.ParseList, NumbersOf;
      text := "";
      ghost var start := Rest();
      ok := Match("(");
      if !ok { return; }
      var values;
      values, ok := ParseList();
      if !ok { return; }
      ok := Match(")");
      if !ok { return; }
      ghost var p := G.ParseIn(identifier, start).value.0;
      InIsBinary(identifier, start);
      InText(identifier, NumbersOf(p.values));
      text := "in(" + identifier + "," + Joined(values) + ")";
    }

    lemma InIsBinary(name: string, start: seq<string>)
      requires IsIdentifier(name) && G.ParseIn(name, start).Some?
      ensures var p := G.ParseIn(name, start).value.0;
              p.OneOf? && p.name == name && Binary(PrimaryTree(p)) && BinaryAtom(In(Column(name), NumbersOf(p.values)))
    {
      hide G.ParseList, NumbersOf;
      G.InSound(name, start);
      PrimaryBinary(G.ParseIn(name, start).value.0);
    }

    /** The loop over the numbers of an IN list. */
    method ParseList() returns (values: seq<string>, ok: bool)
      requires Valid()
      modifies this
      ensures Valid() && ok == G.ParseList(old(Rest())).Some?
      ensures ok ==> Rest() == G.ParseList(old(Rest())).value.1 && pos > old(pos)
      ensures ok ==> (forall v | v in NumbersOf(G.ParseList(old(Rest())).value.0) :: v.Number?)
      ensures ok ==> values == NumberWords(NumbersOf(G.ParseList(old(Rest())).value.0))
    {
      hide G.ParseNumber, NumberOf, NumbersOf, NumberWords, Listed;
      ghost var start := Rest();
      ghost var syntax: seq<G.NumberSyntax> := [];
      values := [];
      ListedNothing(G.ParseList(start));
      while true
        invariant Valid() && pos >= old(pos)
        invariant G.ParseList(start) == Listed(syntax, G.ParseList(Rest()))
        invariant |values| == |syntax| && forall i | 0 <= i < |syntax| :: values[i] == NumberOf(syntax[i]).digits
        decreases |tokens| - pos
      {
        ghost var here := Rest();
        var value;
        value, ok := ParseNumber();
        if !ok {
          ListedNone(syntax);
          return [], false;
        }
        ghost var n := G.ParseNumber(here).value.0;
        ListedMore(syntax, n, G.ParseNumber(here).value.1);
        values := values + [value];
        syntax := syntax + [n];
        var more := Match(",");
        if !more {
          WordsAre(values, syntax);
          return values, true;
        }
      }
    }

    method ParseBounds(identifier: string) returns (text: string, ok: bool)
      requires Valid() && IsIdentifier(identifier)
      modifies this
      ensures Valid() && ok == G.ParseBounds(identifier, old(Rest())).Some?
      ensures ok ==> Rest() == G.ParseBounds(identifier, old(Rest())).value.1 && pos > old(pos)
      ensures ok ==> Binary(PrimaryTree(G.ParseBounds(identifier, old(Rest())).value.0))
      ensures ok ==> text == PrintBinary(PrimaryTree(G.ParseBounds(identifier, old(Rest())).value.0))
    {
      hide PrintBinary, Binary, IsIdentifier, G.ParseNumber, NumberOf;
      text := "";
      ghost var start := Rest();
      var low, lowOK := ParseNumber();
      if !lowOK { return "", false; }
      ok := Match("and");
      if !ok { return; }
      var high, highOK := ParseNumber();
      if !highOK { return "", false; }
      ghost var p := G.ParseBounds(identifier, start).value.0;
      BoundsAreBinary(identifier, start);
      BoundsText(identifier, NumberOf(p.low), NumberOf(p.high));
      return "between(" + identifier + "," + low + "," + high + ")", true;
    }

    lemma BoundsAreBinary(name: string, start: seq<string>)
      requires IsIdentifier(name) && G.ParseBounds(name, start).Some?
      ensures var p := G.ParseBounds(name, start).value.0;
              p.BetweenNumbers? && p.name == name && Binary(PrimaryTree(p)) &&
              BinaryAtom(Between(Column(name), NumberOf(p.low), NumberOf(p.high)))
    {
      hide G.ParseNumber, NumberOf;
      G.BoundsSound(name, start);
      PrimaryBinary(G.ParseBounds(name, start).value.0);
    }

    method ParseComparison(identifier: string) returns (text: string, ok: bool)
      requires Valid() && IsIdentifier(identifier)
      modifies this
      ensures Valid() && ok == G.ParseComparison(identifier, old(Rest())).Some?
      ensures ok ==> Rest() == G.ParseComparison(identifier, old(Rest())).value.1 && pos > old(pos)
      ensures ok ==> Binary(PrimaryTree(G.ParseComparison(identifier, old(Rest())).value.0))
      ensures ok ==> text == PrintBinary(PrimaryTree(G.ParseComparison(identifier, old(Rest())).value.0))
    {
      hide PrintBinary, Binary, IsIdentifier, IsComparison, G.ParseNumber, NumberOf, ComparedText;
      text := "";
      ghost var start := Rest();
      if pos >= |tokens| || !IsComparison(tokens[pos]) { return "", false; }
      var operator := tokens[pos];
      pos := pos + 1;
      var value;
      value, ok := ParseComparisonValue(identifier, start);
      if !ok { return; }
      ComparisonIsBinary(identifier, start);
      ghost var t := PrimaryTree(G.ParseComparison(identifier, start).value.0);
      LeafOfBinary(t);
      CompareText(operator, identifier, t.atom.right);
      return "compare(" + operator + "," + identifier + "," + value + ")", true;
    }
  }

  /** Numbers already read, put before the outcome of reading on. */
  function Listed(done: seq<G.NumberSyntax>, rest: G.Parsed<seq<G.NumberSyntax>>): G.Parsed<seq<G.NumberSyntax>> {
    if rest.None? then None else Some((done + rest.value.0, rest.value.1))
  }

  lemma ListedNothing(rest: G.Parsed<seq<G.NumberSyntax>>)
    ensures Listed([], rest) == rest
  {
    if rest.Some? { assert [] + rest.value.0 == rest.value.0; }
  }

  lemma ListedNone(done: seq<G.NumberSyntax>)
    ensures Listed(done, None) == None
  {
  }

  lemma WordsAre(values: seq<string>, syntax: seq<G.NumberSyntax>)
    requires |values| == |syntax| && forall i | 0 <= i < |syntax| :: values[i] == NumberOf(syntax[i]).digits
    ensures (forall v | v in NumbersOf(syntax) :: v.Number?) && values == NumberWords(NumbersOf(syntax))
  {
    NumbersAt(syntax);
    forall v | v in NumbersOf(syntax) ensures v.Number? {
      var i :| 0 <= i < |syntax| && v == NumbersOf(syntax)[i];
    }
  }

  lemma ListedMore(done: seq<G.NumberSyntax>, n: G.NumberSyntax, after: seq<string>)
    ensures Listed(done, Some(([n], after))) == Some((done + [n], after))
    ensures |after| > 0 ==>
              var more := G.ParseList(after[1..]);
              Listed(done, if more.None? then None else Some(([n] + more.value.0, more.value.1))) ==
              Listed(done + [n], more)
  {
    hide G.ParseList;
    if |after| > 0 && G.ParseList(after[1..]).Some? {
      var more := G.ParseList(after[1..]).value.0;
      assert done + ([n] + more) == done + [n] + more;
    }
  }

  lemma {:induction false} NumbersAt(ns: seq<G.NumberSyntax>)
    ensures forall i | 0 <= i < |ns| :: NumbersOf(ns)[i] == NumberOf(ns[i])
    decreases |ns|
  {
    if ns != [] { NumbersAt(ns[1..]); }
  }

  /** canonicalizeCheckClause. */
  method Canonicalize(clause: string) returns (canonical: string, ok: bool)
    ensures ok == Canonical(clause).Some?
    ensures ok ==> canonical == Canonical(clause).value
  {
    hide LexBare, Binary, PrintBinary, OrTree, G.ParseOr;
    var tokens;
    tokens, ok := CheckTokenizer.TokenizeBare(clause);
    if !ok { return "", false; }
    if |tokens| == 0 {
      NothingParses(tokens);
      return "", false;
    }
    var parser := new ClauseParser(tokens);
    assert tokens[0..] == tokens;
    canonical, ok := parser.ParseOr();
    ok := ok && parser.pos == |parser.tokens|;
  }

  lemma NothingParses(ts: seq<string>)
    requires ts == []
    ensures G.ParseOr(ts).None?
  {
    assert G.ParsePrimary(ts).None?;
  }

  /** canonicalizePlatformGenerationReceiptCheck. */
  method CanonicalizePlatform(clause: string) returns (canonical: string, ok: bool)
    ensures ok == PlatformCanonical(clause).Some?
    ensures ok ==> canonical == PlatformCanonical(clause).value
  {
    hide Canonical, Response.Canonical;
    canonical, ok := Canonicalize(clause);
    if !ok { canonical, ok := ResponseParser.Canonicalize(clause); }
  }
}
