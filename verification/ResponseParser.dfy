/** The recursive-descent parser for response CHECK clauses, with its position as
    a field, and the canonicalizer built on it. Each method is proved to read what
    the grammar's parse function reads and to build the node of that syntax. */
module ResponseParser {
  import opened Prelude
  import opened CheckLexer
  import opened CheckMeaning
  import opened CheckPrint
  import opened ResponseMeaning
  import G = ResponseGrammar
  import CheckTokenizer

  /** adminOperationResponseCheckNode: an atom's text, or a kind and children. */
  datatype Node = Node(kind: string, atom: string, children: seq<Node>)

  /** strconv.Quote of printable text. */
  function Quote(text: string): string {
    "\"" + Escaped(text) + "\""
  }

  function NodeOf(t: Tree): Node
    decreases t, 0
  {
    match t
    case Leaf(atom) => Node("atom", if atom.In? then "" else PrintAtom(atom), [])
    case Not(child) => Node("not", "", [NodeOf(child)])
    case And(children) => Node("and", "", NodesOf(children))
    case Or(children) => Node("or", "", NodesOf(children))
  }

  function NodesOf(ts: seq<Tree>): seq<Node>
    decreases ts, 1
  {
    if ts == [] then [] else [NodeOf(ts[0])] + NodesOf(ts[1..])
  }

  lemma {:induction false} NodesOfConcat(a: seq<Tree>, b: seq<Tree>)
    ensures NodesOf(a + b) == NodesOf(a) + NodesOf(b)
    decreases |a|
  {
    if a == [] {
      assert a + b == b;
    } else {
      assert (a + b)[1..] == a[1..] + b;
      NodesOfConcat(a[1..], b);
    }
  }

  function OperandsOf(kind: string, n: Node): seq<Node> {
    if n.kind == kind then n.children else [n]
  }

  lemma OperandsOfTree(t: Tree)
    ensures OperandsOf("and", NodeOf(t)) == NodesOf(Conjuncts(t))
    ensures OperandsOf("or", NodeOf(t)) == NodesOf(Disjuncts(t))
  {
    assert [t][1..] == [] && NodesOf([t]) == [NodeOf(t)];
  }

  /** mergeAdminOperationResponseBoolean. */
  method Merge(kind: string, left: Node, right: Node) returns (node: Node)
    ensures node == Node(kind, "", OperandsOf(kind, left) + OperandsOf(kind, right))
  {
    var children: seq<Node> := [];
    if left.kind == kind { children := children + left.children; } else { children := children + [left]; }
    if right.kind == kind { children := children + right.children; } else { children := children + [right]; }
    return Node(kind, "", children);
  }

  lemma MergedNodes(left: Tree, right: Tree)
    ensures NodeOf(MergeAnd(left, right)) ==
            Node("and", "", OperandsOf("and", NodeOf(left)) + OperandsOf("and", NodeOf(right)))
    ensures NodeOf(MergeOr(left, right)) ==
            Node("or", "", OperandsOf("or", NodeOf(left)) + OperandsOf("or", NodeOf(right)))
  {
    hide OperandsOf, Conjuncts, Disjuncts, NodesOf;
    OperandsOfTree(left);
    OperandsOfTree(right);
    NodesOfConcat(Conjuncts(left), Conjuncts(right));
    NodesOfConcat(Disjuncts(left), Disjuncts(right));
  }

  function Texts(nodes: seq<Node>): (texts: seq<string>)
    decreases nodes, 1
  {
    if nodes == [] then [] else [Text(nodes[0])] + Texts(nodes[1..])
  }

  /** The string of a node: an atom's text, or the kind and the children's strings. */
  function Text(n: Node): string
    decreases n, 0
  {
    if n.kind == "atom" then n.atom else n.kind + "(" + Joined(Texts(n.children)) + ")"
  }

  lemma TextsLength(nodes: seq<Node>)
    ensures |Texts(nodes)| == |nodes|
    decreases |nodes|
  {
  }

  lemma {:induction false} TextsSnoc(nodes: seq<Node>, n: Node)
    ensures Texts(nodes + [n]) == Texts(nodes) + [Text(n)]
    decreases |nodes|
  {
    if nodes == [] {
      assert nodes + [n] == [n] && [n][1..] == [];
    } else {
      assert (nodes + [n])[1..] == nodes[1..] + [n];
      TextsSnoc(nodes[1..], n);
    }
  }

  /** canonical: the children's strings are collected in a loop and joined. */
  method CanonicalText(node: Node) returns (text: string)
    ensures text == Text(node)
    decreases node
  {
    if node.kind == "atom" { return node.atom; }
    var children: seq<string> := [];
    assert node.children[..0] == [];
    for index := 0 to |node.children|
      invariant children == Texts(node.children[..index])
    {
      var child := CanonicalText(node.children[index]);
      TextsSnoc(node.children[..index], node.children[index]);
      assert node.children[..index + 1] == node.children[..index] + [node.children[index]];
      children := children + [child];
    }
    assert node.children[..|node.children|] == node.children;
    return node.kind + "(" + Joined(children) + ")";
  }

  lemma {:induction false} TextIsPrint(t: Tree)
    requires Plain(t)
    ensures Text(NodeOf(t)) == Print(t)
    decreases t, 0
  {
    match t {
      case Leaf(_) =>
      case Not(child) =>
        TextIsPrint(child);
        assert Texts([NodeOf(child)]) == [Text(NodeOf(child))];
        assert Joined([Text(NodeOf(child))]) == Text(NodeOf(child));
        assert Print(t) == "not" + "(" + (Print(child) + ")");
      case And(children) => TextsArePrint(children); assert Print(t) == "and" + "(" + (PrintList(children) + ")");
      case Or(children) => TextsArePrint(children); assert Print(t) == "or" + "(" + (PrintList(children) + ")");
    }
  }

  lemma {:induction false} TextsArePrint(ts: seq<Tree>)
    requires forall t | t in ts :: Plain(t)
    ensures Joined(Texts(NodesOf(ts))) == PrintList(ts)
    decreases ts, 1
  {
    if ts != [] {
      TextIsPrint(ts[0]);
      TextsArePrint(ts[1..]);
      var texts := Texts(NodesOf(ts));
      assert texts[0] == Print(ts[0]) && texts[1..] == Texts(NodesOf(ts[1..]));
      TextsLength(NodesOf(ts[1..]));
      NodesOfLength(ts[1..]);
    }
  }

  lemma NodesOfLength(ts: seq<Tree>)
    ensures |NodesOf(ts)| == |ts|
    decreases |ts|
  {
  }

  // ----- the texts the parser writes are what the printer prints -----

  /** A prefix joined to a text glued from parts is glued from one more part. */
  lemma Front6(p: string, a: string, b: string, c: string, d: string, e: string, f: string)
    ensures p + (a + b + c + d + e + f) == p + a + b + c + d + e + f
  {
    Assoc4(p, a, b, c);
    Assoc4(p, a + b + c, d, e);
    Assoc(p, a + b + c + d + e, f);
  }

  lemma ColumnText(name: string)
    ensures PrintScalar(Column(name)) == "identifier(" + name + ")"
  {
    Assoc("identifier(", name, ")");
    assert "identifier" + "(" == "identifier(";
  }

  lemma StringText(text: string)
    ensures PrintScalar(StringLiteral(text)) == "string(" + Quote(text) + ")"
  {
    hide Escaped;
    Assoc4("string(", "\"", Escaped(text), "\")");
    Assoc4("string(", "\"", Escaped(text), "\"");
    Assoc("string(" + "\"" + Escaped(text), "\"", ")");
    assert "string" + "(" == "string(" && "\"" + ")" == "\")";
  }

  lemma LengthText(name: string)
    ensures PrintScalar(Length(name)) == "call(length,identifier(" + name + "))"
  {
    Assoc4("call(", "length,identifier(", name, "))");
    assert "call" + "(" == "call(" && "call(" + "length,identifier(" == "call(length,identifier(";
  }

  lemma NumberTexts(text: string)
    ensures PrintScalar(Number(text)) == "number(" + text + ")" && PrintScalar(HexLiteral(text)) == "hex(" + text + ")"
  {
  }

  function NullNode(s: Scalar, negated: bool): Node {
    NodeOf(Leaf(NullTest(s, negated)))
  }

  lemma NullText(s: Scalar, negated: bool)
    ensures NullNode(s, negated) ==
            Node("atom", (if negated then "notnull" else "isnull") + "(" + PrintScalar(s) + ")", [])
  {
    hide PrintScalar;
  }

  lemma BetweenText(s: Scalar, low: Scalar, high: Scalar)
    ensures NodeOf(Leaf(Between(s, low, high))) ==
            Node("atom", "between(" + PrintScalar(s) + "," + PrintScalar(low) + "," + PrintScalar(high) + ")", [])
  {
    hide PrintScalar;
    var a, b, c := PrintScalar(s), PrintScalar(low), PrintScalar(high);
    Front6("between(", a, ",", b, ",", c, ")");
    assert "between" + "(" == "between(";
  }

  lemma CompareText(op: string, left: Scalar, right: Scalar)
    ensures NodeOf(Leaf(Compare(op, left, right))) ==
            Node("atom", "compare(" + op + "," + PrintScalar(left) + "," + PrintScalar(right) + ")", [])
  {
    hide PrintScalar;
    Front6("compare(", op, ",", PrintScalar(left), ",", PrintScalar(right), ")");
    assert "compare" + "(" == "compare(";
  }

  class CheckParser {
    const tokens: seq<Token>
    var pos: nat

    constructor (tokens: seq<Token>)
      ensures this.tokens == tokens && pos == 0
    {
      this.tokens := tokens;
      pos := 0;
    }

    ghost predicate Valid() reads this {
      pos <= |tokens|
    }

    ghost function Rest(): seq<Token>
      requires Valid()
      reads this
    {
      tokens[pos..]
    }

    method MatchWord(word: string) returns (ok: bool)
      requires Valid()
      modifies this
      ensures Valid() && ok == G.At(old(Rest()), Ident(word))
      ensures Rest() == if ok then old(Rest())[1..] else old(Rest())
      ensures pos == if ok then old(pos) + 1 else old(pos)
    {
      if pos >= |tokens| || tokens[pos] != Ident(word) { return false; }
      pos := pos + 1;
      return true;
    }

    /** For the bracket tokens, whose kind is all they are. */
    method MatchKind(kind: Token) returns (ok: bool)
      requires Valid() && (kind == LParen || kind == RParen)
      modifies this
      ensures Valid() && ok == G.At(old(Rest()), kind)
      ensures Rest() == if ok then old(Rest())[1..] else old(Rest())
      ensures pos == if ok then old(pos) + 1 else old(pos)
    {
      if pos >= |tokens| || tokens[pos] != kind { return false; }
      pos := pos + 1;
      return true;
    }

    method ParseScalar() returns (text: string, ok: bool)
      requires Valid()
      modifies this
      ensures Valid() && ok == G.ParseScalar(old(Rest())).Some?
      ensures ok ==> Rest() == G.ParseScalar(old(Rest())).value.1 && pos > old(pos)
      ensures ok ==> text == PrintScalar(ScalarOf(G.ParseScalar(old(Rest())).value.0))
      decreases |tokens| - pos
    {
      hide PrintScalar, PlainNumber;
      ghost var start := Rest();
      var open := MatchKind(LParen);
      if open {
        text, ok := ParseScalar();
        if !ok { return "", false; }
        ok := MatchKind(RParen);
        if !ok { return "", false; }
        return text, true;
      }
      if pos >= |tokens| { return "", false; }
      var token := tokens[pos];
      assert start == [token] + start[1..];
      if token.Hex? {
        pos := pos + 1;
        NumberTexts(token.text);
        return "hex(" + token.text + ")", true;
      } else if token.Num? {
        pos := pos + 1;
        var value := TrimZeros(token.text);
        if value == "" { value := "0"; }
        assert value == PlainNumber(token.text) by { PlainNumberIs(token.text); }
        NumberTexts(value);
        return "number(" + value + ")", true;
      } else if token.Str? {
        pos := pos + 1;
        StringText(token.text);
        return "string(" + Quote(token.text) + ")", true;
      } else if token.Ident? {
        text, ok := ParseName();
      } else {
        return "", false;
      }
    }

    lemma PlainNumberIs(digits: string)
      ensures PlainNumber(digits) == if TrimZeros(digits) == "" then "0" else TrimZeros(digits)
    {
    }

    /** The identifier case: a charset introducer, a column or a length call. */
    method ParseName() returns (text: string, ok: bool)
      requires Valid() && pos < |tokens| && tokens[pos].Ident?
      modifies this
      ensures Valid() && ok == G.ParseScalar(old(Rest())).Some?
      ensures ok ==> Rest() == G.ParseScalar(old(Rest())).value.1 && pos > old(pos)
      ensures ok ==> text == PrintScalar(ScalarOf(G.ParseScalar(old(Rest())).value.0))
      decreases |tokens| - pos, 0
    {
      hide PrintScalar, Quote, G.IsCharset, G.IsLengthName;
      ghost var start := Rest();
      var token := tokens[pos];
      pos := pos + 1;
      ColumnText(token.text);
      assert Rest() == start[1..];
      if G.IsCharset(token.text) {
        if pos >= |tokens| || !tokens[pos].Str? { return "", false; }
        var literal := tokens[pos].text;
        pos := pos + 1;
        StringText(literal);
        assert Rest() == start[2..];
        return "string(" + Quote(literal) + ")", true;
      }
      var call := MatchKind(LParen);
      if !call { return "identifier(" + token.text + ")", true; }
      if !G.IsLengthName(token.text) { return "", false; }
      if pos >= |tokens| || !tokens[pos].Ident? || tokens[pos].text == "_utf8mb4" { return "", false; }
      var argument := tokens[pos].text;
      pos := pos + 1;
      LengthText(argument);
      assert Rest() == start[3..];
      var closed := MatchKind(RParen);
      if !closed { return "", false; }
      return "call(length,identifier(" + argument + "))", true;
    }

    method ParseOr() returns (node: Node, ok: bool)
      requires Valid()
      modifies this
      ensures Valid() && ok == G.ParseOr(old(Rest())).Some?
      ensures ok ==> Rest() == G.ParseOr(old(Rest())).value.1 && pos > old(pos)
      ensures ok ==> node == NodeOf(OrTree(G.ParseOr(old(Rest())).value.0))
      decreases |tokens| - pos, 4
    {
      hide G.ParseAnd, NodeOf, AndTree;
      node, ok := ParseAnd();
      if !ok { return; }
      ghost var acc := G.OneAnd(G.ParseAnd(old(Rest())).value.0);
      while true
        invariant Valid() && pos > old(pos)
        invariant G.ParseOr(old(Rest())) == G.ParseOrMore(acc, Rest())
        invariant node == NodeOf(OrTree(acc))
        decreases |tokens| - pos
      {
        ghost var here := Rest();
        var more := MatchWord("or");
        if !more { return node, true; }
        var right;
        right, ok := ParseAnd();
        if !ok { return; }
        ghost var term := G.ParseAnd(here[1..]).value.0;
        MergedNodes(OrTree(acc), AndTree(term));
        node := Merge("or", node, right);
        acc := G.OrElse(acc, term);
      }
    }

    method ParseAnd() returns (node: Node, ok: bool)
      requires Valid()
      modifies this
      ensures Valid() && ok == G.ParseAnd(old(Rest())).Some?
      ensures ok ==> Rest() == G.ParseAnd(old(Rest())).value.1 && pos > old(pos)
      ensures ok ==> node == NodeOf(AndTree(G.ParseAnd(old(Rest())).value.0))
      decreases |tokens| - pos, 3
    {
      hide G.ParseNot, NodeOf, NotTree;
      node, ok := ParseNot();
      if !ok { return; }
      ghost var acc := G.OneNot(G.ParseNot(old(Rest())).value.0);
      while true
        invariant Valid() && pos > old(pos)
        invariant G.ParseAnd(old(Rest())) == G.ParseAndMore(acc, Rest())
        invariant node == NodeOf(AndTree(acc))
        decreases |tokens| - pos
      {
        ghost var here := Rest();
        var more := MatchWord("and");
        if !more { return node, true; }
        var right;
        right, ok := ParseNot();
        if !ok { return; }
        ghost var term := G.ParseNot(here[1..]).value.0;
        MergedNodes(AndTree(acc), NotTree(term));
        node := Merge("and", node, right);
        acc := G.AndAlso(acc, term);
      }
    }

    method ParseNot() returns (node: Node, ok: bool)
      requires Valid()
      modifies this
      ensures Valid() && ok == G.ParseNot(old(Rest())).Some?
      ensures ok ==> Rest() == G.ParseNot(old(Rest())).value.1 && pos > old(pos)
      ensures ok ==> node == NodeOf(NotTree(G.ParseNot(old(Rest())).value.0))
      decreases |tokens| - pos, 2
    {
      hide G.ParsePrimary, PrimaryTree, PrintAtom, MergeAnd, MergeOr;
      var negated := MatchWord("not");
      if negated {
        var child;
        child, ok := ParseNot();
        if !ok { return child, false; }
        return Node("not", "", [child]), true;
      }
      node, ok := ParsePrimary();
    }

    method ParsePrimary() returns (node: Node, ok: bool)
      requires Valid()
      modifies this
      ensures Valid() && ok == G.ParsePrimary(old(Rest())).Some?
      ensures ok ==> Rest() == G.ParsePrimary(old(Rest())).value.1 && pos > old(pos)
      ensures ok ==> node == NodeOf(PrimaryTree(G.ParsePrimary(old(Rest())).value.0))
      decreases |tokens| - pos, 1
    {
      hide G.ParseScalar, G.ParseTail, PrintScalar, ScalarOf, NodeOf;
      node := Node("", "", []);
      ghost var start := Rest();
      var open := MatchKind(LParen);
      if open {
        node, ok := ParseOr();
        if !ok { return; }
        ok := MatchKind(RParen);
        return;
      }
      var left;
      left, ok := ParseScalar();
      if !ok { return; }
      node, ok := ParseTail(left, G.ParseScalar(start).value.0);
    }

    /** What parsePrimary does once the left operand is read. */
    method ParseTail(left: string, ghost operand: G.ScalarSyntax) returns (node: Node, ok: bool)
      requires Valid() && left == PrintScalar(ScalarOf(operand))
      modifies this
      ensures Valid() && ok == G.ParseTail(operand, old(Rest())).Some?
      ensures ok ==> Rest() == G.ParseTail(operand, old(Rest())).value.1 && pos > old(pos)
      ensures ok ==> node == NodeOf(PrimaryTree(G.ParseTail(operand, old(Rest())).value.0))
      decreases |tokens| - pos, 0
    {
      hide G.ParseTail, PrintScalar, ScalarOf, NodeOf, PrimaryTree;
      ghost var start := Rest();
      var nullTest := MatchWord("is");
      if nullTest {
        node, ok := ParseNullTest(left, operand, start);
        return;
      }
      var between := MatchWord("between");
      if between {
        node, ok := ParseBounds(left, operand, start);
        return;
      }
      node, ok := ParseComparison(left, operand);
    }

    method ParseNullTest(left: string, ghost operand: G.ScalarSyntax, ghost start: seq<Token>)
      returns (node: Node, ok: bool)
      requires Valid() && left == PrintScalar(ScalarOf(operand)) && G.At(start, Ident("is")) && start[1..] == Rest()
      modifies this
      ensures Valid() && ok == G.ParseTail(operand, start).Some?
      ensures ok ==> Rest() == G.ParseTail(operand, start).value.1 && pos > old(pos)
      ensures ok ==> node == NodeOf(PrimaryTree(G.ParseTail(operand, start).value.0))
    {
      hide PrintScalar, ScalarOf, NodeOf;
      node := Node("", "", []);
      var negated := MatchWord("not");
      assert negated ==> Rest() == start[2..];
      ok := MatchWord("null");
      if !ok { return; }
      var operator := "isnull";
      if negated { operator := "notnull"; }
      NullText(ScalarOf(operand), negated);
      node := Node("atom", operator + "(" + left + ")", []);
    }

    method ParseBounds(left: string, ghost operand: G.ScalarSyntax, ghost start: seq<Token>)
      returns (node: Node, ok: bool)
      requires Valid() && left == PrintScalar(ScalarOf(operand)) && G.At(start, Ident("between")) &&
               start[1..] == Rest()
      modifies this
      ensures Valid() && ok == G.ParseTail(operand, start).Some?
      ensures ok ==> Rest() == G.ParseTail(operand, start).value.1 && pos > old(pos)
      ensures ok ==> node == NodeOf(PrimaryTree(G.ParseTail(operand, start).value.0))
    {
      hide G.ParseScalar, PrintScalar, ScalarOf, NodeOf;
      node := Node("", "", []);
      var low, lowOK := ParseScalar();
      if !lowOK { return node, false; }
      ok := MatchWord("and");
      if !ok { return; }
      var high, highOK := ParseScalar();
      if !highOK { return node, false; }
      ghost var second := G.ParseScalar(start[1..]).value;
      BetweenText(ScalarOf(operand), ScalarOf(second.0), ScalarOf(G.ParseScalar(second.1[1..]).value.0));
      return Node("atom", "between(" + left + "," + low + "," + high + ")", []), true;
    }

    method ParseComparison(left: string, ghost operand: G.ScalarSyntax) returns (node: Node, ok: bool)
      requires Valid() && left == PrintScalar(ScalarOf(operand)) && !G.At(Rest(), Ident("is")) &&
               !G.At(Rest(), Ident("between"))
      modifies this
      ensures Valid() && ok == G.ParseTail(operand, old(Rest())).Some?
      ensures ok ==> Rest() == G.ParseTail(operand, old(Rest())).value.1 && pos > old(pos)
      ensures ok ==> node == NodeOf(PrimaryTree(G.ParseTail(operand, old(Rest())).value.0))
    {
      hide G.ParseScalar, PrintScalar, ScalarOf, NodeOf;
      node := Node("", "", []);
      if pos >= |tokens| || !tokens[pos].Op? { return node, false; }
      var operator := tokens[pos].text;
      pos := pos + 1;
      ghost var rest := Rest();
      var right;
      right, ok := ParseScalar();
      if !ok { return; }
      CompareText(operator, ScalarOf(operand), ScalarOf(G.ParseScalar(rest).value.0));
      return Node("atom", "compare(" + operator + "," + left + "," + right + ")", []), true;
    }
  }

  /** canonicalizeAdminOperationResponseCheck. */
  method Canonicalize(clause: string) returns (canonical: string, ok: bool)
    ensures ok == Canonical(clause).Some?
    ensures ok ==> canonical == Canonical(clause).value
  {
    hide Lex, Print, Plain, OrTree, NodeOf, Text, G.ParseOr;
    var tokens;
    tokens, ok := CheckTokenizer.TokenizeResponse(clause);
    if !ok { return "", false; }
    if |tokens| == 0 {
      NothingParses(tokens);
      return "", false;
    }
    var parser := new CheckParser(tokens);
    assert tokens[0..] == tokens;
    var node;
    node, ok := parser.ParseOr();
    if !ok || parser.pos != |parser.tokens| { return "", false; }
    ParsedIsPlain(clause);
    TextIsPrint(OrTree(Parse(clause).value));
    canonical := CanonicalText(node);
  }

  lemma NothingParses(ts: seq<Token>)
    requires ts == []
    ensures G.ParseOr(ts).None?
  {
    assert G.ParsePrimary(ts).None?;
    assert G.ParseNot(ts).None?;
  }
}
