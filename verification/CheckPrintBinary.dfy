/** The safety canonicalizer's printer: chains nest to the left, columns on the
    left of an atom and numbers are bare words. It can be read back too, and what
    it prints is never what the response printer prints. */
module CheckPrintBinary {
  import opened Prelude
  import opened CheckMeaning
  import opened CheckPrint

  predicate BareWord(s: Scalar) {
    (s.Column? && NoStop(s.name)) || (s.Number? && NoStop(s.digits))
  }

  predicate BinaryAtom(a: Atom) {
    match a
    case NullTest(operand, _) => operand.Column? && BareWord(operand)
    case Between(operand, low, high) =>
      operand.Column? && low.Number? && high.Number? && BareWord(operand) && BareWord(low) && BareWord(high)
    case Compare(op, left, right) => NoStop(op) && left.Column? && BareWord(left) && BareWord(right)
    case In(operand, values) =>
      operand.Column? && BareWord(operand) && values != [] && forall v | v in values :: v.Number? && BareWord(v)
  }

  /** Trees the safety parser builds. */
  predicate Binary(t: Tree) {
    match t
    case Leaf(atom) => BinaryAtom(atom)
    case Not(_) => false
    case And(children) => |children| == 2 && Binary(children[0]) && Binary(children[1])
    case Or(children) => |children| == 2 && Binary(children[0]) && Binary(children[1])
  }

  /** Words separated by commas, then a closing bracket and x. */
  function PrintWords(words: seq<string>, x: string): string
    requires words != []
  {
    if |words| == 1 then words[0] + (")" + x) else words[0] + ("," + PrintWords(words[1..], x))
  }

  function NumberWords(values: seq<Scalar>): (words: seq<string>)
    requires forall v | v in values :: v.Number?
    ensures |words| == |values| && forall i | 0 <= i < |values| :: words[i] == values[i].digits
  {
    seq(|values|, i requires 0 <= i < |values| => values[i].digits)
  }

  function AtomWords(a: Atom): (words: seq<string>)
    requires BinaryAtom(a)
    ensures words != []
  {
    match a
    case NullTest(operand, _) => [operand.name]
    case Between(operand, low, high) => [operand.name, low.digits, high.digits]
    case Compare(op, left, right) => [op, left.name] + (if right.Number? then [right.digits] else [])
    case In(operand, values) => [operand.name] + NumberWords(values)
  }

  /** A comparison with a column ends in identifier(...); everything else is words. */
  function AtomTail(a: Atom, x: string): string
    requires BinaryAtom(a)
  {
    if a.Compare? && a.right.Column?
      then a.op + ("," + (a.left.name + ("," + ("identifier" + ("(" + (a.right.name + (")" + (")" + x))))))))
    else PrintWords(AtomWords(a), x)
  }

  /** The canonical string of t followed by x. */
  function PrintThen(t: Tree, x: string): string
    requires Binary(t)
  {
    match t
    case Leaf(atom) => AtomKeyword(atom) + ("(" + AtomTail(atom, x))
    case And(children) => "and" + ("(" + PrintThen(children[0], "," + PrintThen(children[1], ")" + x)))
    case Or(children) => "or" + ("(" + PrintThen(children[0], "," + PrintThen(children[1], ")" + x)))
  }

  function PrintBinary(t: Tree): string
    requires Binary(t)
  {
    PrintThen(t, "")
  }

  predicate NoStops(words: seq<string>) {
    forall w | w in words :: NoStop(w)
  }

  lemma {:induction false} WordsUnique(a: seq<string>, x: string, b: seq<string>, y: string)
    requires a != [] && b != [] && NoStops(a) && NoStops(b) && PrintWords(a, x) == PrintWords(b, y)
    ensures a == b && x == y
    decreases |a|
  {
    var d, e := if |a| == 1 then ')' else ',', if |b| == 1 then ')' else ',';
    var p, q := if |a| == 1 then x else PrintWords(a[1..], x), if |b| == 1 then y else PrintWords(b[1..], y);
    Cut(a[0], d, p, b[0], e, q);
    if |a| > 1 { WordsUnique(a[1..], x, b[1..], y); }
    assert a == [a[0]] + a[1..] && b == [b[0]] + b[1..];
  }

  lemma AtomWordsPlain(a: Atom)
    requires BinaryAtom(a)
    ensures NoStops(AtomWords(a))
  {
    if a.In? {
      forall w | w in NumberWords(a.values) ensures NoStop(w) {
        var i :| 0 <= i < |a.values| && w == a.values[i].digits;
        assert a.values[i] in a.values;
      }
    }
  }

  lemma AtomTailUnique(a: Atom, x: string, b: Atom, y: string)
    requires BinaryAtom(a) && BinaryAtom(b) && AtomKeyword(a) == AtomKeyword(b) && AtomTail(a, x) == AtomTail(b, y)
    ensures a == b && x == y
  {
    SameAtomKind(a, b);
    AtomWordsPlain(a);
    AtomWordsPlain(b);
    if a.Compare? {
      CompareTailUnique(a, x, b, y);
    } else {
      WordsUnique(AtomWords(a), x, AtomWords(b), y);
      WordsDetermineAtom(a, b);
    }
  }

  lemma SameAtomKind(a: Atom, b: Atom)
    requires AtomKeyword(a) == AtomKeyword(b)
    ensures a.NullTest? == b.NullTest? && a.Between? == b.Between? && a.Compare? == b.Compare? && a.In? == b.In?
    ensures a.NullTest? ==> a.negated == b.negated
  {
  }

  lemma WordsDetermineAtom(a: Atom, b: Atom)
    requires BinaryAtom(a) && BinaryAtom(b) && AtomKeyword(a) == AtomKeyword(b) && AtomWords(a) == AtomWords(b) &&
             !a.Compare?
    ensures a == b
  {
    SameAtomKind(a, b);
    var s, t := AtomWords(a), AtomWords(b);
    assert s[0] == t[0];
    if a.Between? { assert s[1] == t[1] && s[2] == t[2]; }
    if a.In? {
      assert s[1..] == NumberWords(a.values) && t[1..] == NumberWords(b.values);
      forall i | 0 <= i < |a.values| ensures a.values[i] == b.values[i] {
        assert NumberWords(a.values)[i] == NumberWords(b.values)[i];
        assert a.values[i] in a.values && b.values[i] in b.values;
      }
      assert a.values == b.values;
    }
  }

  /** A comparison's last operand: digits and a bracket, or identifier(...) and a bracket. */
  function CompareEnd(right: Scalar, x: string): string
    requires BareWord(right)
  {
    if right.Number? then right.digits + (")" + x) else "identifier" + ("(" + (right.name + (")" + (")" + x))))
  }

  lemma CompareShape(a: Atom, x: string)
    requires BinaryAtom(a) && a.Compare?
    ensures AtomTail(a, x) == a.op + ("," + (a.left.name + ("," + CompareEnd(a.right, x))))
  {
    if a.right.Number? {
      var w := AtomWords(a);
      assert w[1..] == [a.left.name, a.right.digits] && w[1..][1..] == [a.right.digits];
      assert PrintWords([a.right.digits], x) == CompareEnd(a.right, x);
      assert PrintWords(w[1..], x) == a.left.name + ("," + CompareEnd(a.right, x));
    }
  }

  lemma CompareTailUnique(a: Atom, x: string, b: Atom, y: string)
    requires BinaryAtom(a) && BinaryAtom(b) && a.Compare? && b.Compare? && AtomTail(a, x) == AtomTail(b, y)
    ensures a == b && x == y
  {
    CompareShape(a, x);
    CompareShape(b, y);
    hide AtomTail;
    Cut(a.op, ',', a.left.name + ("," + CompareEnd(a.right, x)), b.op, ',',
      b.left.name + ("," + CompareEnd(b.right, y)));
    Cut(a.left.name, ',', CompareEnd(a.right, x), b.left.name, ',', CompareEnd(b.right, y));
    CompareEndUnique(a.right, x, b.right, y);
  }

  lemma CompareEndUnique(s: Scalar, x: string, t: Scalar, y: string)
    requires BareWord(s) && BareWord(t) && CompareEnd(s, x) == CompareEnd(t, y)
    ensures s == t && x == y
  {
    var d, e := if s.Number? then ')' else '(', if t.Number? then ')' else '(';
    var p := if s.Number? then x else s.name + (")" + (")" + x));
    var q := if t.Number? then y else t.name + (")" + (")" + y));
    Cut(if s.Number? then s.digits else "identifier", d, p, if t.Number? then t.digits else "identifier", e, q);
    if s.Column? {
      Cut(s.name, ')', ")" + x, t.name, ')', ")" + y);
      assert (")" + x)[1..] == x && (")" + y)[1..] == y;
    }
  }

  function BinaryKeyword(t: Tree): string
    requires Binary(t)
  {
    if t.Leaf? then AtomKeyword(t.atom) else if t.And? then "and" else "or"
  }

  function BinaryBody(t: Tree, x: string): string
    requires Binary(t)
  {
    match t
    case Leaf(atom) => AtomTail(atom, x)
    case And(children) => PrintThen(children[0], "," + PrintThen(children[1], ")" + x))
    case Or(children) => PrintThen(children[0], "," + PrintThen(children[1], ")" + x))
  }

  lemma BinaryShape(t: Tree, x: string)
    requires Binary(t)
    ensures PrintThen(t, x) == BinaryKeyword(t) + ("(" + BinaryBody(t, x)) && NoStop(BinaryKeyword(t))
  {
    BinaryKeywordPlain(t);
    hide AtomTail, NoStop;
  }

  lemma BinaryKeywordPlain(t: Tree)
    requires Binary(t)
    ensures NoStop(BinaryKeyword(t))
  {
  }

  lemma BinaryKeywordsDiffer(t: Tree, u: Tree)
    requires Binary(t) && Binary(u) && BinaryKeyword(t) == BinaryKeyword(u)
    ensures t.Leaf? == u.Leaf? && t.And? == u.And? && (t.Leaf? ==> AtomKeyword(t.atom) == AtomKeyword(u.atom))
  {
  }

  /** A printed tree followed by anything can be read in one way only. */
  lemma {:induction false} PrintThenUnique(t: Tree, x: string, u: Tree, y: string)
    requires Binary(t) && Binary(u) && PrintThen(t, x) == PrintThen(u, y)
    ensures t == u && x == y
    decreases t
  {
    BinaryShape(t, x);
    BinaryShape(u, y);
    Cut(BinaryKeyword(t), '(', BinaryBody(t, x), BinaryKeyword(u), '(', BinaryBody(u, y));
    BinaryKeywordsDiffer(t, u);
    if t.Leaf? {
      AtomTailUnique(t.atom, x, u.atom, y);
    } else {
      hide PrintThen;
      var p, q := PrintThen(t.children[1], ")" + x), PrintThen(u.children[1], ")" + y);
      PrintThenUnique(t.children[0], "," + p, u.children[0], "," + q);
      assert ("," + p)[1..] == p && ("," + q)[1..] == q;
      PrintThenUnique(t.children[1], ")" + x, u.children[1], ")" + y);
      assert (")" + x)[1..] == x && (")" + y)[1..] == y;
      assert t.children == [t.children[0], t.children[1]] && u.children == [u.children[0], u.children[1]];
    }
  }

  lemma PrintBinaryInjective(t: Tree, u: Tree)
    requires Binary(t) && Binary(u) && PrintBinary(t) == PrintBinary(u)
    ensures t == u
  {
    PrintThenUnique(t, "", u, "");
  }

  // ----- the two printers never agree -----

  /** A bare word followed by a comma or bracket is no printed scalar. */
  lemma WordIsNoScalar(w: string, d: char, p: string, s: Scalar, q: string)
    requires NoStop(w) && (d == ',' || d == ')')
    ensures w + ([d] + p) != PrintScalar(s) + q
  {
    ScalarShape(s, q);
    hide PrintScalar, ScalarBody;
    if w + ([d] + p) == PrintScalar(s) + q {
      Cut(w, d, p, ScalarKeyword(s), '(', ScalarBody(s) + q);
    }
  }

  lemma ScalarShape(s: Scalar, q: string)
    ensures PrintScalar(s) + q == ScalarKeyword(s) + ("(" + (ScalarBody(s) + q)) && NoStop(ScalarKeyword(s))
  {
    hide ScalarBody;
    Assoc4(ScalarKeyword(s), "(", ScalarBody(s), q);
  }

  lemma PrintShape(u: Tree, y: string)
    requires Plain(u)
    ensures Print(u) + y == Keyword(u) + ("(" + (Body(u) + y)) && NoStop(Keyword(u))
  {
    KeywordPlain(u);
    hide Body;
  }

  lemma AtomsDiffer(a: Atom, x: string, b: Atom, y: string)
    requires BinaryAtom(a) && PlainAtom(b) && AtomKeyword(a) == AtomKeyword(b)
    ensures AtomTail(a, x) != AtomBody(b) + y
  {
    SameAtomKind(a, b);
    AtomBodyScalars(b, y);
    if a.Compare? { CompareShape(a, x); }
    AtomWordsPlain(a);
    hide PrintScalar, PlainScalar, AtomBody;
    if AtomTail(a, x) == AtomBody(b) + y {
      var scalars := AtomScalars(b);
      var rest := (if |scalars| == 1 then ")" else ",") + PrintScalars(scalars[1..], y);
      if a.Compare? {
        Cut(a.op, ',', a.left.name + ("," + CompareEnd(a.right, x)), b.op, ',', PrintScalars(scalars, y));
        WordIsNoScalar(a.left.name, ',', CompareEnd(a.right, x), scalars[0], rest);
      } else {
        var words := AtomWords(a);
        var d := if |words| == 1 then ')' else ',';
        WordIsNoScalar(words[0], d, if |words| == 1 then x else PrintWords(words[1..], x), scalars[0], rest);
      }
    }
  }

  /** No text is both a safety print and a response print. */
  lemma {:induction false} PrintersDisjoint(t: Tree, x: string, u: Tree, y: string)
    requires Binary(t) && Plain(u)
    ensures PrintThen(t, x) != Print(u) + y
    decreases t
  {
    hide PrintThen, Print, PrintList, AfterFirst, AtomTail, AtomBody;
    BinaryShape(t, x);
    PrintShape(u, y);
    if PrintThen(t, x) == Print(u) + y {
      Cut(BinaryKeyword(t), '(', BinaryBody(t, x), Keyword(u), '(', Body(u) + y);
      MixedKeywords(t, u);
      if t.Leaf? {
        AtomsDiffer(t.atom, x, u.atom, y);
      } else {
        FirstChild(u.children, y);
        PrintersDisjoint(t.children[0], "," + PrintThen(t.children[1], ")" + x), u.children[0],
          AfterFirst(u.children, y));
      }
    }
  }

  lemma MixedKeywords(t: Tree, u: Tree)
    requires Binary(t) && Plain(u) && BinaryKeyword(t) == Keyword(u)
    ensures t.Leaf? == u.Leaf? && t.And? == u.And? && t.Or? == u.Or?
    ensures t.Leaf? ==> AtomKeyword(t.atom) == AtomKeyword(u.atom)
  {
  }
}
