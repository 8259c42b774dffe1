/** The two canonical printers, and the proof that each can be read back: equal
    canonical strings come from equal trees, and no string comes from both. */
module CheckPrint {
  import opened Prelude
  import opened CheckMeaning

  // ----- cutting a text at the first bracket or comma -----

  predicate IsStop(c: char) {
    c == '(' || c == ')' || c == ','
  }

  predicate NoStop(s: string) {
    forall c | c in s :: !IsStop(c)
  }

  lemma StopFirst(a: string, d: char, x: string)
    requires NoStop(a) && IsStop(d)
    ensures (a + ([d] + x))[0] == (if a == "" then d else a[0])
    ensures IsStop((a + ([d] + x))[0]) <==> a == ""
  {
  }

  lemma {:induction false} Cut(a: string, d: char, x: string, b: string, e: char, y: string)
    requires NoStop(a) && NoStop(b) && IsStop(d) && IsStop(e)
    requires a + ([d] + x) == b + ([e] + y)
    ensures a == b && d == e && x == y
    decreases |a|
  {
    var s, t := a + ([d] + x), b + ([e] + y);
    StopFirst(a, d, x);
    StopFirst(b, e, y);
    if a == "" {
      assert s[1..] == x && t[1..] == y;
    } else {
      assert s[0] == t[0];
      assert s[1..] == a[1..] + ([d] + x) && t[1..] == b[1..] + ([e] + y);
      assert forall c | c in a[1..] :: c in a;
      assert forall c | c in b[1..] :: c in b;
      Cut(a[1..], d, x, b[1..], e, y);
      assert a == [a[0]] + a[1..] && b == [b[0]] + b[1..];
    }
  }

  // ----- quoted strings -----

  /** strconv.Quote's body, for printable text. */
  function Escaped(s: string): string {
    if s == "" then "" else (if s[0] == '"' || s[0] == '\\' then ['\\', s[0]] else [s[0]]) + Escaped(s[1..])
  }

  lemma {:induction false} EscapedUnique(a: string, x: string, b: string, y: string)
    requires Escaped(a) + ("\"" + x) == Escaped(b) + ("\"" + y)
    ensures a == b && x == y
    decreases |a|
  {
    var s, t := Escaped(a) + ("\"" + x), Escaped(b) + ("\"" + y);
    EscapedHead(a, x);
    EscapedHead(b, y);
    if a == "" {
      assert s[1..] == x && t[1..] == y;
    } else {
      EscapedStep(a, x);
      EscapedStep(b, y);
      assert a[0] == b[0];
      EscapedUnique(a[1..], x, b[1..], y);
      assert a == [a[0]] + a[1..] && b == [b[0]] + b[1..];
    }
  }

  lemma EscapedHead(a: string, x: string)
    ensures (Escaped(a) + ("\"" + x))[0] == '"' <==> a == ""
  {
  }

  lemma EscapedStep(a: string, x: string)
    requires a != ""
    ensures var s, rest := Escaped(a) + ("\"" + x), Escaped(a[1..]) + ("\"" + x);
            if a[0] == '"' || a[0] == '\\' then |s| >= 2 && s[0] == '\\' && s[1] == a[0] && s[2..] == rest
            else s[0] == a[0] && s[1..] == rest
  {
    var head := if a[0] == '"' || a[0] == '\\' then ['\\', a[0]] else [a[0]];
    assert Escaped(a) + ("\"" + x) == head + (Escaped(a[1..]) + ("\"" + x));
  }

  // ----- the response printer -----

  function ScalarKeyword(s: Scalar): string {
    match s
    case Column(_) => "identifier"
    case Number(_) => "number"
    case HexLiteral(_) => "hex"
    case StringLiteral(_) => "string"
    case Length(_) => "call"
  }

  function ScalarBody(s: Scalar): string {
    match s
    case Column(name) => name + ")"
    case Number(digits) => digits + ")"
    case HexLiteral(digits) => digits + ")"
    case StringLiteral(text) => "\"" + Escaped(text) + "\")"
    case Length(name) => "length,identifier(" + name + "))"
  }

  function PrintScalar(s: Scalar): string {
    ScalarKeyword(s) + "(" + ScalarBody(s)
  }

  /** Names, digits and operators hold no bracket and no comma. */
  predicate PlainScalar(s: Scalar) {
    match s
    case Column(name) => NoStop(name)
    case Number(digits) => NoStop(digits)
    case HexLiteral(digits) => NoStop(digits)
    case StringLiteral(_) => true
    case Length(name) => NoStop(name)
  }

  lemma KeywordUnique(k: string, p: string, x: string, l: string, q: string, y: string)
    requires NoStop(k) && NoStop(l) && k + "(" + p + x == l + "(" + q + y
    ensures k == l && p + x == q + y
  {
    assert k + "(" + p + x == k + ("(" + (p + x)) && l + "(" + q + y == l + ("(" + (q + y));
    Cut(k, '(', p + x, l, '(', q + y);
  }

  lemma ClosedUnique(a: string, x: string, b: string, y: string)
    requires NoStop(a) && NoStop(b) && a + ")" + x == b + ")" + y
    ensures a == b && x == y
  {
    assert a + ")" + x == a + (")" + x) && b + ")" + y == b + (")" + y);
    Cut(a, ')', x, b, ')', y);
  }

  lemma ScalarUnique(s: Scalar, x: string, t: Scalar, y: string)
    requires PlainScalar(s) && PlainScalar(t) && PrintScalar(s) + x == PrintScalar(t) + y
    ensures s == t && x == y
  {
    KeywordUnique(ScalarKeyword(s), ScalarBody(s), x, ScalarKeyword(t), ScalarBody(t), y);
    KindsDiffer(s, t);
    match s {
      case Column(name) => ClosedUnique(name, x, t.name, y);
      case Number(digits) => ClosedUnique(digits, x, t.digits, y);
      case HexLiteral(digits) => ClosedUnique(digits, x, t.digits, y);
      case StringLiteral(text) => StringBodyUnique(text, x, t.text, y);
      case Length(name) => LengthBodyUnique(name, x, t.name, y);
    }
  }

  lemma KindsDiffer(s: Scalar, t: Scalar)
    requires ScalarKeyword(s) == ScalarKeyword(t)
    ensures s.Column? == t.Column? && s.Number? == t.Number? && s.HexLiteral? == t.HexLiteral?
    ensures s.StringLiteral? == t.StringLiteral? && s.Length? == t.Length?
  {
  }

  lemma StringBodyUnique(a: string, x: string, b: string, y: string)
    requires "\"" + Escaped(a) + "\")" + x == "\"" + Escaped(b) + "\")" + y
    ensures a == b && x == y
  {
    hide Escaped;
    Assoc4("\"", Escaped(a), "\")", x);
    Assoc4("\"", Escaped(b), "\")", y);
    var s, t := Escaped(a) + ("\")" + x), Escaped(b) + ("\")" + y);
    assert ("\"" + s)[1..] == s && ("\"" + t)[1..] == t;
    assert "\")" + x == "\"" + (")" + x) && "\")" + y == "\"" + (")" + y);
    EscapedUnique(a, ")" + x, b, ")" + y);
    assert (")" + x)[1..] == x && (")" + y)[1..] == y;
  }

  lemma LengthBodyUnique(a: string, x: string, b: string, y: string)
    requires NoStop(a) && NoStop(b)
    requires "length,identifier(" + a + "))" + x == "length,identifier(" + b + "))" + y
    ensures a == b && x == y
  {
    var k := "length,identifier(";
    var s, t := k + a + "))" + x, k + b + "))" + y;
    assert s[|k|..] == a + ")" + (")" + x) && t[|k|..] == b + ")" + (")" + y);
    ClosedUnique(a, ")" + x, b, ")" + y);
    assert (")" + x)[1..] == x && (")" + y)[1..] == y;
  }

  function AtomKeyword(a: Atom): string {
    match a
    case NullTest(_, negated) => if negated then "notnull" else "isnull"
    case Between(_, _, _) => "between"
    case Compare(_, _, _) => "compare"
    case In(_, _) => "in"
  }

  function AtomBody(a: Atom): string
    requires !a.In?
  {
    match a
    case NullTest(operand, _) => PrintScalar(operand) + ")"
    case Between(operand, low, high) =>
      PrintScalar(operand) + "," + PrintScalar(low) + "," + PrintScalar(high) + ")"
    case Compare(op, left, right) => op + "," + PrintScalar(left) + "," + PrintScalar(right) + ")"
  }

  predicate PlainAtom(a: Atom) {
    match a
    case NullTest(operand, _) => PlainScalar(operand)
    case Between(operand, low, high) => PlainScalar(operand) && PlainScalar(low) && PlainScalar(high)
    case Compare(op, left, right) => NoStop(op) && PlainScalar(left) && PlainScalar(right)
    case In(_, _) => false
  }

  function PrintAtom(a: Atom): string
    requires !a.In?
  {
    AtomKeyword(a) + "(" + AtomBody(a)
  }

  /** Trees the response parser builds: no IN lists, no empty chains. */
  predicate Plain(t: Tree) {
    match t
    case Leaf(atom) => PlainAtom(atom)
    case Not(child) => Plain(child)
    case And(children) => children != [] && forall child | child in children :: Plain(child)
    case Or(children) => children != [] && forall child | child in children :: Plain(child)
  }

  function Keyword(t: Tree): string {
    match t
    case Leaf(atom) => AtomKeyword(atom)
    case Not(_) => "not"
    case And(_) => "and"
    case Or(_) => "or"
  }

  function Body(t: Tree): string
    requires Plain(t)
    decreases t, 0
  {
    match t
    case Leaf(atom) => AtomBody(atom)
    case Not(child) => Print(child) + ")"
    case And(children) => PrintList(children) + ")"
    case Or(children) => PrintList(children) + ")"
  }

  function Print(t: Tree): string
    requires Plain(t)
    decreases t, 1
  {
    Keyword(t) + "(" + Body(t)
  }

  /** strings.Join of the printed children with commas. */
  function PrintList(ts: seq<Tree>): string
    requires forall t | t in ts :: Plain(t)
    decreases ts, 2
  {
    if ts == [] then "" else if |ts| == 1 then Print(ts[0]) else Print(ts[0]) + "," + PrintList(ts[1..])
  }

  lemma ScalarThen(s: Scalar, d: char, x: string, t: Scalar, e: char, y: string)
    requires PlainScalar(s) && PlainScalar(t) && PrintScalar(s) + ([d] + x) == PrintScalar(t) + ([e] + y)
    ensures s == t && d == e && x == y
  {
    ScalarUnique(s, [d] + x, t, [e] + y);
    assert ([d] + x)[0] == d && ([e] + y)[0] == e && ([d] + x)[1..] == x && ([e] + y)[1..] == y;
  }

  /** A text, then scalars separated by commas, then a closing bracket. */
  function PrintScalars(scalars: seq<Scalar>, x: string): string {
    if scalars == [] then x
    else PrintScalar(scalars[0]) + ((if |scalars| == 1 then ")" else ",") + PrintScalars(scalars[1..], x))
  }

  lemma {:induction false} ScalarsUnique(a: seq<Scalar>, x: string, b: seq<Scalar>, y: string)
    requires |a| == |b| && (forall s | s in a :: PlainScalar(s)) && (forall s | s in b :: PlainScalar(s))
    requires PrintScalars(a, x) == PrintScalars(b, y)
    ensures a == b && x == y
    decreases |a|
  {
    if a != [] {
      hide PrintScalar, PlainScalar;
      var d := if |a| == 1 then ')' else ',';
      ScalarThen(a[0], d, PrintScalars(a[1..], x), b[0], d, PrintScalars(b[1..], y));
      ScalarsUnique(a[1..], x, b[1..], y);
      assert a == [a[0]] + a[1..] && b == [b[0]] + b[1..];
    }
  }

  function AtomScalars(a: Atom): seq<Scalar> {
    match a
    case NullTest(operand, _) => [operand]
    case Between(operand, low, high) => [operand, low, high]
    case Compare(_, left, right) => [left, right]
    case In(_, _) => []
  }

  lemma OneScalar(s: Scalar, x: string)
    ensures PrintScalar(s) + ")" + x == PrintScalars([s], x)
  {
  }

  lemma TwoScalars(s: Scalar, t: Scalar, x: string)
    ensures PrintScalar(s) + "," + PrintScalar(t) + ")" + x == PrintScalars([s, t], x)
  {
    hide PrintScalar;
    OneScalar(t, x);
    assert [s, t][1..] == [t];
    Assoc4(PrintScalar(s) + ",", PrintScalar(t), ")", x);
    Assoc(PrintScalar(t), ")", x);
    Assoc(PrintScalar(s), ",", PrintScalar(t) + ")" + x);
  }

  lemma ThreeScalars(s: Scalar, t: Scalar, u: Scalar, x: string)
    ensures PrintScalar(s) + "," + PrintScalar(t) + "," + PrintScalar(u) + ")" + x == PrintScalars([s, t, u], x)
  {
    hide PrintScalar;
    TwoScalars(t, u, x);
    assert [s, t, u][1..] == [t, u];
    Regroup(PrintScalar(s), PrintScalar(t), PrintScalar(u), x);
  }

  lemma Regroup(a: string, b: string, c: string, x: string)
    ensures a + "," + b + "," + c + ")" + x == a + ("," + (b + "," + c + ")" + x))
  {
  }

  lemma AtomBodyScalars(a: Atom, x: string)
    requires PlainAtom(a)
    ensures AtomBody(a) + x ==
            (if a.Compare? then a.op + ("," + PrintScalars(AtomScalars(a), x)) else PrintScalars(AtomScalars(a), x))
  {
    hide PrintScalars, PrintScalar;
    match a
    case NullTest(s, _) => OneScalar(s, x);
    case Between(s, l, h) => ThreeScalars(s, l, h, x);
    case Compare(op, l, r) =>
      TwoScalars(l, r, x);
      assert AtomBody(a) + x == op + ("," + (PrintScalar(l) + "," + PrintScalar(r) + ")" + x));
  }

  lemma AtomBodyUnique(a: Atom, x: string, b: Atom, y: string)
    requires PlainAtom(a) && PlainAtom(b) && AtomKeyword(a) == AtomKeyword(b) && AtomBody(a) + x == AtomBody(b) + y
    ensures a == b && x == y
  {
    assert AtomKeyword(a)[0] == AtomKeyword(b)[0];
    hide PrintScalar, PlainScalar, PrintScalars, AtomBody;
    AtomBodyScalars(a, x);
    AtomBodyScalars(b, y);
    if a.Compare? { Cut(a.op, ',', PrintScalars(AtomScalars(a), x), b.op, ',', PrintScalars(AtomScalars(b), y)); }
    ScalarsUnique(AtomScalars(a), x, AtomScalars(b), y);
    AtomFromScalars(a, b);
  }

  lemma AtomFromScalars(a: Atom, b: Atom)
    requires !a.In? && !b.In? && AtomKeyword(a) == AtomKeyword(b) && AtomScalars(a) == AtomScalars(b)
    requires a.Compare? && b.Compare? ==> a.op == b.op
    ensures a == b
  {
  }

  lemma KeywordsDiffer(t: Tree, u: Tree)
    requires Plain(t) && Plain(u) && Keyword(t) == Keyword(u)
    ensures t.Leaf? == u.Leaf? && t.Not? == u.Not? && t.And? == u.And? && t.Or? == u.Or?
    ensures t.Leaf? ==> AtomKeyword(t.atom) == AtomKeyword(u.atom)
    ensures NoStop(Keyword(t))
  {
  }

  lemma KeywordPlain(t: Tree)
    requires Plain(t)
    ensures NoStop(Keyword(t))
  {
  }

  /** A printed tree followed by anything can be read in one way only. */
  lemma {:induction false} PrintUnique(t: Tree, x: string, u: Tree, y: string)
    requires Plain(t) && Plain(u) && Print(t) + x == Print(u) + y
    ensures t == u && x == y
    decreases t, 0
  {
    KeywordPlain(t);
    KeywordPlain(u);
    KeywordUnique(Keyword(t), Body(t), x, Keyword(u), Body(u), y);
    KeywordsDiffer(t, u);
    match t {
      case Leaf(atom) => AtomBodyUnique(atom, x, u.atom, y);
      case Not(child) =>
        assert Body(t) + x == Print(child) + (")" + x) && Body(u) + y == Print(u.child) + (")" + y);
        PrintUnique(child, ")" + x, u.child, ")" + y);
        assert (")" + x)[1..] == x && (")" + y)[1..] == y;
      case And(children) => ListUnique(children, x, u.children, y);
      case Or(children) => ListUnique(children, x, u.children, y);
    }
  }

  /** What follows the first printed child of a chain. */
  function AfterFirst(ts: seq<Tree>, x: string): string
    requires ts != [] && forall t | t in ts :: Plain(t)
  {
    if |ts| == 1 then ")" + x else "," + (PrintList(ts[1..]) + ")" + x)
  }

  lemma FirstChild(ts: seq<Tree>, x: string)
    requires ts != [] && forall t | t in ts :: Plain(t)
    ensures PrintList(ts) + ")" + x == Print(ts[0]) + AfterFirst(ts, x)
  {
  }

  lemma AfterFirstUnique(ts: seq<Tree>, x: string, us: seq<Tree>, y: string)
    requires ts != [] && us != [] && (forall t | t in ts :: Plain(t)) && (forall u | u in us :: Plain(u))
    requires AfterFirst(ts, x) == AfterFirst(us, y)
    ensures |ts| == 1 <==> |us| == 1
    ensures if |ts| == 1 then x == y else PrintList(ts[1..]) + ")" + x == PrintList(us[1..]) + ")" + y
  {
    hide PrintList, Plain;
    assert AfterFirst(ts, x)[0] == AfterFirst(us, y)[0];
    assert AfterFirst(ts, x)[1..] == (if |ts| == 1 then x else PrintList(ts[1..]) + ")" + x);
    assert AfterFirst(us, y)[1..] == (if |us| == 1 then y else PrintList(us[1..]) + ")" + y);
  }

  lemma HeadAndTail<T>(a: seq<T>, b: seq<T>)
    requires a != [] && b != [] && a[0] == b[0] && a[1..] == b[1..]
    ensures a == b
  {
    assert a == [a[0]] + a[1..] && b == [b[0]] + b[1..];
  }

  lemma {:induction false} ListUnique(ts: seq<Tree>, x: string, us: seq<Tree>, y: string)
    requires ts != [] && us != [] && (forall t | t in ts :: Plain(t)) && (forall u | u in us :: Plain(u))
    requires PrintList(ts) + ")" + x == PrintList(us) + ")" + y
    ensures ts == us && x == y
    decreases ts, 1
  {
    hide PrintList, Plain, AfterFirst, Print;
    FirstChild(ts, x);
    FirstChild(us, y);
    PrintUnique(ts[0], AfterFirst(ts, x), us[0], AfterFirst(us, y));
    AfterFirstUnique(ts, x, us, y);
    if |ts| > 1 {
      ListUnique(ts[1..], x, us[1..], y);
    } else {
      assert ts[1..] == [] && us[1..] == [];
    }
    HeadAndTail(ts, us);
  }

  /** Equal canonical strings come from equal trees. */
  lemma PrintInjective(t: Tree, u: Tree)
    requires Plain(t) && Plain(u) && Print(t) == Print(u)
    ensures t == u
  {
    assert Print(t) + "" == Print(t) && Print(u) + "" == Print(u);
    PrintUnique(t, "", u, "");
  }
}
