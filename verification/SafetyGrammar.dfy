/** The grammar of the safety CHECK clauses over bare string tokens: concrete
    syntax, its tokens, the parser as functions, and the proof that they are
    inverse to each other; then the tree the parser makes and its meaning. */
module SafetyGrammar {
  import opened Prelude
  import opened CheckLexer

  predicate IsNumber(s: string) {
    s != "" && forall c | c in s :: IsDigit(c)
  }

  /** Digits inside any number of brackets. */
  datatype NumberSyntax = Digits(text: string) | Bracketed(inner: NumberSyntax)

  datatype Primary =
    | Group(inner: OrSyntax)
    | IsNull(name: string, negated: bool)
    | OneOf(name: string, values: seq<NumberSyntax>)
    | BetweenNumbers(name: string, low: NumberSyntax, high: NumberSyntax)
    | CompareName(op: string, name: string, other: string)
    | CompareNumber(op: string, name: string, value: NumberSyntax)

  datatype AndSyntax = OnePrimary(first: Primary) | AndAlso(left: AndSyntax, right: Primary)

  datatype OrSyntax = OneAnd(first: AndSyntax) | OrElse(left: OrSyntax, right: AndSyntax)

  predicate NumberOk(n: NumberSyntax) {
    match n
    case Digits(text) => IsNumber(text)
    case Bracketed(inner) => NumberOk(inner)
  }

  predicate NumbersOk(ns: seq<NumberSyntax>) {
    forall n | n in ns :: NumberOk(n)
  }

  predicate PrimaryOk(p: Primary) {
    match p
    case Group(inner) => OrOk(inner)
    case IsNull(name, _) => IsIdentifier(name)
    case OneOf(name, values) => IsIdentifier(name) && values != [] && NumbersOk(values)
    case BetweenNumbers(name, low, high) => IsIdentifier(name) && NumberOk(low) && NumberOk(high)
    case CompareName(op, name, other) => IsComparison(op) && IsIdentifier(name) && IsIdentifier(other)
    case CompareNumber(op, name, value) => IsComparison(op) && IsIdentifier(name) && NumberOk(value)
  }

  predicate AndOk(a: AndSyntax) {
    match a
    case OnePrimary(first) => PrimaryOk(first)
    case AndAlso(left, right) => AndOk(left) && PrimaryOk(right)
  }

  predicate OrOk(o: OrSyntax) {
    match o
    case OneAnd(first) => AndOk(first)
    case OrElse(left, right) => OrOk(left) && AndOk(right)
  }

  // ----- writing -----

  function NumberTokens(n: NumberSyntax): seq<string> {
    match n
    case Digits(text) => [text]
    case Bracketed(inner) => ["("] + (NumberTokens(inner) + [")"])
  }

  function ListTokens(ns: seq<NumberSyntax>): seq<string>
    requires ns != []
  {
    if |ns| == 1 then NumberTokens(ns[0]) else NumberTokens(ns[0]) + ([","] + ListTokens(ns[1..]))
  }

  /** The tokens of a predicate after its column name. */
  function TailTokens(p: Primary): seq<string>
    requires !p.Group? && (p.OneOf? ==> p.values != [])
  {
    match p
    case IsNull(_, negated) => if negated then ["is", "not", "null"] else ["is", "null"]
    case OneOf(_, values) => ["in", "("] + (ListTokens(values) + [")"])
    case BetweenNumbers(_, low, high) => ["between"] + (NumberTokens(low) + (["and"] + NumberTokens(high)))
    case CompareName(op, _, other) => [op, other]
    case CompareNumber(op, _, value) => [op] + NumberTokens(value)
  }

  function PrimaryTokens(p: Primary): seq<string>
    requires PrimaryOk(p)
  {
    match p
    case Group(inner) => ["("] + (OrTokens(inner) + [")"])
    case _ => [p.name] + TailTokens(p)
  }

  function AndTokens(a: AndSyntax): seq<string>
    requires AndOk(a)
  {
    match a
    case OnePrimary(first) => PrimaryTokens(first)
    case AndAlso(left, right) => AndTokens(left) + (["and"] + PrimaryTokens(right))
  }

  function OrTokens(o: OrSyntax): seq<string>
    requires OrOk(o)
  {
    match o
    case OneAnd(first) => AndTokens(first)
    case OrElse(left, right) => OrTokens(left) + (["or"] + AndTokens(right))
  }

  // ----- reading -----

  predicate At(ts: seq<string>, t: string) {
    ts != [] && ts[0] == t
  }

  predicate AtName(ts: seq<string>) {
    ts != [] && IsIdentifier(ts[0])
  }

  type Parsed<T> = Option<(T, seq<string>)>

  function ParseNumber(ts: seq<string>): (r: Parsed<NumberSyntax>)
    ensures r.Some? ==> |r.value.1| < |ts|
    decreases |ts|
  {
    if At(ts, "(") then
      var inner := ParseNumber(ts[1..]);
      if inner.None? || !At(inner.value.1, ")") then None else Some((Bracketed(inner.value.0), inner.value.1[1..]))
    else if ts != [] && IsNumber(ts[0]) then Some((Digits(ts[0]), ts[1..]))
    else None
  }

  function ParseList(ts: seq<string>): (r: Parsed<seq<NumberSyntax>>)
    ensures r.Some? ==> |r.value.1| < |ts| && r.value.0 != []
    decreases |ts|
  {
    var first := ParseNumber(ts);
    if first.None? then None
    else if !At(first.value.1, ",") then Some(([first.value.0], first.value.1))
    else
      var more := ParseList(first.value.1[1..]);
      if more.None? then None else Some(([first.value.0] + more.value.0, more.value.1))
  }

  function ParseNull(name: string, ts: seq<string>): (r: Parsed<Primary>)
    ensures r.Some? ==> |r.value.1| < |ts|
  {
    var negated := At(ts, "not");
    var rest := if negated then ts[1..] else ts;
    if At(rest, "null") then Some((IsNull(name, negated), rest[1..])) else None
  }

  function ParseIn(name: string, ts: seq<string>): (r: Parsed<Primary>)
    ensures r.Some? ==> |r.value.1| < |ts|
  {
    if !At(ts, "(") then None else
    var values := ParseList(ts[1..]);
    if values.None? || !At(values.value.1, ")") then None else Some((OneOf(name, values.value.0), values.value.1[1..]))
  }

  function ParseBounds(name: string, ts: seq<string>): (r: Parsed<Primary>)
    ensures r.Some? ==> |r.value.1| < |ts|
  {
    var low := ParseNumber(ts);
    if low.None? || !At(low.value.1, "and") then None else
    var high := ParseNumber(low.value.1[1..]);
    if high.None? then None else Some((BetweenNumbers(name, low.value.0, high.value.0), high.value.1))
  }

  function ParseComparison(name: string, ts: seq<string>): (r: Parsed<Primary>)
    ensures r.Some? ==> |r.value.1| < |ts|
  {
    if ts == [] || !IsComparison(ts[0]) then None
    else if AtName(ts[1..]) then Some((CompareName(ts[0], name, ts[1]), ts[2..]))
    else
      var value := ParseNumber(ts[1..]);
      if value.None? then None else Some((CompareNumber(ts[0], name, value.value.0), value.value.1))
  }

  function ParseTail(name: string, ts: seq<string>): (r: Parsed<Primary>)
    ensures r.Some? ==> |r.value.1| < |ts|
  {
    if At(ts, "is") then ParseNull(name, ts[1..])
    else if At(ts, "in") then ParseIn(name, ts[1..])
    else if At(ts, "between") then ParseBounds(name, ts[1..])
    else ParseComparison(name, ts)
  }

  function ParsePrimary(ts: seq<string>): (r: Parsed<Primary>)
    ensures r.Some? ==> |r.value.1| < |ts|
    decreases |ts|, 0
  {
    if At(ts, "(") then
      var inner := ParseOr(ts[1..]);
      if inner.None? || !At(inner.value.1, ")") then None else Some((Group(inner.value.0), inner.value.1[1..]))
    else if AtName(ts) then ParseTail(ts[0], ts[1..])
    else None
  }

  function ParseAnd(ts: seq<string>): (r: Parsed<AndSyntax>)
    ensures r.Some? ==> |r.value.1| < |ts|
    decreases |ts|, 1
  {
    var first := ParsePrimary(ts);
    if first.None? then None else ParseAndMore(OnePrimary(first.value.0), first.value.1)
  }

  function ParseAndMore(left: AndSyntax, ts: seq<string>): (r: Parsed<AndSyntax>)
    ensures r.Some? ==> |r.value.1| <= |ts|
    decreases |ts|, 2
  {
    if !At(ts, "and") then Some((left, ts)) else
    var right := ParsePrimary(ts[1..]);
    if right.None? then None else ParseAndMore(AndAlso(left, right.value.0), right.value.1)
  }

  function ParseOr(ts: seq<string>): (r: Parsed<OrSyntax>)
    ensures r.Some? ==> |r.value.1| < |ts|
    decreases |ts|, 3
  {
    var first := ParseAnd(ts);
    if first.None? then None else ParseOrMore(OneAnd(first.value.0), first.value.1)
  }

  function ParseOrMore(left: OrSyntax, ts: seq<string>): (r: Parsed<OrSyntax>)
    ensures r.Some? ==> |r.value.1| <= |ts|
    decreases |ts|, 4
  {
    if !At(ts, "or") then Some((left, ts)) else
    var right := ParseAnd(ts[1..]);
    if right.None? then None else ParseOrMore(OrElse(left, right.value.0), right.value.1)
  }

  function ParseClause(ts: seq<string>): Option<OrSyntax> {
    var r := ParseOr(ts);
    if r.None? || r.value.1 != [] then None else Some(r.value.0)
  }

  // ----- what is read is what was written -----

  lemma {:induction false} NumberSound(ts: seq<string>)
    requires ParseNumber(ts).Some?
    ensures var r := ParseNumber(ts).value; NumberOk(r.0) && ts == NumberTokens(r.0) + r.1
    decreases |ts|
  {
    if At(ts, "(") {
      NumberSound(ts[1..]);
      var inner := ParseNumber(ts[1..]).value;
      assert ts == ["("] + ts[1..] && inner.1 == [")"] + inner.1[1..];
    } else {
      assert ts == [ts[0]] + ts[1..];
    }
  }

  lemma {:induction false} ListSound(ts: seq<string>)
    requires ParseList(ts).Some?
    ensures var r := ParseList(ts).value; NumbersOk(r.0) && ts == ListTokens(r.0) + r.1
    decreases |ts|
  {
    hide ParseNumber, NumberTokens, NumberOk;
    NumberSound(ts);
    var first := ParseNumber(ts).value;
    if At(first.1, ",") {
      ListSound(first.1[1..]);
      assert first.1 == [","] + first.1[1..];
    }
  }

  lemma NullSound(name: string, ts: seq<string>)
    requires IsIdentifier(name) && ParseNull(name, ts).Some?
    ensures var r := ParseNull(name, ts).value;
            !r.0.Group? && PrimaryOk(r.0) && r.0.name == name && ["is"] + ts == TailTokens(r.0) + r.1
  {
    hide IsIdentifier;
    var r := ParseNull(name, ts).value;
    assert ts == (if r.0.negated then ["not", "null"] else ["null"]) + r.1;
  }

  lemma InSound(name: string, ts: seq<string>)
    requires IsIdentifier(name) && ParseIn(name, ts).Some?
    ensures var r := ParseIn(name, ts).value;
            !r.0.Group? && PrimaryOk(r.0) && r.0.name == name && ["in"] + ts == TailTokens(r.0) + r.1
  {
    hide ParseList, ListTokens, NumberOk, IsIdentifier;
    ListSound(ts[1..]);
    var values := ParseList(ts[1..]).value;
    assert ts == ["("] + ts[1..] && values.1 == [")"] + values.1[1..];
    RegroupIn(ListTokens(values.0), values.1[1..]);
  }

  lemma RegroupIn(a: seq<string>, rest: seq<string>)
    ensures ["in"] + (["("] + (a + ([")"] + rest))) == ["in", "("] + (a + [")"]) + rest
  {
  }

  lemma BoundsSound(name: string, ts: seq<string>)
    requires IsIdentifier(name) && ParseBounds(name, ts).Some?
    ensures var r := ParseBounds(name, ts).value;
            !r.0.Group? && PrimaryOk(r.0) && r.0.name == name && ["between"] + ts == TailTokens(r.0) + r.1
  {
    hide ParseNumber, NumberTokens, NumberOk, IsIdentifier;
    NumberSound(ts);
    var low := ParseNumber(ts).value;
    NumberSound(low.1[1..]);
    var high := ParseNumber(low.1[1..]).value;
    assert low.1 == ["and"] + low.1[1..];
    RegroupBounds(NumberTokens(low.0), NumberTokens(high.0), high.1);
  }

  lemma RegroupBounds(a: seq<string>, b: seq<string>, rest: seq<string>)
    ensures ["between"] + (a + (["and"] + (b + rest))) == ["between"] + (a + (["and"] + b)) + rest
  {
  }

  lemma ComparisonSound(name: string, ts: seq<string>)
    requires IsIdentifier(name) && ParseComparison(name, ts).Some?
    ensures var r := ParseComparison(name, ts).value;
            !r.0.Group? && PrimaryOk(r.0) && r.0.name == name && ts == TailTokens(r.0) + r.1
  {
    hide ParseNumber, NumberTokens, NumberOk, IsIdentifier, IsComparison;
    if AtName(ts[1..]) {
      assert ts == [ts[0], ts[1]] + ts[2..];
    } else {
      NumberSound(ts[1..]);
      assert ts == [ts[0]] + ts[1..];
    }
  }

  lemma TailSound(name: string, ts: seq<string>)
    requires IsIdentifier(name) && ParseTail(name, ts).Some?
    ensures var r := ParseTail(name, ts).value;
            !r.0.Group? && PrimaryOk(r.0) && r.0.name == name && ts == TailTokens(r.0) + r.1
  {
    hide ParseNull, ParseIn, ParseBounds, ParseComparison, TailTokens, PrimaryOk, IsIdentifier;
    if At(ts, "is") { NullSound(name, ts[1..]); }
    else if At(ts, "in") { InSound(name, ts[1..]); }
    else if At(ts, "between") { BoundsSound(name, ts[1..]); }
    else { ComparisonSound(name, ts); }
    assert ts == [ts[0]] + ts[1..];
  }

  lemma {:induction false} PrimarySound(ts: seq<string>)
    requires ParsePrimary(ts).Some?
    ensures var r := ParsePrimary(ts).value; PrimaryOk(r.0) && ts == PrimaryTokens(r.0) + r.1
    decreases |ts|, 0
  {
    hide ParseTail, TailTokens, IsIdentifier;
    assert ts == [ts[0]] + ts[1..];
    if At(ts, "(") {
      OrSound(ts[1..]);
      var inner := ParseOr(ts[1..]).value;
      assert inner.1 == [")"] + inner.1[1..];
    } else {
      TailSound(ts[0], ts[1..]);
    }
  }

  lemma {:induction false} AndSound(ts: seq<string>)
    requires ParseAnd(ts).Some?
    ensures var r := ParseAnd(ts).value; AndOk(r.0) && ts == AndTokens(r.0) + r.1
    decreases |ts|, 1
  {
    hide ParsePrimary, PrimaryTokens, PrimaryOk;
    PrimarySound(ts);
    var first := ParsePrimary(ts).value;
    AndMoreSound(OnePrimary(first.0), first.1);
  }

  lemma {:induction false} AndMoreSound(left: AndSyntax, ts: seq<string>)
    requires AndOk(left) && ParseAndMore(left, ts).Some?
    ensures var r := ParseAndMore(left, ts).value; AndOk(r.0) && AndTokens(left) + ts == AndTokens(r.0) + r.1
    decreases |ts|, 2
  {
    hide ParsePrimary, PrimaryTokens, PrimaryOk;
    if At(ts, "and") {
      PrimarySound(ts[1..]);
      var right := ParsePrimary(ts[1..]).value;
      assert ts == ["and"] + (PrimaryTokens(right.0) + right.1);
      assert AndTokens(left) + ts == AndTokens(AndAlso(left, right.0)) + right.1;
      AndMoreSound(AndAlso(left, right.0), right.1);
    }
  }

  lemma {:induction false} OrSound(ts: seq<string>)
    requires ParseOr(ts).Some?
    ensures var r := ParseOr(ts).value; OrOk(r.0) && ts == OrTokens(r.0) + r.1
    decreases |ts|, 3
  {
    hide ParseAnd, AndTokens, AndOk;
    AndSound(ts);
    var first := ParseAnd(ts).value;
    OrMoreSound(OneAnd(first.0), first.1);
  }

  lemma {:induction false} OrMoreSound(left: OrSyntax, ts: seq<string>)
    requires OrOk(left) && ParseOrMore(left, ts).Some?
    ensures var r := ParseOrMore(left, ts).value; OrOk(r.0) && OrTokens(left) + ts == OrTokens(r.0) + r.1
    decreases |ts|, 4
  {
    hide ParseAnd, AndTokens, AndOk;
    if At(ts, "or") {
      AndSound(ts[1..]);
      var right := ParseAnd(ts[1..]).value;
      assert ts == ["or"] + (AndTokens(right.0) + right.1);
      assert OrTokens(left) + ts == OrTokens(OrElse(left, right.0)) + right.1;
      OrMoreSound(OrElse(left, right.0), right.1);
    }
  }

  // ----- what was written is what is read -----

  lemma NumbersAreNoNames(s: string)
    requires IsNumber(s) || s == "("
    ensures !IsIdentifier(s) && (IsNumber(s) ==> s != "(")
  {
    if IsNumber(s) { assert s[0] in s; }
  }

  lemma {:induction false} NumberComplete(n: NumberSyntax, rest: seq<string>)
    requires NumberOk(n)
    ensures ParseNumber(NumberTokens(n) + rest) == Some((n, rest))
    ensures !AtName(NumberTokens(n) + rest)
    decreases n
  {
    hide IsIdentifier, IsNumber;
    var ts := NumberTokens(n) + rest;
    NumbersAreNoNames(ts[0]);
    if n.Bracketed? {
      NumberComplete(n.inner, [")"] + rest);
      assert ts[1..] == NumberTokens(n.inner) + ([")"] + rest) && ([")"] + rest)[1..] == rest;
    } else {
      assert ts[1..] == rest;
    }
  }

  lemma {:induction false} ListComplete(ns: seq<NumberSyntax>, rest: seq<string>)
    requires ns != [] && NumbersOk(ns) && !At(rest, ",")
    ensures ParseList(ListTokens(ns) + rest) == Some((ns, rest))
    decreases |ns|
  {
    hide ParseNumber, NumberTokens, NumberOk;
    if |ns| == 1 {
      NumberComplete(ns[0], rest);
      assert ns == [ns[0]];
    } else {
      var tail := ListTokens(ns[1..]);
      var more := [","] + (tail + rest);
      NumberComplete(ns[0], more);
      ListComplete(ns[1..], rest);
      Assoc4(NumberTokens(ns[0]), [","], tail, rest);
      assert more[1..] == tail + rest && ns == [ns[0]] + ns[1..];
    }
  }

  lemma NullComplete(p: Primary, rest: seq<string>)
    requires p.IsNull?
    ensures ParseTail(p.name, TailTokens(p) + rest) == Some((p, rest))
  {
    var ts := TailTokens(p) + rest;
    if p.negated {
      assert ts[1..] == ["not", "null"] + rest && ts[1..][1..] == ["null"] + rest;
    } else {
      assert ts[1..] == ["null"] + rest;
    }
    assert (["null"] + rest)[1..] == rest;
  }

  lemma InComplete(p: Primary, rest: seq<string>)
    requires p.OneOf? && PrimaryOk(p)
    ensures ParseTail(p.name, TailTokens(p) + rest) == Some((p, rest))
  {
    hide ParseList, ListTokens, NumberOk, ParseNull, ParseBounds, ParseComparison;
    var ts, last := TailTokens(p) + rest, [")"] + rest;
    ListComplete(p.values, last);
    assert ts[1..] == ["("] + (ListTokens(p.values) + last);
    assert ts[1..][1..] == ListTokens(p.values) + last && last[1..] == rest;
  }

  lemma BoundsComplete(p: Primary, rest: seq<string>)
    requires p.BetweenNumbers? && PrimaryOk(p)
    ensures ParseTail(p.name, TailTokens(p) + rest) == Some((p, rest))
  {
    hide ParseNumber, NumberTokens, NumberOk, ParseNull, ParseIn, ParseComparison;
    var last := ["and"] + (NumberTokens(p.high) + rest);
    NumberComplete(p.low, last);
    NumberComplete(p.high, rest);
    assert (TailTokens(p) + rest)[1..] == NumberTokens(p.low) + last && last[1..] == NumberTokens(p.high) + rest;
  }

  lemma NoKeyword(op: string)
    requires IsComparison(op)
    ensures op != "is" && op != "in" && op != "between"
  {
  }

  lemma ComparisonComplete(p: Primary, rest: seq<string>)
    requires (p.CompareName? || p.CompareNumber?) && PrimaryOk(p)
    ensures ParseTail(p.name, TailTokens(p) + rest) == Some((p, rest))
  {
    hide ParseNumber, NumberTokens, NumberOk, ParseNull, ParseIn, ParseBounds, IsIdentifier, IsComparison;
    var ts := TailTokens(p) + rest;
    assert ts[0] == p.op;
    NoKeyword(p.op);
    if p.CompareName? {
      assert ts[1..][0] == p.other && ts[2..] == rest;
    } else {
      NumberComplete(p.value, rest);
      assert ts[1..] == NumberTokens(p.value) + rest;
    }
  }

  lemma TailComplete(p: Primary, rest: seq<string>)
    requires !p.Group? && PrimaryOk(p)
    ensures ParseTail(p.name, TailTokens(p) + rest) == Some((p, rest))
  {
    hide ParseTail, TailTokens, IsIdentifier, NumberOk;
    match p {
      case IsNull(_, _) => NullComplete(p, rest);
      case OneOf(_, _) => InComplete(p, rest);
      case BetweenNumbers(_, _, _) => BoundsComplete(p, rest);
      case CompareName(_, _, _) => ComparisonComplete(p, rest);
      case CompareNumber(_, _, _) => ComparisonComplete(p, rest);
    }
  }

  lemma {:induction false} PrimaryComplete(p: Primary, rest: seq<string>)
    requires PrimaryOk(p)
    ensures ParsePrimary(PrimaryTokens(p) + rest) == Some((p, rest))
    decreases p, 0
  {
    hide ParseTail, TailTokens;
    var ts := PrimaryTokens(p) + rest;
    if p.Group? {
      var after := [")"] + rest;
      OrComplete(p.inner, after);
      assert ts[1..] == OrTokens(p.inner) + after && after[1..] == rest;
    } else {
      TailComplete(p, rest);
      assert ts[0] == p.name && ts[1..] == TailTokens(p) + rest;
    }
  }

  lemma {:induction false} AndComplete(a: AndSyntax, rest: seq<string>)
    requires AndOk(a)
    ensures ParseAnd(AndTokens(a) + rest) == ParseAndMore(a, rest)
    decreases a, 1
  {
    hide ParsePrimary, PrimaryTokens, PrimaryOk;
    match a {
      case OnePrimary(first) => PrimaryComplete(first, rest);
      case AndAlso(left, right) =>
        var after := ["and"] + (PrimaryTokens(right) + rest);
        AndComplete(left, after);
        assert AndTokens(a) + rest == AndTokens(left) + after;
        PrimaryComplete(right, rest);
        assert after[1..] == PrimaryTokens(right) + rest;
    }
  }

  lemma {:induction false} OrCompleteMore(o: OrSyntax, rest: seq<string>)
    requires OrOk(o) && !At(rest, "and")
    ensures ParseOr(OrTokens(o) + rest) == ParseOrMore(o, rest)
    decreases o, 2
  {
    hide AndTokens, AndOk;
    match o {
      case OneAnd(first) => AndComplete(first, rest);
      case OrElse(left, right) =>
        var after := ["or"] + (AndTokens(right) + rest);
        OrCompleteMore(left, after);
        assert OrTokens(o) + rest == OrTokens(left) + after;
        AndComplete(right, rest);
        assert after[1..] == AndTokens(right) + rest;
    }
  }

  lemma {:induction false} OrComplete(o: OrSyntax, rest: seq<string>)
    requires OrOk(o) && !At(rest, "and") && !At(rest, "or")
    ensures ParseOr(OrTokens(o) + rest) == Some((o, rest))
    decreases o, 3
  {
    OrCompleteMore(o, rest);
  }

  /** A token list parses to a tree exactly when it is what that tree is written with. */
  lemma ParseIffWritten(ts: seq<string>, o: OrSyntax)
    ensures ParseClause(ts) == Some(o) <==> OrOk(o) && ts == OrTokens(o)
  {
    hide OrOk, OrTokens, ParseOr;
    if ParseClause(ts) == Some(o) {
      OrSound(ts);
      assert OrTokens(o) + [] == OrTokens(o);
    }
    if OrOk(o) && ts == OrTokens(o) {
      OrComplete(o, []);
      assert OrTokens(o) + [] == OrTokens(o);
    }
  }
}
