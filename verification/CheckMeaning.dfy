/** What a CHECK predicate means: trees of atoms under SQL's three-valued logic. */
module CheckMeaning {
  datatype Truth = True | False | Unknown

  datatype Value = Null | Integer(n: nat) | Chars(text: string) | Bytes(hex: string)

  datatype Scalar =
    | Column(name: string)
    | Number(digits: string)
    | HexLiteral(digits: string)
    | StringLiteral(text: string)
    | Length(name: string)

  datatype Atom =
    | NullTest(operand: Scalar, negated: bool)
    | Between(operand: Scalar, low: Scalar, high: Scalar)
    | Compare(op: string, left: Scalar, right: Scalar)
    | In(operand: Scalar, values: seq<Scalar>)

  datatype Tree = Leaf(atom: Atom) | Not(child: Tree) | And(children: seq<Tree>) | Or(children: seq<Tree>)

  /** A row and the comparison rules of its columns: the column values, when a
      comparison of two non-null values holds, and the byte length of a value. */
  datatype Row = Row(column: string -> Value, holds: (string, Value, Value) -> bool, size: Value -> nat)

  function Digit(c: char): nat {
    if '0' <= c <= '9' then c as nat - '0' as nat else 0
  }

  function NatOf(digits: string): nat {
    if digits == "" then 0 else 10 * NatOf(digits[..|digits| - 1]) + Digit(digits[|digits| - 1])
  }

  function ScalarValue(s: Scalar, row: Row): Value {
    match s
    case Column(name) => row.column(name)
    case Number(digits) => Integer(NatOf(digits))
    case HexLiteral(digits) => Bytes(digits)
    case StringLiteral(text) => Chars(text)
    case Length(name) => if row.column(name).Null? then Null else Integer(row.size(row.column(name)))
  }

  function CompareValues(op: string, a: Value, b: Value, row: Row): Truth {
    if a.Null? || b.Null? then Unknown else if row.holds(op, a, b) then True else False
  }

  function Both(a: Truth, b: Truth): Truth {
    if a.False? || b.False? then False else if a.Unknown? || b.Unknown? then Unknown else True
  }

  function Either(a: Truth, b: Truth): Truth {
    if a.True? || b.True? then True else if a.Unknown? || b.Unknown? then Unknown else False
  }

  function Negated(a: Truth): Truth {
    if a.True? then False else if a.False? then True else Unknown
  }

  /** False, unknown and true in this order. */
  function Rank(a: Truth): nat {
    if a == False then 0 else if a == Unknown then 1 else 2
  }

  /** AND is the lesser, OR the greater of two truth values, and NOT turns the order round. */
  lemma TruthTables(a: Truth, b: Truth)
    ensures Rank(Both(a, b)) == if Rank(a) < Rank(b) then Rank(a) else Rank(b)
    ensures Rank(Either(a, b)) == if Rank(a) < Rank(b) then Rank(b) else Rank(a)
    ensures Rank(Negated(a)) == 2 - Rank(a)
  {
  }

  function AnyEqual(v: Value, values: seq<Scalar>, row: Row): Truth {
    if values == [] then False else
    Either(AnyEqual(v, values[..|values| - 1], row), CompareValues("=", v, ScalarValue(values[|values| - 1], row), row))
  }

  function EvalAtom(a: Atom, row: Row): Truth {
    match a
    case NullTest(operand, negated) => if ScalarValue(operand, row).Null? != negated then True else False
    case Between(operand, low, high) =>
      var v := ScalarValue(operand, row);
      Both(CompareValues(">=", v, ScalarValue(low, row), row), CompareValues("<=", v, ScalarValue(high, row), row))
    case Compare(op, left, right) => CompareValues(op, ScalarValue(left, row), ScalarValue(right, row), row)
    case In(operand, values) => AnyEqual(ScalarValue(operand, row), values, row)
  }

  function Eval(t: Tree, row: Row): Truth
    decreases t, 0
  {
    match t
    case Leaf(atom) => EvalAtom(atom, row)
    case Not(child) => Negated(Eval(child, row))
    case And(children) => EvalAll(children, row)
    case Or(children) => EvalAny(children, row)
  }

  function EvalAll(ts: seq<Tree>, row: Row): Truth
    decreases ts, 1
  {
    if ts == [] then True else Both(Eval(ts[0], row), EvalAll(ts[1..], row))
  }

  function EvalAny(ts: seq<Tree>, row: Row): Truth
    decreases ts, 1
  {
    if ts == [] then False else Either(Eval(ts[0], row), EvalAny(ts[1..], row))
  }

  lemma {:induction false} EvalAllConcat(a: seq<Tree>, b: seq<Tree>, row: Row)
    ensures EvalAll(a + b, row) == Both(EvalAll(a, row), EvalAll(b, row))
    decreases |a|
  {
    if a == [] {
      assert a + b == b;
    } else {
      assert (a + b)[1..] == a[1..] + b;
      EvalAllConcat(a[1..], b, row);
    }
  }

  lemma {:induction false} EvalAnyConcat(a: seq<Tree>, b: seq<Tree>, row: Row)
    ensures EvalAny(a + b, row) == Either(EvalAny(a, row), EvalAny(b, row))
    decreases |a|
  {
    if a == [] {
      assert a + b == b;
    } else {
      assert (a + b)[1..] == a[1..] + b;
      EvalAnyConcat(a[1..], b, row);
    }
  }

  // ----- numbers without leading zeros -----

  function TrimZeros(digits: string): string {
    if digits != "" && digits[0] == '0' then TrimZeros(digits[1..]) else digits
  }

  /** What the parsers print for a number token. */
  function PlainNumber(digits: string): string {
    if TrimZeros(digits) == "" then "0" else TrimZeros(digits)
  }

  lemma {:induction false} LeadingZero(digits: string)
    requires digits != "" && digits[0] == '0'
    ensures NatOf(digits) == NatOf(digits[1..])
    decreases |digits|
  {
    if |digits| > 1 {
      var n := |digits| - 1;
      LeadingZero(digits[..n]);
      assert digits[..n][1..] == digits[1..][..n - 1];
    }
  }

  /** Dropping leading zeros keeps the number. */
  lemma {:induction false} PlainNumberValue(digits: string)
    ensures NatOf(PlainNumber(digits)) == NatOf(digits)
    decreases |digits|
  {
    if digits != "" && digits[0] == '0' {
      LeadingZero(digits);
      PlainNumberValue(digits[1..]);
    } else if digits == "" {
      assert NatOf("0") == 10 * NatOf("") + 0;
    }
  }

  /** Decimal digits, at least one. */
  predicate Numeral(s: string) {
    s != "" && forall c | c in s :: '0' <= c <= '9'
  }

  /** A numeral without a leading zero, or 0 itself. */
  predicate Shortest(s: string) {
    Numeral(s) && (s[0] == '0' ==> |s| == 1)
  }

  lemma RestIsNumeral(s: string)
    requires Numeral(s) && |s| > 1
    ensures Numeral(s[1..])
  {
    forall c | c in s[1..] ensures '0' <= c <= '9' { assert c in s; }
  }

  lemma {:induction false} PlainIsShortest(digits: string)
    requires Numeral(digits)
    ensures Shortest(PlainNumber(digits))
    decreases |digits|
  {
    assert digits[0] in digits;
    if digits[0] == '0' && |digits| > 1 {
      RestIsNumeral(digits);
      PlainIsShortest(digits[1..]);
    } else if digits[0] == '0' {
      assert digits[1..] == "";
      assert TrimZeros(digits) == TrimZeros("") == "";
    }
  }

  lemma FrontIsNumeral(s: string)
    requires Numeral(s) && |s| > 1
    ensures Numeral(s[..|s| - 1]) && s[..|s| - 1][0] == s[0] && '0' <= s[|s| - 1] <= '9'
    ensures NatOf(s) == 10 * NatOf(s[..|s| - 1]) + (s[|s| - 1] as nat - '0' as nat)
  {
    var front := s[..|s| - 1];
    forall c | c in front ensures '0' <= c <= '9' { assert c in s; }
    assert s[|s| - 1] in s;
  }

  lemma {:induction false} Positive(s: string)
    requires Numeral(s) && s[0] != '0'
    ensures NatOf(s) >= 1 && (|s| > 1 ==> NatOf(s) >= 10)
    decreases |s|
  {
    if |s| > 1 {
      FrontIsNumeral(s);
      Positive(s[..|s| - 1]);
    } else {
      OneDigit(s);
    }
  }

  lemma OneDigit(s: string)
    requires Numeral(s) && |s| == 1
    ensures NatOf(s) == s[0] as nat - '0' as nat < 10
  {
    assert s[..0] == "" && s[0] in s;
  }

  lemma {:induction false} ShortestIsUnique(a: string, b: string)
    requires Shortest(a) && Shortest(b) && NatOf(a) == NatOf(b)
    ensures a == b
    decreases |a|
  {
    if |a| == 1 { OneDigit(a); } else { Positive(a); }
    if |b| == 1 { OneDigit(b); } else { Positive(b); }
    if |a| > 1 && |b| > 1 {
      var m, n := |a| - 1, |b| - 1;
      FrontIsNumeral(a);
      FrontIsNumeral(b);
      SameDigits(NatOf(a[..m]), a[m] as nat - '0' as nat, NatOf(b[..n]), b[n] as nat - '0' as nat);
      ShortestIsUnique(a[..m], b[..n]);
      assert a == a[..m] + [a[m]] && b == b[..n] + [b[n]];
    }
  }

  lemma SameDigits(p: nat, c: nat, q: nat, d: nat)
    requires 10 * p + c == 10 * q + d && c < 10 && d < 10
    ensures p == q && c == d
  {
  }

  /** Two numerals are printed alike exactly when they are the same number. */
  lemma PlainNumberIff(a: string, b: string)
    requires Numeral(a) && Numeral(b)
    ensures PlainNumber(a) == PlainNumber(b) <==> NatOf(a) == NatOf(b)
  {
    PlainNumberValue(a);
    PlainNumberValue(b);
    PlainIsShortest(a);
    PlainIsShortest(b);
    hide PlainNumber, NatOf;
    if NatOf(a) == NatOf(b) { ShortestIsUnique(PlainNumber(a), PlainNumber(b)); }
  }
}
