/** Spellings the response canonicalizer does not tell apart: the two length functions,
    and a string with or without its character set. */
module ResponseSpelling {
  import opened Prelude
  import opened CheckLexer
  import opened CheckPrint
  import opened ResponseGrammar
  import opened ResponseMeaning

  predicate SizeName(t: Token) {
    t == Ident("length") || t == Ident("octet_length")
  }

  predicate Introducer(t: Token) {
    t == Ident("_utf8mb4") || t == Ident("_ascii")
  }

  predicate Introduces(ts: seq<Token>) {
    |ts| > 1 && Introducer(ts[0]) && ts[1].Str?
  }

  /** The two lists differ only in which length function a call names and in whether a
      string is introduced. A name that does not introduce a string is left alone,
      together with what follows it. */
  predicate Same(ts: seq<Token>, us: seq<Token>)
    decreases |ts| + |us|
  {
    if Introduces(ts) then
      Same(ts[1..], us)
    else if Introduces(us) then
      Same(ts, us[1..])
    else if ts == [] || us == [] then ts == us
    else if Introducer(ts[0]) then
      ts[0] == us[0] && (|ts| == 1 <==> |us| == 1) &&
        (|ts| > 1 && |us| > 1 ==> ts[1] == us[1] && Same(ts[2..], us[2..]))
    else
      (ts[0] == us[0] || (SizeName(ts[0]) && SizeName(us[0]) && At(ts[1..], LParen) && At(us[1..], LParen)))
      && Same(ts[1..], us[1..])
  }

  lemma Head(ts: seq<Token>, us: seq<Token>, t: Token)
    requires Same(ts, us) && !Introducer(t) && !SizeName(t) && !t.Str?
    ensures At(ts, t) <==> At(us, t)
    ensures At(ts, t) ==> Same(ts[1..], us[1..])
  {
  }

  // ----- the parser takes the same steps on both -----

  /** The same verdict, the same scalar, and rests that are alike again. */
  predicate AlikeScalar(r: Parsed<ScalarSyntax>, q: Parsed<ScalarSyntax>) {
    (r.Some? <==> q.Some?) && (r.Some? ==> ScalarOf(r.value.0) == ScalarOf(q.value.0) && Same(r.value.1, q.value.1))
  }

  lemma {:induction false} ScalarAlike(ts: seq<Token>, us: seq<Token>)
    requires Same(ts, us)
    ensures AlikeScalar(ParseScalar(ts), ParseScalar(us))
    decreases |ts| + |us|
  {
    if Introduces(ts) {
      ScalarAlike(ts[1..], us);
      IntroducedScalar(ts);
    } else if Introduces(us) {
      ScalarAlike(ts, us[1..]);
      IntroducedScalar(us);
    } else if ts != [] && us != [] {
      if ts[0] == LParen {
        ScalarAlike(ts[1..], us[1..]);
        if ParseScalar(ts[1..]).Some? { Head(ParseScalar(ts[1..]).value.1, ParseScalar(us[1..]).value.1, RParen); }
      } else if ts[0].Ident? && !Introducer(ts[0]) {
        NameAlike(ts, us);
      }
    }
  }

  lemma IntroducedScalar(ts: seq<Token>)
    requires Introduces(ts)
    ensures ParseScalar(ts).Some? && ParseScalar(ts[1..]).Some?
    ensures ScalarOf(ParseScalar(ts).value.0) == ScalarOf(ParseScalar(ts[1..]).value.0)
    ensures ParseScalar(ts).value.1 == ParseScalar(ts[1..]).value.1 == ts[2..]
  {
  }

  lemma SameName(ts: seq<Token>, us: seq<Token>)
    requires Same(ts, us) && ts != [] && us != [] && ts[0].Ident? && us[0].Ident?
    requires !Introducer(ts[0]) && !Introducer(us[0])
    ensures Same(ts[1..], us[1..])
    ensures ts[0] == us[0] || (SizeName(ts[0]) && SizeName(us[0]) && At(ts[1..], LParen))
  {
  }

  lemma CallShape(ts: seq<Token>)
    requires ts != [] && ts[0].Ident? && At(ts[1..], LParen) && !Introducer(ts[0])
    ensures var rest := ts[1..][1..];
            if SizeName(ts[0]) && Closes(rest) && rest[0].text != "_utf8mb4" then
              ParseScalar(ts) == Some((LengthCall(ts[0].text, rest[0].text), rest[2..]))
            else ParseScalar(ts).None?
  {
    assert ts[1..][1..] == ts[2..];
  }

  /** A name, or a call of one of the two functions. */
  lemma NameAlike(ts: seq<Token>, us: seq<Token>)
    requires Same(ts, us) && ts != [] && us != [] && ts[0].Ident? && us[0].Ident?
    requires !Introducer(ts[0]) && !Introducer(us[0])
    ensures AlikeScalar(ParseScalar(ts), ParseScalar(us))
  {
    hide Same;
    SameName(ts, us);
    Head(ts[1..], us[1..], LParen);
    if At(ts[1..], LParen) {
      CallShape(ts);
      CallShape(us);
      ArgumentAlike(ts[1..][1..], us[1..][1..]);
    }
  }

  lemma StringHead(ts: seq<Token>, us: seq<Token>)
    requires Same(ts, us) && ts != [] && !Introduces(ts)
    ensures Introduces(us) ==> ts[0].Str?
  {
    if Introduces(us) {
      assert !Introduces(us[1..]) && us[1..][0].Str? && Same(ts, us[1..]);
    }
  }

  lemma ClosesAlike(ts: seq<Token>, us: seq<Token>)
    requires Same(ts, us) && Closes(ts)
    ensures Closes(us) && ts[0] == us[0] && Same(ts[2..], us[2..])
  {
    StringHead(ts, us);
    if !Introducer(ts[0]) {
      assert ts[1..][0] == RParen;
      Head(ts[1..], us[1..], RParen);
      assert ts[1..][1..] == ts[2..] && us[1..][1..] == us[2..];
    }
  }

  lemma {:induction false} SameIsSymmetric(ts: seq<Token>, us: seq<Token>)
    requires Same(ts, us)
    ensures Same(us, ts)
    decreases |ts| + |us|
  {
    if Introduces(ts) && Introduces(us) {
      assert !Introduces(ts[1..]) && !Introduces(us[1..]);
      SameIsSymmetric(ts[1..], us[1..]);
    } else if Introduces(ts) {
      SameIsSymmetric(ts[1..], us);
    } else if Introduces(us) {
      SameIsSymmetric(ts, us[1..]);
    } else if ts != [] && us != [] {
      if Introducer(ts[0]) {
        if |ts| > 1 && |us| > 1 { SameIsSymmetric(ts[2..], us[2..]); }
      } else {
        SameIsSymmetric(ts[1..], us[1..]);
      }
    }
  }

  /** The argument of a call and its closing bracket. */
  lemma ArgumentAlike(ts: seq<Token>, us: seq<Token>)
    requires Same(ts, us)
    ensures Closes(ts) <==> Closes(us)
    ensures Closes(ts) ==> ts[0] == us[0] && Same(ts[2..], us[2..])
  {
    if Closes(ts) { ClosesAlike(ts, us); }
    if Closes(us) { SameIsSymmetric(ts, us); ClosesAlike(us, ts); }
  }

  /** A name and a closing bracket. */
  predicate Closes(ts: seq<Token>) {
    |ts| >= 2 && ts[0].Ident? && ts[1] == RParen
  }

  predicate AlikePrimary(r: Parsed<Primary>, q: Parsed<Primary>) {
    (r.Some? <==> q.Some?) &&
      (r.Some? ==> PrimaryTree(r.value.0) == PrimaryTree(q.value.0) && Same(r.value.1, q.value.1))
  }

  predicate AlikeNot(r: Parsed<NotSyntax>, q: Parsed<NotSyntax>) {
    (r.Some? <==> q.Some?) && (r.Some? ==> NotTree(r.value.0) == NotTree(q.value.0) && Same(r.value.1, q.value.1))
  }

  predicate AlikeAnd(r: Parsed<AndSyntax>, q: Parsed<AndSyntax>) {
    (r.Some? <==> q.Some?) && (r.Some? ==> AndTree(r.value.0) == AndTree(q.value.0) && Same(r.value.1, q.value.1))
  }

  predicate AlikeOr(r: Parsed<OrSyntax>, q: Parsed<OrSyntax>) {
    (r.Some? <==> q.Some?) && (r.Some? ==> OrTree(r.value.0) == OrTree(q.value.0) && Same(r.value.1, q.value.1))
  }

  /** NULL or NOT NULL on both. */
  lemma NullWords(ts: seq<Token>, us: seq<Token>)
    requires Same(ts, us)
    ensures At(ts, Ident("not")) <==> At(us, Ident("not"))
    ensures At(ts, Ident("null")) <==> At(us, Ident("null"))
    ensures At(ts, Ident("null")) ==> Same(ts[1..], us[1..])
    ensures At(ts, Ident("not")) ==> (At(ts[1..], Ident("null")) <==> At(us[1..], Ident("null")))
    ensures At(ts, Ident("not")) && At(ts[1..], Ident("null")) ==> Same(ts[1..][1..], us[1..][1..])
  {
    hide Same;
    Head(ts, us, Ident("not"));
    Head(ts, us, Ident("null"));
    if At(ts, Ident("not")) { Head(ts[1..], us[1..], Ident("null")); }
  }

  lemma NullTailAlike(left: ScalarSyntax, other: ScalarSyntax, ts: seq<Token>, us: seq<Token>)
    requires ScalarOf(left) == ScalarOf(other) && Same(ts, us) && At(ts, Ident("is"))
    ensures AlikePrimary(ParseTail(left, ts), ParseTail(other, us))
  {
    hide Same, ScalarOf;
    Head(ts, us, Ident("is"));
    NullWords(ts[1..], us[1..]);
    var t, u := ts[1..], us[1..];
    if At(t, Ident("not")) { assert t[1..] == ts[2..] && u[1..] == us[2..]; }
  }

  /** The two bounds with AND between them. */
  function Bounds(ts: seq<Token>): Option<(ScalarSyntax, ScalarSyntax, seq<Token>)> {
    var low := ParseScalar(ts);
    if low.None? || !At(low.value.1, Ident("and")) then None else
    var high := ParseScalar(low.value.1[1..]);
    if high.None? then None else Some((low.value.0, high.value.0, high.value.1))
  }

  lemma BoundsAlike(ts: seq<Token>, us: seq<Token>)
    requires Same(ts, us)
    ensures var r, q := Bounds(ts), Bounds(us);
            && (r.Some? <==> q.Some?)
            && (r.Some? ==> ScalarOf(r.value.0) == ScalarOf(q.value.0) && ScalarOf(r.value.1) == ScalarOf(q.value.1)
                            && Same(r.value.2, q.value.2))
  {
    hide Same, ScalarOf, ParseScalar;
    ScalarAlike(ts, us);
    var low, low' := ParseScalar(ts), ParseScalar(us);
    if low.Some? {
      Head(low.value.1, low'.value.1, Ident("and"));
      if At(low.value.1, Ident("and")) { ScalarAlike(low.value.1[1..], low'.value.1[1..]); }
    }
  }

  lemma BetweenTailAlike(left: ScalarSyntax, other: ScalarSyntax, ts: seq<Token>, us: seq<Token>)
    requires ScalarOf(left) == ScalarOf(other) && Same(ts, us) && At(ts, Ident("between"))
    ensures AlikePrimary(ParseTail(left, ts), ParseTail(other, us))
  {
    hide Same, ScalarOf, ParseScalar;
    Head(ts, us, Ident("between"));
    BoundsAlike(ts[1..], us[1..]);
  }

  /** An operator is where the other list has it. */
  lemma OpHead(ts: seq<Token>, us: seq<Token>)
    requires Same(ts, us)
    ensures ts != [] && ts[0].Op? <==> us != [] && us[0].Op?
    ensures ts != [] && ts[0].Op? ==> ts[0] == us[0] && Same(ts[1..], us[1..])
  {
  }

  lemma CompareTailAlike(left: ScalarSyntax, other: ScalarSyntax, ts: seq<Token>, us: seq<Token>)
    requires ScalarOf(left) == ScalarOf(other) && Same(ts, us)
    requires !At(ts, Ident("is")) && !At(ts, Ident("between")) && !At(us, Ident("is")) && !At(us, Ident("between"))
    ensures AlikePrimary(ParseTail(left, ts), ParseTail(other, us))
  {
    hide Same, ScalarOf, ParseScalar;
    OpHead(ts, us);
    if ts != [] && ts[0].Op? { ScalarAlike(ts[1..], us[1..]); }
  }

  lemma TailAlike(left: ScalarSyntax, other: ScalarSyntax, ts: seq<Token>, us: seq<Token>)
    requires ScalarOf(left) == ScalarOf(other) && Same(ts, us)
    ensures AlikePrimary(ParseTail(left, ts), ParseTail(other, us))
  {
    hide Same, ScalarOf, ParseTail, PrimaryTree;
    Head(ts, us, Ident("is"));
    Head(ts, us, Ident("between"));
    if At(ts, Ident("is")) {
      NullTailAlike(left, other, ts, us);
    } else if At(ts, Ident("between")) {
      BetweenTailAlike(left, other, ts, us);
    } else {
      CompareTailAlike(left, other, ts, us);
    }
  }

  lemma {:induction false} PrimaryAlike(ts: seq<Token>, us: seq<Token>)
    requires Same(ts, us)
    ensures AlikePrimary(ParsePrimary(ts), ParsePrimary(us))
    decreases |ts|, 0
  {
    hide Same, ParseScalar, ParseTail, ScalarOf;
    Head(ts, us, LParen);
    if At(ts, LParen) {
      OrAlike(ts[1..], us[1..]);
      if ParseOr(ts[1..]).Some? { Head(ParseOr(ts[1..]).value.1, ParseOr(us[1..]).value.1, RParen); }
    } else {
      ScalarAlike(ts, us);
      var left, other := ParseScalar(ts), ParseScalar(us);
      if left.Some? { TailAlike(left.value.0, other.value.0, left.value.1, other.value.1); }
    }
  }

  lemma {:induction false} NotAlike(ts: seq<Token>, us: seq<Token>)
    requires Same(ts, us)
    ensures AlikeNot(ParseNot(ts), ParseNot(us))
    decreases |ts|, 1
  {
    hide Same, ParsePrimary, PrimaryTree;
    Head(ts, us, Ident("not"));
    if At(ts, Ident("not")) { NotAlike(ts[1..], us[1..]); } else { PrimaryAlike(ts, us); }
  }

  lemma {:induction false} AndAlike(ts: seq<Token>, us: seq<Token>)
    requires Same(ts, us)
    ensures AlikeAnd(ParseAnd(ts), ParseAnd(us))
    decreases |ts|, 2
  {
    hide Same, ParseNot, NotTree, ParseAndMore;
    NotAlike(ts, us);
    var first, other := ParseNot(ts), ParseNot(us);
    if first.Some? {
      assert AndTree(OneNot(first.value.0)) == AndTree(OneNot(other.value.0));
      AndMoreAlike(OneNot(first.value.0), OneNot(other.value.0), first.value.1, other.value.1);
    }
  }

  lemma {:induction false} AndMoreAlike(left: AndSyntax, other: AndSyntax, ts: seq<Token>, us: seq<Token>)
    requires AndTree(left) == AndTree(other) && Same(ts, us)
    ensures AlikeAnd(ParseAndMore(left, ts), ParseAndMore(other, us))
    decreases |ts|, 3
  {
    hide Same, ParseNot, NotTree;
    Head(ts, us, Ident("and"));
    if At(ts, Ident("and")) {
      NotAlike(ts[1..], us[1..]);
      var right, right' := ParseNot(ts[1..]), ParseNot(us[1..]);
      if right.Some? {
        var a, b := AndAlso(left, right.value.0), AndAlso(other, right'.value.0);
        assert AndTree(a) == AndTree(b);
        AndMoreAlike(a, b, right.value.1, right'.value.1);
      }
    }
  }

  lemma {:induction false} OrAlike(ts: seq<Token>, us: seq<Token>)
    requires Same(ts, us)
    ensures AlikeOr(ParseOr(ts), ParseOr(us))
    decreases |ts|, 4
  {
    hide Same, ParseAnd, AndTree, ParseOrMore;
    AndAlike(ts, us);
    var first, other := ParseAnd(ts), ParseAnd(us);
    if first.Some? {
      assert OrTree(OneAnd(first.value.0)) == OrTree(OneAnd(other.value.0));
      OrMoreAlike(OneAnd(first.value.0), OneAnd(other.value.0), first.value.1, other.value.1);
    }
  }

  lemma {:induction false} OrMoreAlike(left: OrSyntax, other: OrSyntax, ts: seq<Token>, us: seq<Token>)
    requires OrTree(left) == OrTree(other) && Same(ts, us)
    ensures AlikeOr(ParseOrMore(left, ts), ParseOrMore(other, us))
    decreases |ts|, 5
  {
    hide Same, ParseAnd, AndTree;
    Head(ts, us, Ident("or"));
    if At(ts, Ident("or")) {
      AndAlike(ts[1..], us[1..]);
      var right, right' := ParseAnd(ts[1..]), ParseAnd(us[1..]);
      if right.Some? {
        var a, b := OrElse(left, right.value.0), OrElse(other, right'.value.0);
        assert OrTree(a) == OrTree(b);
        OrMoreAlike(a, b, right.value.1, right'.value.1);
      }
    }
  }

  lemma EmptyAlike(ts: seq<Token>, us: seq<Token>)
    requires Same(ts, us)
    ensures ts == [] <==> us == []
  {
  }

  /** Clauses whose tokens are alike get the same verdict and the same canonical string. */
  lemma SameIsCanonical(a: string, b: string)
    requires Lex(Unescape(a)).Some? && Lex(Unescape(b)).Some?
    requires Same(Lex(Unescape(a)).value, Lex(Unescape(b)).value)
    ensures Canonical(a) == Canonical(b)
  {
    hide Lex, Unescape, Same, OrTree, Print, Plain, ParseOr;
    var ts, us := Lex(Unescape(a)).value, Lex(Unescape(b)).value;
    OrAlike(ts, us);
    if ParseOr(ts).Some? { EmptyAlike(ParseOr(ts).value.1, ParseOr(us).value.1); }
  }

  // ----- where a character set may stand -----

  /** Every character set name has a string or a closing bracket after it. */
  predicate Settled(ts: seq<Token>) {
    forall i | 0 <= i < |ts| :: Introducer(ts[i]) ==> i + 1 < |ts| && (ts[i + 1].Str? || ts[i + 1] == RParen)
  }

  lemma SettledJoin(a: seq<Token>, b: seq<Token>)
    requires Settled(a) && Settled(b)
    ensures Settled(a + b)
  {
  }

  lemma SettledOne(t: Token)
    requires !Introducer(t)
    ensures Settled([t])
  {
  }

  lemma {:induction false} ScalarSettled(s: ScalarSyntax)
    requires ScalarOk(s)
    ensures Settled(ScalarTokens(s))
    decreases s
  {
    if s.Parens? {
      ScalarSettled(s.inner);
      hide Settled;
      SettledOne(LParen);
      SettledOne(RParen);
      SettledJoin([LParen], ScalarTokens(s.inner));
      SettledJoin([LParen] + ScalarTokens(s.inner), [RParen]);
    }
  }

  lemma {:induction false} PrimarySettled(p: Primary)
    requires PrimaryOk(p)
    ensures Settled(PrimaryTokens(p))
    decreases p
  {
    hide ScalarTokens, ScalarOk, Settled;
    match p {
      case Group(inner) =>
        OrSettled(inner);
        SettledOne(LParen);
        SettledOne(RParen);
        SettledJoin([LParen], OrTokens(inner));
        SettledJoin([LParen] + OrTokens(inner), [RParen]);
      case IsNull(operand, negated) =>
        ScalarSettled(operand);
        NullSettled();
        SettledJoin(ScalarTokens(operand), if negated then [Ident("is"), Ident("not"), Ident("null")]
                                                      else [Ident("is"), Ident("null")]);
      case BetweenAnd(operand, low, high) =>
        ScalarSettled(operand);
        ScalarSettled(low);
        ScalarSettled(high);
        SettledOne(Ident("between"));
        SettledOne(Ident("and"));
        SettledJoin([Ident("and")], ScalarTokens(high));
        SettledJoin(ScalarTokens(low), [Ident("and")] + ScalarTokens(high));
        SettledJoin([Ident("between")], ScalarTokens(low) + ([Ident("and")] + ScalarTokens(high)));
        SettledJoin(ScalarTokens(operand),
          [Ident("between")] + (ScalarTokens(low) + ([Ident("and")] + ScalarTokens(high))));
      case Comparison(op, left, right) =>
        ScalarSettled(left);
        ScalarSettled(right);
        SettledOne(Op(op));
        SettledJoin([Op(op)], ScalarTokens(right));
        SettledJoin(ScalarTokens(left), [Op(op)] + ScalarTokens(right));
    }
  }

  lemma NullSettled()
    ensures Settled([Ident("is"), Ident("not"), Ident("null")]) && Settled([Ident("is"), Ident("null")])
  {
  }

  lemma {:induction false} NotSettled(n: NotSyntax)
    requires NotOk(n)
    ensures Settled(NotTokens(n))
    decreases n
  {
    hide PrimaryTokens, PrimaryOk, Settled;
    match n {
      case Negation(inner) =>
        NotSettled(inner);
        SettledOne(Ident("not"));
        SettledJoin([Ident("not")], NotTokens(inner));
      case Positive(primary) => PrimarySettled(primary);
    }
  }

  lemma {:induction false} AndSettled(a: AndSyntax)
    requires AndOk(a)
    ensures Settled(AndTokens(a))
    decreases a
  {
    hide NotTokens, NotOk, Settled;
    match a {
      case OneNot(first) => NotSettled(first);
      case AndAlso(left, right) =>
        AndSettled(left);
        NotSettled(right);
        SettledOne(Ident("and"));
        SettledJoin([Ident("and")], NotTokens(right));
        SettledJoin(AndTokens(left), [Ident("and")] + NotTokens(right));
    }
  }

  lemma {:induction false} OrSettled(o: OrSyntax)
    requires OrOk(o)
    ensures Settled(OrTokens(o))
    decreases o
  {
    hide AndTokens, AndOk, Settled;
    match o {
      case OneAnd(first) => AndSettled(first);
      case OrElse(left, right) =>
        OrSettled(left);
        AndSettled(right);
        SettledOne(Ident("or"));
        SettledJoin([Ident("or")], AndTokens(right));
        SettledJoin(OrTokens(left), [Ident("or")] + AndTokens(right));
    }
  }

  lemma ParsedIsSettled(ts: seq<Token>)
    ensures ParseClause(ts).Some? ==> Settled(ts)
  {
    hide ParseClause, OrTokens, OrOk, Settled;
    if ParseClause(ts).Some? {
      var o := ParseClause(ts).value;
      ParseIffWritten(ts, o);
      OrSettled(o);
    }
  }

  lemma NotSettledThere(before: seq<Token>, rest: seq<Token>)
    requires EndsInIntroducer(before) && (rest == [] || (!rest[0].Str? && rest[0] != RParen))
    ensures !Settled(before + rest)
  {
    var ts, n := before + rest, |before|;
    assert ts[n - 1] == before[n - 1] && (rest != [] ==> ts[n] == rest[0]);
  }

  /** A clause with a character set before anything but a string or a closing bracket,
      a second character set for one, is refused. */
  lemma StrayIntroducerIsRefused(clause: string, before: seq<Token>, rest: seq<Token>)
    requires Lex(Unescape(clause)) == Some(before + rest) && EndsInIntroducer(before)
    requires rest == [] || (!rest[0].Str? && rest[0] != RParen)
    ensures Canonical(clause).None?
  {
    hide Lex, Unescape, ParseClause, Print, OrTree, Plain, Settled;
    NotSettledThere(before, rest);
    ParsedIsSettled(before + rest);
  }

  // ----- one difference anywhere in a clause -----

  lemma {:induction false} SameAsItself(ts: seq<Token>)
    ensures Same(ts, ts)
    decreases |ts|
  {
    if Introduces(ts) {
      assert !Introduces(ts[1..]);
      SameAsItself(ts[1..]);
    } else if ts != [] {
      SameAsItself(ts[1..]);
      if |ts| > 1 { SameAsItself(ts[2..]); }
    }
  }

  predicate EndsInIntroducer(ts: seq<Token>) {
    ts != [] && Introducer(ts[|ts| - 1])
  }

  /** What comes before two lists that are alike keeps them so. */
  lemma {:induction false} SameAfter(before: seq<Token>, ts: seq<Token>, us: seq<Token>)
    requires Same(ts, us) && !EndsInIntroducer(before)
    ensures Same(before + ts, before + us)
    decreases |before|
  {
    if before == [] {
      assert before + ts == ts && before + us == us;
    } else {
      var t, u := before + ts, before + us;
      assert t[1..] == before[1..] + ts && u[1..] == before[1..] + us;
      if Introducer(before[0]) {
        assert t[2..] == before[2..] + ts && u[2..] == before[2..] + us;
        SameAfter(before[1..], ts, us);
        SameAfter(before[2..], ts, us);
        if Introduces(t) { assert !Introduces(t[1..]) && !Introduces(u[1..]); }
      } else {
        SameAfter(before[1..], ts, us);
      }
    }
  }

  lemma OtherName(f: Token, g: Token, after: seq<Token>)
    requires SizeName(f) && SizeName(g)
    ensures Same([f, LParen] + after, [g, LParen] + after)
  {
    SameAsItself([LParen] + after);
    assert ([f, LParen] + after)[1..] == [LParen] + after == ([g, LParen] + after)[1..];
    hide Same;
    NameStep(f, g, [LParen] + after);
    assert [f, LParen] + after == [f] + ([LParen] + after) && [g, LParen] + after == [g] + ([LParen] + after);
  }

  lemma NameStep(f: Token, g: Token, rest: seq<Token>)
    requires SizeName(f) && SizeName(g) && At(rest, LParen) && Same(rest, rest)
    ensures Same([f] + rest, [g] + rest)
  {
    assert ([f] + rest)[1..] == rest && ([g] + rest)[1..] == rest;
  }

  /** `length(` and `octet_length(`, in any letter case since the tokenizer drops it, may
      be exchanged anywhere in any text: neither the verdict nor the string changes. */
  lemma LengthNamesAreOne(a: string, b: string, before: seq<Token>, after: seq<Token>)
    requires Lex(Unescape(a)) == Some(before + ([Ident("length"), LParen] + after))
    requires Lex(Unescape(b)) == Some(before + ([Ident("octet_length"), LParen] + after))
    ensures Canonical(a) == Canonical(b)
  {
    hide Lex, Unescape, Canonical;
    OtherName(Ident("length"), Ident("octet_length"), after);
    if EndsInIntroducer(before) {
      StrayIntroducerIsRefused(a, before, [Ident("length"), LParen] + after);
      StrayIntroducerIsRefused(b, before, [Ident("octet_length"), LParen] + after);
    } else {
      SameAfter(before, [Ident("length"), LParen] + after, [Ident("octet_length"), LParen] + after);
      SameIsCanonical(a, b);
    }
  }

  /** A string may be introduced by either character set or by none, anywhere in any text,
      and neither the verdict nor the string changes, unless a character set already stands
      before it: the text with two is refused. */
  lemma IntroducerIsDropped(a: string, b: string, before: seq<Token>, charset: string, text: string,
      after: seq<Token>)
    requires charset == "_utf8mb4" || charset == "_ascii"
    requires Lex(Unescape(a)) == Some(before + ([Str(text)] + after))
    requires Lex(Unescape(b)) == Some(before + ([Ident(charset), Str(text)] + after))
    ensures Canonical(b) == if EndsInIntroducer(before) then None else Canonical(a)
  {
    hide Lex, Unescape, Canonical;
    if EndsInIntroducer(before) {
      StrayIntroducerIsRefused(b, before, [Ident(charset), Str(text)] + after);
    } else {
      var t, u := [Str(text)] + after, [Ident(charset), Str(text)] + after;
      SameAsItself(t);
      assert u[1..] == t && Introduces(u);
      IntroducedIsSame(t, u);
      SameAfter(before, t, u);
      SameIsCanonical(a, b);
    }
  }

  lemma IntroducedIsSame(t: seq<Token>, u: seq<Token>)
    requires Introduces(u) && u[1..] == t && Same(t, t)
    ensures Same(t, u)
  {
    assert !Introduces(t);
  }
}
