/** The whole-text string check of the edit request never rejects a document the
    skippers accept: in a document every quote opens a string they read. */
module JsonTokens {
  import opened Prelude
  import opened JsonString
  import opened JsonNumber
  import opened JsonGrammar
  import opened JsonStringScan

  predicate NoQuote(s: string) {
    '"' !in s
  }

  lemma {:induction false} PlainThen(a: string, x: string)
    requires NoQuote(a)
    ensures EveryTokenIsRead(a + x) == EveryTokenIsRead(x)
    decreases |a|
  {
    if a == "" {
      assert a + x == x;
    } else {
      assert a[0] in a && (a + x)[1..] == a[1..] + x;
      forall c | c in a[1..] ensures c in a {}
      PlainThen(a[1..], x);
    }
  }

  lemma QuotedThen(cs: seq<Char>, x: string)
    requires CharsOk(cs)
    ensures EveryTokenIsRead("\"" + (Spell(cs) + ("\"" + x))) == EveryTokenIsRead(x)
  {
    hide ReadBody, Spell, CharOk;
    BodyComplete(cs, x);
    var s := "\"" + (Spell(cs) + ("\"" + x));
    assert s[1..] == Spell(cs) + ("\"" + x);
  }

  lemma NumberHasNoQuote(n: Number)
    requires NumberOk(n)
    ensures NoQuote(WriteNumber(n))
  {
    assert '"' !in WriteFraction(n.fraction) && '"' !in WriteExponent(n.exponent) && '"' !in n.whole;
  }

  lemma BlankHasNoQuote(gap: string)
    requires Blank(gap)
    ensures NoQuote(gap)
  {
  }

  /** A mark, then blank space. */
  lemma MarkThen(mark: string, gap: string, x: string)
    requires NoQuote(mark) && Blank(gap)
    ensures EveryTokenIsRead(mark + (gap + x)) == EveryTokenIsRead(x)
  {
    hide EveryTokenIsRead;
    BlankHasNoQuote(gap);
    PlainThen(mark, gap + x);
    PlainThen(gap, x);
  }

  lemma {:induction false} ValueThen(v: Json, x: string)
    requires JsonOk(v)
    ensures EveryTokenIsRead(WriteThen(v, x)) == EveryTokenIsRead(x)
    decreases v
  {
    hide EveryTokenIsRead, Blank, Spell, CharsOk, WriteNumber, NumberOk;
    match v {
      case Text(chars) => QuotedThen(chars, x);
      case Num(number) => NumberHasNoQuote(number); PlainThen(WriteNumber(number), x);
      case Word(word) => PlainThen(word, x);
      case EmptyArray(gap) => MarkThen("[", gap, "]" + x); PlainThen("]", x);
      case Array(gap, items) => MarkThen("[", gap, WriteItems(items, x)); ItemsThen(items, x);
      case EmptyObject(gap) => MarkThen("{", gap, "}" + x); PlainThen("}", x);
      case Object(gap, members) => MarkThen("{", gap, WriteMembers(members, x)); MembersThen(members, x);
    }
  }

  lemma GapThen(gap: string, mark: string, x: string)
    requires Blank(gap) && NoQuote(mark)
    ensures EveryTokenIsRead(gap + (mark + x)) == EveryTokenIsRead(x)
  {
    hide EveryTokenIsRead;
    BlankHasNoQuote(gap);
    PlainThen(gap, mark + x);
    PlainThen(mark, x);
  }

  lemma {:induction false} ItemsThen(items: Items, x: string)
    requires ItemsOk(items)
    ensures EveryTokenIsRead(WriteItems(items, x)) == EveryTokenIsRead(x)
    decreases items
  {
    hide EveryTokenIsRead, Blank, JsonOk, WriteThen;
    match items {
      case LastItem(value, after) =>
        ValueThen(value, after + ("]" + x));
        GapThen(after, "]", x);
      case Item(value, after, next, rest) =>
        var t := WriteItems(rest, x);
        ValueThen(value, after + ("," + (next + t)));
        GapThen(after, ",", next + t);
        BlankHasNoQuote(next);
        PlainThen(next, t);
        ItemsThen(rest, x);
    }
  }

  lemma {:induction false} MemberThen(m: Member, x: string)
    requires MemberOk(m)
    ensures EveryTokenIsRead(WriteMember(m, x)) == EveryTokenIsRead(x)
    decreases m
  {
    hide EveryTokenIsRead, Blank, JsonOk, WriteThen, Spell, CharsOk;
    var value := WriteThen(m.value, m.after + x);
    QuotedThen(m.key, m.before + (":" + (m.between + value)));
    GapThen(m.before, ":", m.between + value);
    BlankHasNoQuote(m.between);
    PlainThen(m.between, value);
    ValueThen(m.value, m.after + x);
    BlankHasNoQuote(m.after);
    PlainThen(m.after, x);
  }

  lemma {:induction false} MembersThen(members: Members, x: string)
    requires MembersOk(members)
    ensures EveryTokenIsRead(WriteMembers(members, x)) == EveryTokenIsRead(x)
    decreases members
  {
    hide EveryTokenIsRead, Blank, MemberOk, WriteMember;
    match members {
      case LastMember(member) =>
        MemberThen(member, "}" + x);
        PlainThen("}", x);
      case MoreMembers(member, next, rest) =>
        var t := WriteMembers(rest, x);
        MemberThen(member, "," + (next + t));
        MarkThen(",", next, t);
        MembersThen(rest, x);
    }
  }

  /** Every document passes the check. */
  lemma DocumentsPass(raw: string)
    requires ReadDocument(raw).Some?
    ensures EveryTokenIsRead(raw)
  {
    hide ReadDocument, WriteThen, JsonOk, EveryTokenIsRead;
    var d := ReadDocument(raw).value;
    ReadIffWritten(raw, d);
    BlankHasNoQuote(d.lead);
    BlankHasNoQuote(d.trail);
    PlainThen(d.lead, WriteThen(d.value, d.trail));
    ValueThen(d.value, d.trail);
    PlainThen(d.trail, "");
    assert d.trail + "" == d.trail;
    NothingToRead();
  }

  lemma NothingToRead()
    ensures EveryTokenIsRead("")
  {
  }
}
