/** JSON texts (section 2 of RFC 8259): their syntax with every space kept, how it
    is written, how the recursive skippers read it, and the proof that reading and
    writing are inverse. */
module JsonGrammar {
  import opened Prelude
  import opened JsonString
  import opened JsonNumber

  datatype Json =
    | Text(chars: seq<Char>)
    | Num(number: Number)
    | Word(word: string)
    | EmptyArray(gap: string)
    | Array(gap: string, items: Items)
    | EmptyObject(gap: string)
    | Object(gap: string, members: Members)

  /** Items with the space after each value and after each comma. */
  datatype Items = LastItem(value: Json, after: string) | Item(value: Json, after: string, next: string, rest: Items)

  datatype Member = Member(key: seq<Char>, before: string, between: string, value: Json, after: string)

  datatype Members = LastMember(member: Member) | MoreMembers(member: Member, next: string, rest: Members)

  predicate IsWord(w: string) {
    w == "true" || w == "false" || w == "null"
  }

  predicate JsonOk(v: Json) {
    match v
    case Text(chars) => CharsOk(chars)
    case Num(number) => NumberOk(number)
    case Word(word) => IsWord(word)
    case EmptyArray(gap) => Blank(gap)
    case Array(gap, items) => Blank(gap) && ItemsOk(items)
    case EmptyObject(gap) => Blank(gap)
    case Object(gap, members) => Blank(gap) && MembersOk(members)
  }

  predicate ItemsOk(items: Items) {
    JsonOk(items.value) && Blank(items.after) && (items.Item? ==> Blank(items.next) && ItemsOk(items.rest))
  }

  predicate MemberOk(m: Member) {
    CharsOk(m.key) && Blank(m.before) && Blank(m.between) && JsonOk(m.value) && Blank(m.after)
  }

  predicate MembersOk(members: Members) {
    MemberOk(members.member) && (members.MoreMembers? ==> Blank(members.next) && MembersOk(members.rest))
  }

  // ----- writing, each part followed by the text after it -----

  function WriteThen(v: Json, x: string): string {
    match v
    case Text(chars) => "\"" + (Spell(chars) + ("\"" + x))
    case Num(number) => WriteNumber(number) + x
    case Word(word) => word + x
    case EmptyArray(gap) => "[" + (gap + ("]" + x))
    case Array(gap, items) => "[" + (gap + WriteItems(items, x))
    case EmptyObject(gap) => "{" + (gap + ("}" + x))
    case Object(gap, members) => "{" + (gap + WriteMembers(members, x))
  }

  function WriteItems(items: Items, x: string): string {
    match items
    case LastItem(value, after) => WriteThen(value, after + ("]" + x))
    case Item(value, after, next, rest) => WriteThen(value, after + ("," + (next + WriteItems(rest, x))))
  }

  function WriteMember(m: Member, x: string): string {
    "\"" + (Spell(m.key) + ("\"" + (m.before + (":" + (m.between + WriteThen(m.value, m.after + x))))))
  }

  function WriteMembers(members: Members, x: string): string {
    match members
    case LastMember(member) => WriteMember(member, "}" + x)
    case MoreMembers(member, next, rest) => WriteMember(member, "," + (next + WriteMembers(rest, x)))
  }

  // ----- reading -----

  function ReadWord(s: string, word: string): (r: Parsed<Json>)
    ensures r.Some? && word != "" ==> |r.value.1| < |s|
  {
    if |s| < |word| || s[..|word|] != word then None else Some((Word(word), s[|word|..]))
  }

  function ReadValue(s: string): (r: Parsed<Json>)
    ensures r.Some? ==> |r.value.1| < |s|
    decreases |s|, 0
  {
    if s == "" then None
    else if s[0] == '"' then
      var body := ReadBody(s[1..]);
      if body.None? then None else Some((Text(body.value.0), body.value.1))
    else if s[0] == '{' then ReadObject(s[1..])
    else if s[0] == '[' then ReadArray(s[1..])
    else if s[0] == 't' then ReadWord(s, "true")
    else if s[0] == 'f' then ReadWord(s, "false")
    else if s[0] == 'n' then ReadWord(s, "null")
    else
      var n := ReadNumber(s);
      if n.None? then None else Some((Num(n.value.0), n.value.1))
  }

  /** After the opening bracket. */
  function ReadArray(s: string): (r: Parsed<Json>)
    ensures r.Some? ==> |r.value.1| < |s|
    decreases |s|, 3
  {
    var (gap, t) := ReadSpace(s);
    if Starts(t, ']') then Some((EmptyArray(gap), t[1..])) else
    var items := ReadItems(t);
    if items.None? then None else Some((Array(gap, items.value.0), items.value.1))
  }

  function ReadItems(s: string): (r: Parsed<Items>)
    ensures r.Some? ==> |r.value.1| < |s|
    decreases |s|, 2
  {
    var value := ReadValue(s);
    if value.None? then None else
    var (after, t) := ReadSpace(value.value.1);
    if Starts(t, ']') then Some((LastItem(value.value.0, after), t[1..]))
    else if !Starts(t, ',') then None
    else
      var (next, u) := ReadSpace(t[1..]);
      var rest := ReadItems(u);
      if rest.None? then None else Some((Item(value.value.0, after, next, rest.value.0), rest.value.1))
  }

  /** After the opening brace. */
  function ReadObject(s: string): (r: Parsed<Json>)
    ensures r.Some? ==> |r.value.1| < |s|
    decreases |s|, 3
  {
    var (gap, t) := ReadSpace(s);
    if Starts(t, '}') then Some((EmptyObject(gap), t[1..])) else
    var members := ReadMembers(t);
    if members.None? then None else Some((Object(gap, members.value.0), members.value.1))
  }

  function ReadMembers(s: string): (r: Parsed<Members>)
    ensures r.Some? ==> |r.value.1| < |s|
    decreases |s|, 2
  {
    var member := ReadMember(s);
    if member.None? then None else
    var t := member.value.1;
    if Starts(t, '}') then Some((LastMember(member.value.0), t[1..]))
    else if !Starts(t, ',') then None
    else
      var (next, u) := ReadSpace(t[1..]);
      var rest := ReadMembers(u);
      if rest.None? then None else Some((MoreMembers(member.value.0, next, rest.value.0), rest.value.1))
  }

  /** A key, a colon and a value, with the spaces around them. */
  function ReadMember(s: string): (r: Parsed<Member>)
    ensures r.Some? ==> |r.value.1| < |s|
    decreases |s|, 1
  {
    if !Starts(s, '"') then None else
    var key := ReadBody(s[1..]);
    if key.None? then None else
    var (before, t) := ReadSpace(key.value.1);
    if !Starts(t, ':') then None else
    var (between, u) := ReadSpace(t[1..]);
    var value := ReadValue(u);
    if value.None? then None else
    var (after, w) := ReadSpace(value.value.1);
    Some((Member(key.value.0, before, between, value.value.0, after), w))
  }

  // ----- what is read is what was written -----

  lemma SimpleSound(s: string)
    requires s != "" && s[0] != '{' && s[0] != '[' && ReadValue(s).Some?
    ensures var r := ReadValue(s).value; JsonOk(r.0) && s == WriteThen(r.0, r.1)
  {
    hide ReadBody, ReadNumber, WriteNumber, NumberOk, CharOk;
    assert s == [s[0]] + s[1..];
    if s[0] == '"' {
      BodySound(s[1..]);
    } else if s[0] == 't' || s[0] == 'f' || s[0] == 'n' {
      var word := ReadValue(s).value.0.word;
      assert s == word + s[|word|..];
    } else {
      NumberSound(s);
    }
  }

  lemma {:induction false} ValueSound(s: string)
    requires ReadValue(s).Some?
    ensures var r := ReadValue(s).value; JsonOk(r.0) && s == WriteThen(r.0, r.1)
    decreases |s|, 0
  {
    if s[0] == '{' {
      assert s == "{" + s[1..];
      ObjectSound(s[1..]);
    } else if s[0] == '[' {
      assert s == "[" + s[1..];
      ArraySound(s[1..]);
    } else {
      SimpleSound(s);
    }
  }

  lemma {:induction false} ArraySound(s: string)
    requires ReadArray(s).Some?
    ensures var r := ReadArray(s).value; JsonOk(r.0) && "[" + s == WriteThen(r.0, r.1)
    decreases |s|, 3
  {
    hide Blank;
    var (gap, t) := ReadSpace(s);
    if Starts(t, ']') { assert t == "]" + t[1..]; } else { ItemsSound(t); }
  }

  lemma {:induction false} ItemsSound(s: string)
    requires ReadItems(s).Some?
    ensures var r := ReadItems(s).value; ItemsOk(r.0) && s == WriteItems(r.0, r.1)
    decreases |s|, 2
  {
    hide Blank, ReadValue, JsonOk, WriteThen;
    ValueSound(s);
    var value := ReadValue(s).value;
    var (after, t) := ReadSpace(value.1);
    assert t == [t[0]] + t[1..];
    if !Starts(t, ']') {
      var (next, u) := ReadSpace(t[1..]);
      ItemsSound(u);
    }
  }

  lemma {:induction false} ObjectSound(s: string)
    requires ReadObject(s).Some?
    ensures var r := ReadObject(s).value; JsonOk(r.0) && "{" + s == WriteThen(r.0, r.1)
    decreases |s|, 3
  {
    hide Blank;
    var (gap, t) := ReadSpace(s);
    if Starts(t, '}') { assert t == "}" + t[1..]; } else { MembersSound(t); }
  }

  lemma {:induction false} MembersSound(s: string)
    requires ReadMembers(s).Some?
    ensures var r := ReadMembers(s).value; MembersOk(r.0) && s == WriteMembers(r.0, r.1)
    decreases |s|, 2
  {
    hide Blank, ReadMember, MemberOk, WriteMember;
    MemberSound(s);
    var member := ReadMember(s).value;
    var t := member.1;
    assert t == [t[0]] + t[1..];
    if !Starts(t, '}') {
      var (next, u) := ReadSpace(t[1..]);
      MembersSound(u);
    }
  }

  lemma {:induction false} MemberSound(s: string)
    requires ReadMember(s).Some?
    ensures var r := ReadMember(s).value; MemberOk(r.0) && s == WriteMember(r.0, r.1) && !StartsBlank(r.1)
    decreases |s|, 1
  {
    hide Blank, ReadValue, JsonOk, WriteThen, CharOk, ReadBody, Spell;
    assert s == "\"" + s[1..];
    BodySound(s[1..]);
    var key := ReadBody(s[1..]).value;
    var (before, t) := ReadSpace(key.1);
    assert t == ":" + t[1..];
    var (between, u) := ReadSpace(t[1..]);
    ValueSound(u);
  }

  // ----- what was written is what is read -----

  lemma WordComplete(word: string, x: string)
    requires IsWord(word)
    ensures ReadValue(word + x) == Some((Word(word), x))
  {
  }

  lemma SimpleComplete(v: Json, x: string)
    requires JsonOk(v) && Ends(x) && (v.Text? || v.Num? || v.Word?)
    ensures ReadValue(WriteThen(v, x)) == Some((v, x)) && !StartsBlank(WriteThen(v, x))
  {
    hide ReadBody, ReadNumber, WriteNumber, NumberOk, CharOk;
    match v {
      case Text(chars) =>
        BodyComplete(chars, x);
        assert WriteThen(v, x)[1..] == Spell(chars) + ("\"" + x);
      case Num(number) =>
        NumberComplete(number, x);
        NumberStart(number);
        assert WriteThen(v, x)[0] == WriteNumber(number)[0];
      case Word(word) =>
        WordComplete(word, x);
        assert WriteThen(v, x)[0] == word[0];
    }
  }

  lemma {:induction false} ValueComplete(v: Json, x: string)
    requires JsonOk(v) && Ends(x)
    ensures ReadValue(WriteThen(v, x)) == Some((v, x)) && !StartsBlank(WriteThen(v, x))
    ensures WriteThen(v, x) != "" && WriteThen(v, x)[0] != ']'
    decreases v
  {
    hide ReadArray, ReadObject, Blank, Ends, WriteItems, WriteMembers;
    match v {
      case EmptyArray(gap) => ArrayComplete(v, x); assert WriteThen(v, x)[1..] == gap + ("]" + x);
      case Array(gap, items) => ArrayComplete(v, x); assert WriteThen(v, x)[1..] == gap + WriteItems(items, x);
      case EmptyObject(gap) => ObjectComplete(v, x); assert WriteThen(v, x)[1..] == gap + ("}" + x);
      case Object(gap, members) => ObjectComplete(v, x); assert WriteThen(v, x)[1..] == gap + WriteMembers(members, x);
      case _ => SimpleComplete(v, x); SimpleStart(v, x);
    }
  }

  lemma SimpleStart(v: Json, x: string)
    requires JsonOk(v) && (v.Text? || v.Num? || v.Word?)
    ensures WriteThen(v, x) != "" && WriteThen(v, x)[0] != ']' && WriteThen(v, x)[0] != '}'
  {
    hide CharOk;
    if v.Num? {
      NumberStart(v.number);
      hide NumberOk, WriteNumber;
      assert WriteThen(v, x)[0] == WriteNumber(v.number)[0];
    }
  }

  lemma {:induction false} ArrayComplete(v: Json, x: string)
    requires JsonOk(v) && (v.EmptyArray? || v.Array?)
    ensures ReadArray(if v.EmptyArray? then v.gap + ("]" + x) else v.gap + WriteItems(v.items, x)) == Some((v, x))
    decreases v, 0
  {
    hide ReadItems, Blank, WriteItems, ItemsOk;
    if v.EmptyArray? {
      SpaceExact(v.gap, "]" + x);
      assert ("]" + x)[1..] == x;
    } else {
      ItemsComplete(v.items, x);
      SpaceExact(v.gap, WriteItems(v.items, x));
    }
  }

  lemma {:induction false} ItemsComplete(items: Items, x: string)
    requires ItemsOk(items)
    ensures ReadItems(WriteItems(items, x)) == Some((items, x)) && !StartsBlank(WriteItems(items, x))
    ensures !Starts(WriteItems(items, x), ']')
    decreases items
  {
    hide ReadValue, Blank, WriteThen, JsonOk;
    var end := if items.LastItem? then "]" + x else "," + (items.next + WriteItems(items.rest, x));
    EndsAfterSpace(items.after, end);
    ValueComplete(items.value, items.after + end);
    SpaceExact(items.after, end);
    if items.LastItem? {
      assert end[1..] == x;
    } else {
      ItemsComplete(items.rest, x);
      assert end[1..] == items.next + WriteItems(items.rest, x);
      SpaceExact(items.next, WriteItems(items.rest, x));
    }
  }

  lemma {:induction false} ObjectComplete(v: Json, x: string)
    requires JsonOk(v) && (v.EmptyObject? || v.Object?)
    ensures ReadObject(if v.EmptyObject? then v.gap + ("}" + x) else v.gap + WriteMembers(v.members, x)) == Some((v, x))
    decreases v, 0
  {
    hide ReadMembers, Blank, WriteMembers, MembersOk;
    if v.EmptyObject? {
      SpaceExact(v.gap, "}" + x);
      assert ("}" + x)[1..] == x;
    } else {
      MembersComplete(v.members, x);
      SpaceExact(v.gap, WriteMembers(v.members, x));
    }
  }

  lemma {:induction false} MembersComplete(members: Members, x: string)
    requires MembersOk(members)
    ensures ReadMembers(WriteMembers(members, x)) == Some((members, x))
    ensures Starts(WriteMembers(members, x), '"')
    decreases members
  {
    hide ReadMember, Blank, WriteMember, MemberOk;
    var end := if members.LastMember? then "}" + x else "," + (members.next + WriteMembers(members.rest, x));
    MemberComplete(members.member, end);
    if members.LastMember? {
      assert end[1..] == x;
    } else {
      MembersComplete(members.rest, x);
      assert end[1..] == members.next + WriteMembers(members.rest, x);
      SpaceExact(members.next, WriteMembers(members.rest, x));
    }
  }

  lemma {:induction false} MemberComplete(m: Member, x: string)
    requires MemberOk(m) && (Starts(x, '}') || Starts(x, ','))
    ensures ReadMember(WriteMember(m, x)) == Some((m, x)) && Starts(WriteMember(m, x), '"')
    decreases m
  {
    hide ReadValue, Blank, WriteThen, JsonOk, ReadBody, CharOk, Spell;
    var t := m.between + WriteThen(m.value, m.after + x);
    var u := m.before + (":" + t);
    assert WriteMember(m, x)[1..] == Spell(m.key) + ("\"" + u);
    BodyComplete(m.key, u);
    SpaceExact(m.before, ":" + t);
    assert (":" + t)[1..] == t;
    EndsAfterSpace(m.after, x);
    ValueComplete(m.value, m.after + x);
    SpaceExact(m.between, WriteThen(m.value, m.after + x));
    SpaceExact(m.after, x);
  }

  lemma EndsAfterSpace(gap: string, x: string)
    requires Blank(gap) && Ends(x)
    ensures Ends(gap + x)
  {
  }

  // ----- whole documents -----

  /** A value with space before and after it and nothing else. */
  datatype Document = Document(lead: string, value: Json, trail: string)

  predicate DocumentOk(d: Document) {
    Blank(d.lead) && JsonOk(d.value) && Blank(d.trail)
  }

  function WriteDocument(d: Document): string {
    d.lead + WriteThen(d.value, d.trail)
  }

  function ReadDocument(s: string): Option<Document> {
    var (lead, t) := ReadSpace(s);
    var value := ReadValue(t);
    if value.None? then None else
    var (trail, u) := ReadSpace(value.value.1);
    if u != "" then None else Some(Document(lead, value.value.0, trail))
  }

  /** A text reads as a document exactly when it is what that document is written as. */
  lemma ReadIffWritten(s: string, d: Document)
    ensures ReadDocument(s) == Some(d) <==> DocumentOk(d) && s == WriteDocument(d)
  {
    hide ReadValue, WriteThen, JsonOk, Blank;
    if ReadDocument(s) == Some(d) {
      ValueSound(ReadSpace(s).1);
      assert d.trail + "" == d.trail;
    }
    if DocumentOk(d) && s == WriteDocument(d) {
      assert d.trail + "" == d.trail;
      EndsAfterSpace(d.trail, "");
      ValueComplete(d.value, d.trail);
      SpaceExact(d.lead, WriteThen(d.value, d.trail));
      SpaceExact(d.trail, "");
    }
  }

  /** The space that may surround a value: spaces, tabs, line feeds and carriage
      returns (section 2 of RFC 8259), and nothing else. */
  lemma SpaceAroundIff(lead: string, trail: string)
    ensures ReadDocument(lead + ("null" + trail)) == Some(Document(lead, Word("null"), trail)) <==>
            forall c | c in lead || c in trail :: c as int in {0x20, 0x09, 0x0A, 0x0D}
  {
    hide ReadDocument;
    ReadIffWritten(lead + ("null" + trail), Document(lead, Word("null"), trail));
  }

  /** A text is a whole number, without sign, fraction or exponent, exactly when it is one
      of the ten digits or several that do not begin with 0 (section 6). */
  lemma WholeNumberIff(first: char, more: string)
    ensures ReadDocument([first] + more) ==
              Some(Document("", Num(Number(false, [first] + more, None, None)), "")) <==>
            0x30 <= first as int <= 0x39 && (first == '0' ==> more == "") &&
            forall c | c in more :: 0x30 <= c as int <= 0x39
  {
    hide ReadDocument;
    var s := [first] + more;
    var n := Number(false, s, None, None);
    var d := Document("", Num(n), "");
    ReadIffWritten(s, d);
    assert forall c :: c in s <==> c == first || c in more;
    assert WriteNumber(n) == s && WriteDocument(d) == s;
    assert s[0] == first && |s| == 1 + |more|;
    if first == '0' && more == "" { assert s == "0"; }
    assert NumberOk(n) <==> DocumentOk(d);
    if Decimals(s) {
      forall c | c in more ensures 0x30 <= c as int <= 0x39 { assert c in s; }
      assert first in s;
    }
    if s == "0" { assert more == ""; }
  }
}
