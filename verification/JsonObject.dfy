/** The two exact-object scanners as functions of the text: which documents they
    accept, that their results depend neither on member order nor on spacing, and
    when they agree with each other. */
module JsonObject {
  import opened Prelude
  import opened JsonString
  import opened JsonNumber
  import opened JsonGrammar
  import opened JsonDecode
  import Utf8

  function MemberList(members: Members): (ms: seq<Member>)
    ensures ms != []
  {
    match members
    case LastMember(member) => [member]
    case MoreMembers(member, _, rest) => [member] + MemberList(rest)
  }

  /** The bytes of a member's key as written, and of its value. */
  function NameOf(m: Member): string {
    Spell(m.key)
  }

  function ValueText(m: Member): string {
    WriteThen(m.value, "")
  }

  function Names(ms: seq<Member>): (names: seq<string>)
    ensures |names| == |ms|
  {
    seq(|ms|, i requires 0 <= i < |ms| => NameOf(ms[i]))
  }

  /** The key is written without escapes. */
  predicate Unescaped(m: Member) {
    '\\' !in NameOf(m)
  }

  /** Keys written plainly, all of them among `allowed`, none twice. */
  predicate Admissible(ms: seq<Member>, allowed: seq<string>) {
    (forall m | m in ms :: Unescaped(m) && NameOf(m) in allowed) && Distinct(Names(ms))
  }

  /** exactUserDeleteKeyIndex: the first position of the name, if any. */
  function KeyIndex(name: string, keys: seq<string>): (i: int)
    ensures -1 <= i < |keys|
    ensures i >= 0 ==> keys[i] == name && forall j | 0 <= j < i :: keys[j] != name
    ensures i < 0 <==> name !in keys
  {
    if keys == [] then -1
    else if keys[0] == name then 0
    else
      var i := KeyIndex(name, keys[1..]);
      assert keys == [keys[0]] + keys[1..];
      if i < 0 then -1 else i + 1
  }

  /** The text of the value of the first member with this name; empty when absent,
      as an unset slice is. */
  function Lookup(ms: seq<Member>, name: string): string {
    if ms == [] then "" else if NameOf(ms[0]) == name then ValueText(ms[0]) else Lookup(ms[1..], name)
  }

  /** What the scanners return for a key list. A repeated entry of the list is
      never filled, since a name always goes to its first position. */
  function Collected(ms: seq<Member>, keys: seq<string>): (values: seq<string>)
    ensures |values| == |keys|
  {
    seq(|keys|, k requires 0 <= k < |keys| => if KeyIndex(keys[k], keys) == k then Lookup(ms, keys[k]) else "")
  }

  function Presence(ms: seq<Member>, keys: seq<string>): (present: seq<bool>)
    ensures |present| == |keys|
  {
    seq(|keys|, k requires 0 <= k < |keys| => KeyIndex(keys[k], keys) == k && keys[k] in Names(ms))
  }

  /** Every key of the list once, and nothing else. */
  predicate Exact(ms: seq<Member>, keys: seq<string>) {
    Admissible(ms, keys) && Distinct(keys) && forall k | k in keys :: k in Names(ms)
  }

  predicate Sufficient(ms: seq<Member>, required: seq<string>, allowed: seq<string>) {
    Admissible(ms, allowed) && forall k | k in required :: k in Names(ms)
  }

  /** An object read at the start of s, after spaces; its members and the rest. */
  function ObjectAt(s: string): Parsed<seq<Member>> {
    var t := ReadSpace(s).1;
    if !Starts(t, '{') then None else
    var o := ReadObject(t[1..]);
    if o.None? then None
    else
      var members := if o.value.0.Object? then MemberList(o.value.0.members) else [];
      Some((members, o.value.1))
  }

  /** scanExactUserDeleteObjectAt. */
  function ExactAt(s: string, keys: seq<string>): Parsed<seq<string>> {
    var o := ObjectAt(s);
    if o.None? || !Exact(o.value.0, keys) then None else Some((Collected(o.value.0, keys), o.value.1))
  }

  /** scanAdminUserCreateObjectAt, which never takes an empty object. */
  function CreateAt(s: string, required: seq<string>, allowed: seq<string>): Parsed<(seq<string>, seq<bool>)> {
    var o := ObjectAt(s);
    if o.None? || o.value.0 == [] || !Sufficient(o.value.0, required, allowed) then None
    else Some(((Collected(o.value.0, allowed), Presence(o.value.0, allowed)), o.value.1))
  }

  /** scanExactUserDeleteObject: valid UTF-8, the object, and only spaces after it. */
  function ScanExact(raw: string, keys: seq<string>): Option<seq<string>> {
    if !Utf8.Valid(raw) then None else
    var r := ExactAt(raw, keys);
    if r.None? || ReadSpace(r.value.1).1 != "" then None else Some(r.value.0)
  }

  /** scanAdminUserCreateObject. */
  function ScanCreate(raw: string, required: seq<string>, allowed: seq<string>): Option<(seq<string>, seq<bool>)> {
    if !Utf8.Valid(raw) then None else
    var r := CreateAt(raw, required, allowed);
    if r.None? || ReadSpace(r.value.1).1 != "" then None else Some(r.value.0)
  }

  // ----- accepted texts are well-formed UTF-8 anyway -----

  lemma BlankThen(gap: string, x: string)
    requires Blank(gap)
    ensures Utf8.Valid(gap + x) == Utf8.Valid(x)
  {
    AsciiThen(gap, x);
  }

  lemma MarkThen(mark: string, x: string)
    requires |mark| == 1 && (mark[0] as int) < 0x80
    ensures Utf8.Valid(mark + x) == Utf8.Valid(x)
  {
    AsciiThen(mark, x);
  }

  lemma QuotedThen(cs: seq<Char>, x: string)
    requires CharsOk(cs)
    ensures Utf8.Valid("\"" + (Spell(cs) + ("\"" + x))) == Utf8.Valid(x)
  {
    hide Utf8.ValidFrom;
    MarkThen("\"", Spell(cs) + ("\"" + x));
    SpellThen(cs, "\"" + x);
    MarkThen("\"", x);
  }

  lemma NumberIsAscii(n: Number)
    requires NumberOk(n)
    ensures forall c | c in WriteNumber(n) :: (c as int) < 0x80
  {
  }

  lemma {:induction false} ValueThen(v: Json, x: string)
    requires JsonOk(v)
    ensures Utf8.Valid(WriteThen(v, x)) == Utf8.Valid(x)
    decreases v
  {
    hide Utf8.ValidFrom, Blank, Spell, CharsOk, WriteNumber, NumberOk;
    match v {
      case Text(chars) => QuotedThen(chars, x);
      case Num(number) => NumberIsAscii(number); AsciiThen(WriteNumber(number), x);
      case Word(word) => AsciiThen(word, x);
      case EmptyArray(gap) => MarkThen("[", gap + ("]" + x)); BlankThen(gap, "]" + x); MarkThen("]", x);
      case Array(gap, items) =>
        MarkThen("[", gap + WriteItems(items, x));
        BlankThen(gap, WriteItems(items, x));
        ItemsThen(items, x);
      case EmptyObject(gap) => MarkThen("{", gap + ("}" + x)); BlankThen(gap, "}" + x); MarkThen("}", x);
      case Object(gap, members) =>
        MarkThen("{", gap + WriteMembers(members, x));
        BlankThen(gap, WriteMembers(members, x));
        MembersThen(members, x);
    }
  }

  lemma {:induction false} ItemsThen(items: Items, x: string)
    requires ItemsOk(items)
    ensures Utf8.Valid(WriteItems(items, x)) == Utf8.Valid(x)
    decreases items
  {
    hide Utf8.ValidFrom, Blank, JsonOk, WriteThen;
    match items {
      case LastItem(value, after) =>
        ValueThen(value, after + ("]" + x));
        BlankThen(after, "]" + x);
        MarkThen("]", x);
      case Item(value, after, next, rest) =>
        var t := WriteItems(rest, x);
        ValueThen(value, after + ("," + (next + t)));
        BlankThen(after, "," + (next + t));
        MarkThen(",", next + t);
        BlankThen(next, t);
        ItemsThen(rest, x);
    }
  }

  lemma {:induction false} MemberThen(m: Member, x: string)
    requires MemberOk(m)
    ensures Utf8.Valid(WriteMember(m, x)) == Utf8.Valid(x)
    decreases m
  {
    hide Utf8.ValidFrom, Blank, JsonOk, WriteThen, Spell, CharsOk;
    var value := WriteThen(m.value, m.after + x);
    QuotedThen(m.key, m.before + (":" + (m.between + value)));
    BlankThen(m.before, ":" + (m.between + value));
    MarkThen(":", m.between + value);
    BlankThen(m.between, value);
    ValueThen(m.value, m.after + x);
    BlankThen(m.after, x);
  }

  lemma {:induction false} MembersThen(members: Members, x: string)
    requires MembersOk(members)
    ensures Utf8.Valid(WriteMembers(members, x)) == Utf8.Valid(x)
    decreases members
  {
    hide Utf8.ValidFrom, Blank, MemberOk, WriteMember;
    match members {
      case LastMember(member) =>
        MemberThen(member, "}" + x);
        MarkThen("}", x);
      case MoreMembers(member, next, rest) =>
        var t := WriteMembers(rest, x);
        MemberThen(member, "," + (next + t));
        MarkThen(",", next + t);
        BlankThen(next, t);
        MembersThen(rest, x);
    }
  }

  lemma EmptyIsUtf8()
    ensures Utf8.Valid("")
  {
  }

  lemma DocumentIsUtf8(raw: string)
    requires ReadDocument(raw).Some?
    ensures Utf8.Valid(raw)
  {
    hide ReadDocument, Utf8.ValidFrom, WriteThen, JsonOk;
    var d := ReadDocument(raw).value;
    ReadIffWritten(raw, d);
    BlankThen(d.lead, WriteThen(d.value, d.trail));
    ValueThen(d.value, d.trail);
    BlankThen(d.trail, "");
    EmptyIsUtf8();
    assert d.trail + "" == d.trail;
  }

  // ----- exactly the documents that are one object with the right keys -----

  /** The members of a document that is an object. */
  function ObjectMembers(d: Document): Option<seq<Member>> {
    match d.value
    case EmptyObject(_) => Some([])
    case Object(_, members) => Some(MemberList(members))
    case _ => None
  }

  lemma ObjectAtIsDocument(raw: string)
    ensures var o := ObjectAt(raw);
            var d := ReadDocument(raw);
            o.Some? && ReadSpace(o.value.1).1 == "" <==> d.Some? && ObjectMembers(d.value).Some?
    ensures ObjectAt(raw).Some? && ReadSpace(ObjectAt(raw).value.1).1 == "" ==>
              ObjectMembers(ReadDocument(raw).value) == Some(ObjectAt(raw).value.0)
  {
    hide ReadSpace, ReadMembers, ReadArray, ReadNumber, ReadBody;
    var t := ReadSpace(raw).1;
    if Starts(t, '{') {
      if ReadObject(t[1..]).Some? { ObjectKind(t[1..]); }
    } else if ReadValue(t).Some? {
      OtherKind(t);
    }
  }

  lemma ObjectKind(s: string)
    requires ReadObject(s).Some?
    ensures ReadObject(s).value.0.EmptyObject? || ReadObject(s).value.0.Object?
  {
  }

  lemma OtherKind(t: string)
    requires t != "" && t[0] != '{' && ReadValue(t).Some?
    ensures !ReadValue(t).value.0.EmptyObject? && !ReadValue(t).value.0.Object?
  {
  }

  /** The first scanner accepts exactly the documents that are one object with each
      key once, unescaped, and nothing else; the UTF-8 check before it decides nothing. */
  lemma ScanExactAccepts(raw: string, keys: seq<string>)
    ensures ScanExact(raw, keys).Some? <==>
              ReadDocument(raw).Some? && ObjectMembers(ReadDocument(raw).value).Some? &&
              Exact(ObjectMembers(ReadDocument(raw).value).value, keys)
    ensures ScanExact(raw, keys).Some? ==>
              ScanExact(raw, keys) == Some(Collected(ObjectMembers(ReadDocument(raw).value).value, keys))
  {
    hide ObjectAt, ReadDocument, Utf8.ValidFrom, Exact, ReadSpace, ObjectMembers, Collected;
    ObjectAtIsDocument(raw);
    if ReadDocument(raw).Some? { DocumentIsUtf8(raw); }
  }

  /** The second accepts exactly the non-empty objects whose keys are allowed, none
      twice, and include the required ones. */
  lemma ScanCreateAccepts(raw: string, required: seq<string>, allowed: seq<string>)
    ensures ScanCreate(raw, required, allowed).Some? <==>
              ReadDocument(raw).Some? && ObjectMembers(ReadDocument(raw).value).Some? &&
              ObjectMembers(ReadDocument(raw).value).value != [] &&
              Sufficient(ObjectMembers(ReadDocument(raw).value).value, required, allowed)
    ensures ScanCreate(raw, required, allowed).Some? ==>
              var ms := ObjectMembers(ReadDocument(raw).value).value;
              ScanCreate(raw, required, allowed) == Some((Collected(ms, allowed), Presence(ms, allowed)))
  {
    hide ObjectAt, ReadDocument, Utf8.ValidFrom, Sufficient, ReadSpace, ObjectMembers, Collected, Presence;
    ObjectAtIsDocument(raw);
    if ReadDocument(raw).Some? { DocumentIsUtf8(raw); }
  }

  // ----- order and spacing do not matter -----

  function Pairs(ms: seq<Member>): set<(string, string)> {
    set m | m in ms :: (NameOf(m), ValueText(m))
  }

  lemma {:induction false} LookupFinds(ms: seq<Member>, m: Member)
    requires m in ms && Distinct(Names(ms))
    ensures Lookup(ms, NameOf(m)) == ValueText(m)
    decreases |ms|
  {
    hide NameOf, ValueText;
    if ms[0] != m {
      var i :| 1 <= i < |ms| && ms[i] == m;
      assert Names(ms)[0] != Names(ms)[i];
      RestDistinct(ms);
      assert ms[1..][i - 1] == m;
      LookupFinds(ms[1..], m);
    }
  }

  lemma RestDistinct(ms: seq<Member>)
    requires ms != [] && Distinct(Names(ms))
    ensures Distinct(Names(ms[1..]))
  {
    assert Names(ms)[1..] == Names(ms[1..]);
  }

  lemma {:induction false} LookupAbsent(ms: seq<Member>, name: string)
    requires name !in Names(ms)
    ensures Lookup(ms, name) == ""
    decreases |ms|
  {
    if ms != [] {
      assert Names(ms)[0] != name;
      assert Names(ms)[1..] == Names(ms[1..]);
      LookupAbsent(ms[1..], name);
    }
  }

  lemma NamesFromPairs(ms: seq<Member>, ns: seq<Member>, name: string)
    requires Pairs(ms) == Pairs(ns) && name in Names(ms)
    ensures name in Names(ns)
  {
    var i :| 0 <= i < |ms| && Names(ms)[i] == name;
    assert (name, ValueText(ms[i])) in Pairs(ms);
    var n :| n in ns && (NameOf(n), ValueText(n)) == (name, ValueText(ms[i]));
    var j :| 0 <= j < |ns| && ns[j] == n;
    assert Names(ns)[j] == name;
  }

  lemma SameLookup(ms: seq<Member>, ns: seq<Member>, name: string)
    requires Pairs(ms) == Pairs(ns) && Distinct(Names(ms)) && Distinct(Names(ns))
    ensures Lookup(ms, name) == Lookup(ns, name) && (name in Names(ms) <==> name in Names(ns))
  {
    if name in Names(ms) {
      NamesFromPairs(ms, ns, name);
      var i :| 0 <= i < |ms| && Names(ms)[i] == name;
      assert (name, ValueText(ms[i])) in Pairs(ns);
      var n :| n in ns && (NameOf(n), ValueText(n)) == (name, ValueText(ms[i]));
      LookupFinds(ms, ms[i]);
      LookupFinds(ns, n);
    } else {
      if name in Names(ns) { NamesFromPairs(ns, ms, name); }
      LookupAbsent(ms, name);
      LookupAbsent(ns, name);
    }
  }

  /** Objects with the same keys and value texts, in any order and with any spacing
      around them, get the same answer from both scanners. */
  lemma OrderAndSpacingDoNotMatter(a: string, b: string, keys: seq<string>, required: seq<string>)
    requires ReadDocument(a).Some? && ObjectMembers(ReadDocument(a).value).Some?
    requires ReadDocument(b).Some? && ObjectMembers(ReadDocument(b).value).Some?
    requires var ms, ns := ObjectMembers(ReadDocument(a).value).value, ObjectMembers(ReadDocument(b).value).value;
             Pairs(ms) == Pairs(ns) && Distinct(Names(ms)) && Distinct(Names(ns))
    ensures ScanExact(a, keys) == ScanExact(b, keys)
    ensures ScanCreate(a, required, keys) == ScanCreate(b, required, keys)
  {
    hide ScanExact, ScanCreate, ReadDocument, ObjectMembers;
    var ms, ns := ObjectMembers(ReadDocument(a).value).value, ObjectMembers(ReadDocument(b).value).value;
    ScanExactAccepts(a, keys);
    ScanExactAccepts(b, keys);
    ScanCreateAccepts(a, required, keys);
    ScanCreateAccepts(b, required, keys);
    SameVerdicts(ms, ns, keys, required);
    SameVerdicts(ns, ms, keys, required);
  }

  lemma SameVerdicts(ms: seq<Member>, ns: seq<Member>, keys: seq<string>, required: seq<string>)
    requires Pairs(ms) == Pairs(ns) && Distinct(Names(ms)) && Distinct(Names(ns))
    ensures Exact(ms, keys) ==> Exact(ns, keys)
    ensures Sufficient(ms, required, keys) ==> Sufficient(ns, required, keys)
    ensures Collected(ms, keys) == Collected(ns, keys) && Presence(ms, keys) == Presence(ns, keys)
    ensures ms == [] <==> ns == []
  {
    hide Lookup, Distinct;
    forall name: string ensures Lookup(ms, name) == Lookup(ns, name) && (name in Names(ms) <==> name in Names(ns)) {
      SameLookup(ms, ns, name);
    }
    if Admissible(ms, keys) {
      forall n | n in ns ensures Unescaped(n) && NameOf(n) in keys {
        assert (NameOf(n), ValueText(n)) in Pairs(ms);
        var m :| m in ms && (NameOf(m), ValueText(m)) == (NameOf(n), ValueText(n));
      }
    }
    assert ms != [] ==> (NameOf(ms[0]), ValueText(ms[0])) in Pairs(ms);
    assert ns != [] ==> (NameOf(ns[0]), ValueText(ns[0])) in Pairs(ns);
  }
}
