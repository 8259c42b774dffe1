/** The exact-object scanners' loops, with their seen and values slices, proved to
    compute the scanner functions. */
module JsonObjectScan {
  import opened Prelude
  import opened JsonString
  import opened JsonNumber
  import opened JsonGrammar
  import opened JsonObject
  import opened JsonSkip
  import JsonStringScan
  import Utf8

  /** exactUserDeleteKeyIndex. */
  method FindKey(raw: string, keys: seq<string>) returns (found: int)
    ensures found == KeyIndex(raw, keys)
  {
    for index := 0 to |keys|
      invariant forall j | 0 <= j < index :: keys[j] != raw
    {
      if keys[index] == raw { return index; }
    }
    return -1;
  }

  /** Members already read, put before those that follow. */
  function Listed(done: seq<Member>, rest: Parsed<Members>): Parsed<seq<Member>> {
    if rest.None? then None else Some((done + MemberList(rest.value.0), rest.value.1))
  }

  lemma ListedNothing(rest: Parsed<Members>)
    ensures Listed([], rest) == if rest.None? then None else Some((MemberList(rest.value.0), rest.value.1))
  {
    if rest.Some? { assert [] + MemberList(rest.value.0) == MemberList(rest.value.0); }
  }

  /** One member further in the loop. */
  lemma ListedStep(done: seq<Member>, s: string)
    ensures ReadMember(s).None? ==> Listed(done, ReadMembers(s)).None?
    ensures ReadMember(s).Some? ==>
              var (m, t) := ReadMember(s).value;
              Listed(done, ReadMembers(s)) ==
                if Starts(t, '}') then Some((done + [m], t[1..]))
                else if !Starts(t, ',') then None
                else Listed(done + [m], ReadMembers(ReadSpace(t[1..]).1))
  {
    hide ReadMember, ReadSpace;
    if ReadMember(s).Some? {
      var (m, t) := ReadMember(s).value;
      if Starts(t, ',') && !Starts(t, '}') && ReadMembers(ReadSpace(t[1..]).1).Some? {
        var rest := MemberList(ReadMembers(ReadSpace(t[1..]).1).value.0);
        assert done + ([m] + rest) == done + [m] + rest;
      }
    }
  }

  /** Once a member is not admissible the whole list is not. */
  lemma BadMember(done: seq<Member>, s: string, allowed: seq<string>)
    requires ReadMember(s).Some?
    requires var m := ReadMember(s).value.0; !Unescaped(m) || NameOf(m) !in allowed || NameOf(m) in Names(done)
    ensures var all := Listed(done, ReadMembers(s)); all.Some? ==> !Admissible(all.value.0, allowed)
  {
    hide ReadMember, Unescaped, ReadSpace;
    var m := ReadMember(s).value.0;
    var all := Listed(done, ReadMembers(s));
    if all.Some? {
      var ms, n := all.value.0, |done|;
      assert ms[n] == m && m in ms;
      if NameOf(m) in Names(done) {
        var i :| 0 <= i < n && Names(done)[i] == NameOf(m);
        assert Names(ms)[i] == Names(ms)[n];
      }
    }
  }

  lemma GoodMember(done: seq<Member>, m: Member, allowed: seq<string>)
    requires Admissible(done, allowed) && Unescaped(m) && NameOf(m) in allowed && NameOf(m) !in Names(done)
    ensures Admissible(done + [m], allowed)
    ensures Names(done + [m]) == Names(done) + [NameOf(m)]
  {
  }

  lemma {:induction false} LookupSnoc(done: seq<Member>, m: Member, name: string)
    ensures Lookup(done + [m], name) ==
              if name in Names(done) then Lookup(done, name) else if NameOf(m) == name then ValueText(m) else ""
    decreases |done|
  {
    if done == [] {
      assert [] + [m] == [m] && [m][1..] == [];
    } else {
      assert (done + [m])[1..] == done[1..] + [m];
      assert Names(done)[1..] == Names(done[1..]) && Names(done)[0] == NameOf(done[0]);
      assert name in Names(done) <==> name == NameOf(done[0]) || name in Names(done[1..]);
      LookupSnoc(done[1..], m, name);
    }
  }

  /** The slices after one more member: only the entry of its key changes. */
  lemma SlicesStep(done: seq<Member>, m: Member, keys: seq<string>)
    requires NameOf(m) in keys && NameOf(m) !in Names(done) && Names(done + [m]) == Names(done) + [NameOf(m)]
    ensures var k := KeyIndex(NameOf(m), keys);
            Presence(done + [m], keys) == Presence(done, keys)[k := true] &&
            Collected(done + [m], keys) == Collected(done, keys)[k := ValueText(m)]
  {
    hide ValueText;
    var k := KeyIndex(NameOf(m), keys);
    forall i | 0 <= i < |keys|
      ensures Presence(done + [m], keys)[i] == Presence(done, keys)[k := true][i]
      ensures Collected(done + [m], keys)[i] == Collected(done, keys)[k := ValueText(m)][i]
    {
      LookupSnoc(done, m, keys[i]);
      if NameOf(m) != keys[i] && keys[i] !in Names(done) { LookupAbsent(done, keys[i]); }
    }
  }

  /** The bytes the skipper spans are the value's own text. */
  lemma {:induction false} WriteThenIs(v: Json, x: string)
    ensures WriteThen(v, x) == WriteThen(v, "") + x
    decreases v
  {
    hide Spell, WriteNumber;
    match v {
      case Text(chars) => Assoc4("\"", Spell(chars), "\"", x); assert "\"" + "" == "\"";
      case Num(number) => assert WriteNumber(number) + "" == WriteNumber(number);
      case Word(word) => assert word + "" == word;
      case EmptyArray(gap) => Assoc4("[", gap, "]", x); assert "]" + "" == "]";
      case Array(gap, items) => ItemsThenIs(items, x); Assoc4("[", gap, WriteItems(items, ""), x);
      case EmptyObject(gap) => Assoc4("{", gap, "}", x); assert "}" + "" == "}";
      case Object(gap, members) => MembersThenIs(members, x); Assoc4("{", gap, WriteMembers(members, ""), x);
    }
  }

  lemma {:induction false} ItemsThenIs(items: Items, x: string)
    ensures WriteItems(items, x) == WriteItems(items, "") + x
    decreases items
  {
    hide WriteThen;
    var tail := if items.LastItem? then "]" + x else "," + (items.next + WriteItems(items.rest, x));
    var tail0 := if items.LastItem? then "]" + "" else "," + (items.next + WriteItems(items.rest, ""));
    if items.Item? {
      ItemsThenIs(items.rest, x);
      Assoc4(",", items.next, WriteItems(items.rest, ""), x);
    }
    assert tail == tail0 + x;
    WriteThenIs(items.value, items.after + tail);
    WriteThenIs(items.value, items.after + tail0);
    Assoc4(WriteThen(items.value, ""), items.after, tail0, x);
  }

  lemma {:induction false} MemberThenIs(m: Member, x: string)
    ensures WriteMember(m, x) == WriteMember(m, "") + x
    decreases m
  {
    hide WriteThen, Spell;
    var v := WriteThen(m.value, "");
    WriteThenIs(m.value, m.after + x);
    WriteThenIs(m.value, m.after + "");
    assert m.after + "" == m.after;
    MemberRegroup(Spell(m.key), m.before, m.between, v, m.after, x);
  }

  lemma MemberRegroup(k: string, a: string, b: string, v: string, c: string, x: string)
    ensures "\"" + (k + ("\"" + (a + (":" + (b + (v + (c + x))))))) ==
            "\"" + (k + ("\"" + (a + (":" + (b + (v + c)))))) + x
  {
  }

  /** What follows a member. */
  function AfterMember(members: Members, x: string): string {
    if members.LastMember? then "}" + x else "," + (members.next + WriteMembers(members.rest, x))
  }

  lemma MembersShape(members: Members, x: string)
    ensures WriteMembers(members, x) == WriteMember(members.member, AfterMember(members, x))
  {
  }

  lemma {:induction false} AfterMemberIs(members: Members, x: string)
    requires members.MoreMembers? ==> WriteMembers(members.rest, x) == WriteMembers(members.rest, "") + x
    ensures AfterMember(members, x) == AfterMember(members, "") + x
  {
  }

  lemma {:induction false} MembersThenIs(members: Members, x: string)
    ensures WriteMembers(members, x) == WriteMembers(members, "") + x
    decreases members
  {
    hide WriteMember, WriteMembers, AfterMember;
    if members.MoreMembers? { MembersThenIs(members.rest, x); }
    AfterMemberIs(members, x);
    MembersShape(members, x);
    MembersShape(members, "");
    MemberThenIs(members.member, AfterMember(members, x));
    MemberThenIs(members.member, AfterMember(members, ""));
    Assoc(WriteMember(members.member, ""), AfterMember(members, ""), x);
  }

  lemma SpannedText(raw: string, start: nat, end: nat)
    requires start <= end <= |raw| && ReadValue(raw[start..]).Some? && raw[end..] == ReadValue(raw[start..]).value.1
    ensures raw[start..end] == WriteThen(ReadValue(raw[start..]).value.0, "")
  {
    hide ReadValue, WriteThen, JsonOk;
    ValueSound(raw[start..]);
    WriteThenIs(ReadValue(raw[start..]).value.0, raw[end..]);
    var v := WriteThen(ReadValue(raw[start..]).value.0, "");
    assert raw[start..] == raw[start..end] + raw[end..];
    SameEnd(raw[start..end], v, raw[end..]);
  }

  lemma SpannedKey(raw: string, start: nat, end: nat)
    requires start < end <= |raw| && raw[start] == '"' && ReadBody(raw[start + 1..]).Some?
    requires raw[end..] == ReadBody(raw[start + 1..]).value.1
    ensures start + 1 <= end - 1 && raw[start + 1..end - 1] == Spell(ReadBody(raw[start + 1..]).value.0)
  {
    hide ReadBody, Spell, CharOk;
    BodySound(raw[start + 1..]);
    var k := Spell(ReadBody(raw[start + 1..]).value.0);
    assert raw[start + 1..] == k + ("\"" + raw[end..]);
    assert |raw| - start - 1 == |k| + 1 + (|raw| - end);
    assert raw[start + 1..end - 1] == raw[start + 1..][..|k|] == k;
  }

  /** One key, colon and value inside a scanner loop: the key's bytes, the value's
      bytes, and where the loop goes on. */
  method ScanMember(raw: string, offset: nat) returns (key: string, value: string, end: nat, ok: bool)
    requires offset <= |raw|
    ensures ok == ReadMember(raw[offset..]).Some?
    ensures ok ==> offset < end <= |raw| && raw[end..] == ReadMember(raw[offset..]).value.1
    ensures ok ==> key == NameOf(ReadMember(raw[offset..]).value.0)
    ensures ok ==> value == ValueText(ReadMember(raw[offset..]).value.0)
  {
    hide ReadBody, ReadValue, ReadSpace, WriteThen, Spell;
    key, value := "", "";
    if offset < |raw| { TailOf(raw, offset, 1); }
    end, ok := JsonStringScan.SkipString(raw, offset);
    if !ok { return; }
    SpannedKey(raw, offset, end);
    key := raw[offset + 1..end - 1];
    end := SkipSpace(raw, end);
    if end >= |raw| || raw[end] != ':' { return "", "", end, false; }
    TailOf(raw, end, 1);
    var valueStart := SkipSpace(raw, end + 1);
    end, ok := SkipValue(raw, valueStart);
    if !ok { return; }
    SpannedText(raw, valueStart, end);
    value := raw[valueStart..end];
    end := SkipSpace(raw, end);
  }

  /** The opening of an object: spaces, the brace, spaces. */
  method OpenObject(raw: string, offset: nat) returns (start: nat, ok: bool)
    requires offset <= |raw|
    ensures ok == Starts(ReadSpace(raw[offset..]).1, '{')
    ensures ok ==> offset < start <= |raw| && raw[start..] == ReadSpace(ReadSpace(raw[offset..]).1[1..]).1
  {
    hide ReadSpace;
    start := SkipSpace(raw, offset);
    if start >= |raw| || raw[start] != '{' { return start, false; }
    TailOf(raw, start, 1);
    start := SkipSpace(raw, start + 1);
    ok := true;
  }

  /** ObjectAt, from just inside the brace. */
  lemma ObjectInside(s: string)
    requires Starts(ReadSpace(s).1, '{')
    ensures var t := ReadSpace(ReadSpace(s).1[1..]).1;
            ObjectAt(s) == if Starts(t, '}') then Some(([], t[1..])) else Listed([], ReadMembers(t))
  {
    hide ReadMembers, ReadSpace;
    var t := ReadSpace(ReadSpace(s).1[1..]).1;
    ListedNothing(ReadMembers(t));
  }

  /** After a member: the end of the object, or a comma and the next member. */
  function Onward(done: seq<Member>, t: string): Parsed<seq<Member>> {
    if Starts(t, '}') then Some((done, t[1..]))
    else if !Starts(t, ',') then None
    else Listed(done, ReadMembers(ReadSpace(t[1..]).1))
  }

  /** One turn of a scanner's loop: read a member, check its key against the list
      and the seen marks, store its value. */
  method TakeMember(raw: string, offset: nat, keys: seq<string>, stored: array<string>, seen: array<bool>,
      ghost done: seq<Member>)
    returns (end: nat, ok: bool, ghost more: seq<Member>)
    requires offset <= |raw| && stored.Length == seen.Length == |keys|
    requires Admissible(done, keys) && stored[..] == Collected(done, keys) && seen[..] == Presence(done, keys)
    modifies stored, seen
    ensures !ok ==> var all := Listed(done, ReadMembers(raw[offset..])); all.Some? ==> !Admissible(all.value.0, keys)
    ensures ok ==> offset < end <= |raw| && more != []
    ensures ok ==> Admissible(more, keys) && stored[..] == Collected(more, keys) && seen[..] == Presence(more, keys)
    ensures ok ==> Listed(done, ReadMembers(raw[offset..])) == Onward(more, raw[end..])
  {
    hide ReadMember, ReadMembers, ReadSpace, Listed, Admissible, Collected, Presence, KeyIndex;
    hide Unescaped, NameOf, ValueText, Names;
    ghost var here := raw[offset..];
    more := done;
    ListedStep(done, here);
    var key, value;
    key, value, end, ok := ScanMember(raw, offset);
    if !ok { return; }
    ghost var m := ReadMember(here).value.0;
    var keyIndex := FindKey(key, keys);
    SeenIsPresent(done, m, keys);
    RejectedKey(m, keys);
    if '\\' in key || keyIndex < 0 || seen[keyIndex] {
      BadMember(done, here, keys);
      return end, false, done;
    }
    GoodMember(done, m, keys);
    SlicesStep(done, m, keys);
    seen[keyIndex] := true;
    stored[keyIndex] := value;
    more := done + [m];
  }

  /** scanExactUserDeleteObjectAt. */
  method ScanExactAt(raw: string, offset: nat, keys: seq<string>) returns (values: seq<string>, end: nat, ok: bool)
    requires offset <= |raw|
    ensures ok == ExactAt(raw[offset..], keys).Some?
    ensures ok ==> offset < end <= |raw| && ExactAt(raw[offset..], keys) == Some((values, raw[end..]))
  {
    hide ReadMember, ReadMembers, ReadSpace, ObjectAt, Listed, Admissible, Collected, Presence, KeyIndex;
    hide Unescaped, NameOf, ValueText, Lookup, Names, Exact, Sufficient;
    values := [];
    end, ok := OpenObject(raw, offset);
    if !ok {
      NoObject(raw[offset..]);
      return;
    }
    ObjectInside(raw[offset..]);
    if end < |raw| { TailOf(raw, end, 1); }
    if end >= |raw| || raw[end] == '}' {
      if end < |raw| && |keys| == 0 {
        EmptyIsExact(keys);
        return [], end + 1, true;
      }
      NothingInside(raw[end..], keys);
      return [], end, false;
    }
    ghost var start, done := raw[end..], [];
    var stored, seen := new string[|keys|](_ => ""), new bool[|keys|](_ => false);
    StartsEmpty(keys);
    assert stored[..] == Collected([], keys) && seen[..] == Presence([], keys);
    while true
      invariant offset < end <= |raw| && fresh(stored) && fresh(seen) && stored.Length == seen.Length == |keys|
      invariant Listed([], ReadMembers(start)) == Listed(done, ReadMembers(raw[end..]))
      invariant Admissible(done, keys) && stored[..] == Collected(done, keys) && seen[..] == Presence(done, keys)
      decreases |raw| - end
    {
      var taken;
      end, taken, done := TakeMember(raw, end, keys, stored, seen, done);
      if !taken {
        NotAdmissible(Listed([], ReadMembers(start)), keys);
        return [], end, false;
      }
      if end >= |raw| { return [], end, false; }
      TailOf(raw, end, 1);
      if raw[end] == ',' {
        end := SkipSpace(raw, end + 1);
      } else if raw[end] == '}' {
        var complete := HasAll(keys, seen, done);
        if !complete { return [], end, false; }
        return stored[..], end + 1, true;
      } else {
        return [], end, false;
      }
    }
  }

  /** The loop over the seen marks. */
  method HasAll(keys: seq<string>, seen: array<bool>, ghost done: seq<Member>) returns (ok: bool)
    requires Admissible(done, keys) && seen[..] == Presence(done, keys)
    ensures ok == Exact(done, keys)
  {
    hide Admissible, Presence, Exact;
    for k := 0 to |keys|
      invariant forall i | 0 <= i < k :: seen[i]
    {
      if !seen[k] {
        MissingKey(done, keys, k);
        return false;
      }
    }
    AllSeen(done, keys);
    return true;
  }

  lemma NoObject(s: string)
    requires !Starts(ReadSpace(s).1, '{')
    ensures ObjectAt(s).None?
  {
  }

  lemma EmptyIsExact(keys: seq<string>)
    requires keys == []
    ensures Exact([], keys) && Collected([], keys) == []
  {
  }

  lemma NothingInside(t: string, keys: seq<string>)
    ensures t == "" ==> Listed([], ReadMembers(t)).None?
    ensures keys != [] ==> !Exact([], keys)
  {
    assert keys != [] ==> keys[0] in keys;
  }

  lemma StartsEmpty(keys: seq<string>)
    ensures Admissible([], keys)
    ensures forall k | 0 <= k < |keys| :: Collected([], keys)[k] == "" && !Presence([], keys)[k]
  {
  }

  /** Seen marks say which names were read; a name goes to its first position. */
  lemma SeenIsPresent(done: seq<Member>, m: Member, keys: seq<string>)
    ensures var k := KeyIndex(NameOf(m), keys); k >= 0 ==> (Presence(done, keys)[k] <==> NameOf(m) in Names(done))
  {
  }

  lemma RejectedKey(m: Member, keys: seq<string>)
    ensures KeyIndex(NameOf(m), keys) < |keys|
    ensures Unescaped(m) <==> '\\' !in NameOf(m)
    ensures KeyIndex(NameOf(m), keys) >= 0 <==> NameOf(m) in keys
  {
  }

  lemma NotAdmissible(all: Parsed<seq<Member>>, keys: seq<string>)
    requires all.Some? ==> !Admissible(all.value.0, keys)
    ensures all.Some? ==> !Exact(all.value.0, keys)
  {
  }

  lemma MissingKey(ms: seq<Member>, keys: seq<string>, k: nat)
    requires k < |keys| && !Presence(ms, keys)[k]
    ensures !Exact(ms, keys)
  {
  }

  lemma AllSeen(ms: seq<Member>, keys: seq<string>)
    requires Admissible(ms, keys) && forall i | 0 <= i < |keys| :: Presence(ms, keys)[i]
    ensures Exact(ms, keys)
  {
    hide Admissible, Names;
    forall i, j | 0 <= i < j < |keys| ensures keys[i] != keys[j] {
      assert Presence(ms, keys)[j];
      assert KeyIndex(keys[j], keys) == j;
    }
    forall k | k in keys ensures k in Names(ms) {
      var i :| 0 <= i < |keys| && keys[i] == k;
      assert Presence(ms, keys)[i];
    }
  }

  /** scanExactUserDeleteObject. */
  method ScanExactObject(raw: string, keys: seq<string>) returns (values: seq<string>, ok: bool)
    ensures ok == ScanExact(raw, keys).Some?
    ensures ok ==> values == ScanExact(raw, keys).value
  {
    hide ExactAt, ReadSpace, Utf8.ValidFrom;
    if !Utf8.Valid(raw) { return [], false; }
    assert raw[0..] == raw;
    var end;
    values, end, ok := ScanExactAt(raw, 0, keys);
    if !ok { return; }
    end := SkipSpace(raw, end);
    ok := end == |raw|;
  }

  /** scanAdminUserCreateObjectAt. */
  method ScanCreateAt(raw: string, offset: nat, required: seq<string>, allowed: seq<string>)
    returns (values: seq<string>, presence: seq<bool>, end: nat, ok: bool)
    requires offset <= |raw|
    ensures ok == CreateAt(raw[offset..], required, allowed).Some?
    ensures ok ==> offset < end <= |raw|
    ensures ok ==> CreateAt(raw[offset..], required, allowed) == Some(((values, presence), raw[end..]))
  {
    hide ReadMember, ReadMembers, ReadSpace, ObjectAt, Listed, Admissible, Collected, Presence, KeyIndex;
    hide Unescaped, NameOf, ValueText, Lookup, Names, Exact, Sufficient;
    values, presence := [], [];
    end, ok := OpenObject(raw, offset);
    if !ok {
      NoObject(raw[offset..]);
      return;
    }
    ObjectInside(raw[offset..]);
    if end < |raw| { TailOf(raw, end, 1); }
    if end < |raw| && raw[end] == '}' { return [], [], end, false; }
    ghost var start, done := raw[end..], [];
    var stored, present := new string[|allowed|](_ => ""), new bool[|allowed|](_ => false);
    StartsEmpty(allowed);
    assert stored[..] == Collected([], allowed) && present[..] == Presence([], allowed);
    while true
      invariant offset < end <= |raw| && fresh(stored) && fresh(present) && stored.Length == present.Length == |allowed|
      invariant Listed([], ReadMembers(start)) == Listed(done, ReadMembers(raw[end..]))
      invariant Admissible(done, allowed) && stored[..] == Collected(done, allowed) &&
                present[..] == Presence(done, allowed)
      decreases |raw| - end
    {
      var taken;
      end, taken, done := TakeMember(raw, end, allowed, stored, present, done);
      if !taken {
        NotSufficient(Listed([], ReadMembers(start)), required, allowed);
        return [], [], end, false;
      }
      if end >= |raw| { return [], [], end, false; }
      TailOf(raw, end, 1);
      if raw[end] == '}' {
        var complete := HasRequired(required, allowed, present, done);
        if !complete { return [], [], end, false; }
        return stored[..], present[..], end + 1, true;
      }
      if raw[end] != ',' { return [], [], end, false; }
      end := SkipSpace(raw, end + 1);
      if end >= |raw| || raw[end] == '}' {
        NoMember(raw[end..]);
        ListedStep(done, raw[end..]);
        return [], [], end, false;
      }
    }
  }

  /** The loop over the required keys. */
  method HasRequired(required: seq<string>, allowed: seq<string>, present: array<bool>, ghost done: seq<Member>)
    returns (ok: bool)
    requires Admissible(done, allowed) && present[..] == Presence(done, allowed)
    ensures ok == Sufficient(done, required, allowed)
  {
    hide Admissible, Presence, KeyIndex, Names;
    for r := 0 to |required|
      invariant forall i | 0 <= i < r :: required[i] in Names(done)
    {
      var wanted := FindKey(required[r], allowed);
      RequiredIsPresent(done, required[r], allowed);
      if wanted < 0 || !present[wanted] {
        assert required[r] in required;
        return false;
      }
    }
    return true;
  }

  lemma NotSufficient(all: Parsed<seq<Member>>, required: seq<string>, allowed: seq<string>)
    requires all.Some? ==> !Admissible(all.value.0, allowed)
    ensures all.Some? ==> !Sufficient(all.value.0, required, allowed)
  {
  }

  /** The required check by position says whether the key was read. */
  lemma RequiredIsPresent(done: seq<Member>, name: string, allowed: seq<string>)
    requires Admissible(done, allowed)
    ensures var k := KeyIndex(name, allowed); name in Names(done) <==> k >= 0 && Presence(done, allowed)[k]
  {
  }

  lemma NoMember(s: string)
    requires s == "" || s[0] == '}'
    ensures ReadMember(s).None?
  {
  }

  /** scanAdminUserCreateObject. */
  method ScanCreateObject(raw: string, required: seq<string>, allowed: seq<string>)
    returns (values: seq<string>, presence: seq<bool>, ok: bool)
    ensures ok == ScanCreate(raw, required, allowed).Some?
    ensures ok ==> (values, presence) == ScanCreate(raw, required, allowed).value
  {
    hide CreateAt, ReadSpace, Utf8.ValidFrom;
    if !Utf8.Valid(raw) { return [], [], false; }
    assert raw[0..] == raw;
    var end;
    values, presence, end, ok := ScanCreateAt(raw, 0, required, allowed);
    if !ok { return; }
    end := SkipSpace(raw, end);
    ok := end == |raw|;
  }
}
