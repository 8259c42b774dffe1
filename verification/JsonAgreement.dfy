/** When the two exact-object scanners agree, and what an unescaped key denotes. */
module JsonAgreement {
  import opened Prelude
  import opened JsonString
  import opened JsonNumber
  import opened JsonGrammar
  import opened JsonDecode
  import opened JsonObject

  lemma UnescapedChar(c: Char)
    requires CharOk(c) && '\\' !in SpellChar(c)
    ensures Bytes(c) == SpellChar(c)
  {
  }

  /** A key without a backslash denotes the very bytes it is written with. */
  lemma {:induction false} UnescapedKeyDenotesItself(key: seq<Char>)
    requires CharsOk(key) && '\\' !in Spell(key)
    ensures Decoded(key) == Spell(key)
    decreases |key|
  {
    hide CharOk, Bytes, SpellChar;
    if key != [] {
      forall b | b in SpellChar(key[0]) || b in Spell(key[1..]) ensures b in Spell(key) {}
      UnescapedChar(key[0]);
      UnescapedKeyDenotesItself(key[1..]);
    }
  }

  /** The two scanners, the second with required = allowed = keys, give the same
      verdict and the same values, all present. */
  predicate Agree(raw: string, keys: seq<string>) {
    && (ScanExact(raw, keys).Some? <==> ScanCreate(raw, keys, keys).Some?)
    && (ScanExact(raw, keys).Some? ==>
          ScanCreate(raw, keys, keys).value.0 == ScanExact(raw, keys).value &&
          forall p | p in ScanCreate(raw, keys, keys).value.1 :: p)
  }

  lemma KeyIndexDistinct(keys: seq<string>, k: nat)
    requires Distinct(keys) && k < |keys|
    ensures KeyIndex(keys[k], keys) == k
  {
  }

  lemma AgreeWhenDistinct(raw: string, keys: seq<string>)
    requires keys != [] && Distinct(keys)
    ensures Agree(raw, keys)
  {
    hide ReadDocument, ObjectMembers, ScanExact, ScanCreate, Admissible, Collected, KeyIndex;
    ScanExactAccepts(raw, keys);
    ScanCreateAccepts(raw, keys, keys);
    if ScanExact(raw, keys).Some? || ScanCreate(raw, keys, keys).Some? {
      var ms := ObjectMembers(ReadDocument(raw).value).value;
      assert Exact(ms, keys) ==> keys[0] in Names(ms) && ms != [];
      forall k | 0 <= k < |keys| ensures KeyIndex(keys[k], keys) == k && keys[k] in keys {
        KeyIndexDistinct(keys, k);
      }
      assert forall p | p in Presence(ms, keys) :: p;
    }
  }

  // ----- a text that tells the scanners apart when a key is repeated -----

  /** The key can be written in a JSON text as it is. */
  predicate Spellable(key: string) {
    '\\' !in key && ReadInner(key).Some?
  }

  function WithoutRepeats(keys: seq<string>): (r: seq<string>)
    ensures Distinct(r) && (forall k :: k in r <==> k in keys) && (keys != [] ==> r != [])
  {
    if keys == [] then []
    else
      var r := WithoutRepeats(keys[1..]);
      assert keys == [keys[0]] + keys[1..];
      if keys[0] in r then r else [keys[0]] + r
  }

  function ZeroMember(key: string): Member
    requires Spellable(key)
  {
    Member(ReadInner(key).value, "", "", Num(Number(false, "0", None, None)), "")
  }

  /** `{"k1":0,"k2":0,...}` */
  function ZeroMembers(keys: seq<string>): Members
    requires keys != [] && forall k | k in keys :: Spellable(k)
  {
    if |keys| == 1 then LastMember(ZeroMember(keys[0]))
      else MoreMembers(ZeroMember(keys[0]), "", ZeroMembers(keys[1..]))
  }

  lemma ZeroMemberOk(key: string)
    requires Spellable(key)
    ensures MemberOk(ZeroMember(key)) && NameOf(ZeroMember(key)) == key && Unescaped(ZeroMember(key))
  {
    hide ReadInner, Spell, CharsOk;
    InnerSound(key);
  }

  lemma {:induction false} ZeroMembersOk(keys: seq<string>)
    requires keys != [] && forall k | k in keys :: Spellable(k)
    ensures MembersOk(ZeroMembers(keys)) && Names(MemberList(ZeroMembers(keys))) == keys
    ensures forall m | m in MemberList(ZeroMembers(keys)) :: Unescaped(m)
    decreases |keys|
  {
    hide Spellable, MemberOk, NameOf, Unescaped, ZeroMember;
    assert keys[0] in keys;
    ZeroMemberOk(keys[0]);
    if |keys| > 1 {
      forall k | k in keys[1..] ensures k in keys {}
      ZeroMembersOk(keys[1..]);
      var rest := MemberList(ZeroMembers(keys[1..]));
      var ms := [ZeroMember(keys[0])] + rest;
      assert forall i | 0 <= i < |ms| :: Names(ms)[i] == if i == 0 then keys[0] else Names(rest)[i - 1];
      assert Names(ms) == keys;
    } else {
      assert Names([ZeroMember(keys[0])]) == keys;
    }
  }

  function ZeroText(keys: seq<string>): string
    requires keys != [] && forall k | k in keys :: Spellable(k)
  {
    WriteDocument(Document("", Object("", ZeroMembers(keys)), ""))
  }

  /** With a repeated key the first scanner accepts nothing, the second the object
      that holds each key once. */
  lemma RepeatedKeyTellsApart(keys: seq<string>)
    requires !Distinct(keys) && forall k | k in keys :: Spellable(k)
    ensures !Agree(ZeroText(WithoutRepeats(keys)), keys)
  {
    hide Spellable, MembersOk, ReadDocument, Unescaped, ScanExact, ScanCreate;
    var once := WithoutRepeats(keys);
    ZeroMembersOk(once);
    var d, raw := Document("", Object("", ZeroMembers(once)), ""), ZeroText(once);
    assert DocumentOk(d);
    ReadIffWritten(raw, d);
    var ms := MemberList(ZeroMembers(once));
    assert ObjectMembers(d) == Some(ms);
    ScanExactAccepts(raw, keys);
    ScanCreateAccepts(raw, keys, keys);
    forall m | m in ms ensures NameOf(m) in keys {
      var i :| 0 <= i < |ms| && ms[i] == m;
      assert Names(ms)[i] == once[i] && once[i] in once;
    }
    assert Sufficient(ms, keys, keys);
  }

  /** With no key at all the first accepts the empty object, the second nothing. */
  lemma NoKeysTellApart()
    ensures !Agree("{}", [])
  {
    hide ReadDocument, ScanExact, ScanCreate;
    var d := Document("", EmptyObject(""), "");
    assert WriteDocument(d) == "{}";
    ReadIffWritten("{}", d);
    assert ObjectMembers(d) == Some([]);
    ScanExactAccepts("{}", []);
    ScanCreateAccepts("{}", [], []);
    assert Exact([], []);
  }

  /** The scanners agree on every text exactly when the key list is not empty and
      repeats no key. */
  lemma ScannersAgreeIff(keys: seq<string>)
    requires forall k | k in keys :: Spellable(k)
    ensures (forall raw :: Agree(raw, keys)) <==> keys != [] && Distinct(keys)
  {
    hide Agree, Spellable;
    if keys == [] {
      NoKeysTellApart();
    } else if !Distinct(keys) {
      RepeatedKeyTellsApart(keys);
    } else {
      forall raw ensures Agree(raw, keys) { AgreeWhenDistinct(raw, keys); }
    }
  }
}
