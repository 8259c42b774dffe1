/** What the two exact-object scanners answer, said about the members as they are
    written: which objects are taken, and which text goes to which place. */
module JsonObjectMeaning {
  import opened Prelude
  import opened JsonString
  import opened JsonNumber
  import opened JsonGrammar
  import opened JsonObject

  /** A member with this key, written without escapes, and this value text. */
  predicate Binds(m: Member, key: string, value: string) {
    Spell(m.key) == key && WriteThen(m.value, "") == value
  }

  ghost predicate IsBound(ms: seq<Member>, key: string, value: string) {
    exists m :: m in ms && Binds(m, key, value)
  }

  predicate PlainKeys(ms: seq<Member>) {
    forall i | 0 <= i < |ms| :: '\\' !in Spell(ms[i].key)
  }

  /** The text is one object with these members. */
  predicate IsObjectOf(raw: string, ms: seq<Member>) {
    ReadDocument(raw).Some? && ObjectMembers(ReadDocument(raw).value) == Some(ms)
  }

  // ----- counting -----

  lemma DistinctSnoc(s: seq<string>)
    requires s != []
    ensures Distinct(s) <==> Distinct(s[..|s| - 1]) && s[|s| - 1] !in s[..|s| - 1]
  {
    var front := s[..|s| - 1];
    assert forall i | 0 <= i < |front| :: s[i] == front[i];
    if s[|s| - 1] in front {
      var i :| 0 <= i < |front| && front[i] == s[|s| - 1];
      assert s[i] == s[|s| - 1];
    }
    if Distinct(s) {
      forall i, j | 0 <= i < j < |front| ensures front[i] != front[j] { assert s[i] != s[j]; }
    }
  }

  lemma {:induction false} FewerThanLength(s: seq<string>)
    ensures |set x | x in s| <= |s|
    ensures Distinct(s) <==> |set x | x in s| == |s|
    decreases |s|
  {
    if s != [] {
      var n := |s| - 1;
      FewerThanLength(s[..n]);
      hide Distinct;
      DistinctSnoc(s);
      var front, all := set x | x in s[..n], set x | x in s;
      assert s == s[..n] + [s[n]] && all == front + {s[n]};
      if s[n] in front { assert all == front; }
    }
  }

  lemma SetOf(a: seq<string>, b: seq<string>)
    requires forall x | x in a :: x in b
    ensures |set x | x in a| <= |set x | x in b|
    ensures |set x | x in a| == |set x | x in b| ==> forall x | x in b :: x in a
  {
    var p, q := set x | x in a, set x | x in b;
    assert p <= q;
    Subset(p, q);
    forall x | x in b && |p| == |q| ensures x in a { assert x in q; }
  }

  lemma Subset(p: set<string>, q: set<string>)
    requires p <= q
    ensures |p| <= |q| && (|p| == |q| ==> p == q)
  {
    assert q == p + (q - p);
  }

  /** Two lists of one length, the first among the second: one without repeats covers
      the other, and neither repeats anything. */
  lemma Covers(a: seq<string>, b: seq<string>)
    requires forall x | x in a :: x in b
    requires |a| == |b| && Distinct(a)
    ensures Distinct(b) && forall x | x in b :: x in a
  {
    hide Distinct;
    FewerThanLength(a);
    FewerThanLength(b);
    SetOf(a, b);
  }

  // ----- the first scanner -----

  /** As many members as keys, and one for each key, whose value text is the answer's. */
  ghost predicate OneEach(ms: seq<Member>, keys: seq<string>, values: seq<string>) {
    && |ms| == |keys| == |values|
    && PlainKeys(ms)
    && (forall i, j | 0 <= i < j < |keys| :: keys[i] != keys[j])
    && (forall k | 0 <= k < |keys| :: IsBound(ms, keys[k], values[k]))
  }

  lemma ExactIffOneEach(ms: seq<Member>, keys: seq<string>, values: seq<string>)
    ensures Exact(ms, keys) && values == Collected(ms, keys) <==> OneEach(ms, keys, values)
  {
    if Exact(ms, keys) && values == Collected(ms, keys) { ExactIsOneEach(ms, keys); }
    if OneEach(ms, keys, values) { OneEachIsExact(ms, keys, values); }
  }

  lemma SameNumber(ms: seq<Member>, keys: seq<string>)
    requires Exact(ms, keys)
    ensures |ms| == |keys|
  {
    hide NameOf, Distinct;
    forall name | name in Names(ms) ensures name in keys {
      var i :| 0 <= i < |ms| && Names(ms)[i] == name;
      assert ms[i] in ms;
    }
    FewerThanLength(keys);
    FewerThanLength(Names(ms));
    SetOf(Names(ms), keys);
    SetOf(keys, Names(ms));
  }

  lemma ExactIsOneEach(ms: seq<Member>, keys: seq<string>)
    requires Exact(ms, keys)
    ensures OneEach(ms, keys, Collected(ms, keys))
  {
    hide Lookup, Distinct, Spell, WriteThen, IsBound;
    SameNumber(ms, keys);
    DistinctMeans(keys);
    assert PlainKeys(ms) by {
      forall i | 0 <= i < |ms| ensures '\\' !in Spell(ms[i].key) { assert ms[i] in ms && Unescaped(ms[i]); }
    }
    forall k | 0 <= k < |keys| ensures IsBound(ms, keys[k], Collected(ms, keys)[k]) {
      Found(ms, keys, k);
    }
  }

  lemma DistinctMeans(keys: seq<string>)
    ensures Distinct(keys) <==> forall i, j | 0 <= i < j < |keys| :: keys[i] != keys[j]
  {
  }

  lemma Found(ms: seq<Member>, keys: seq<string>, k: nat)
    requires k < |keys| && keys[k] in Names(ms) && Distinct(keys) && Distinct(Names(ms))
    ensures IsBound(ms, keys[k], Collected(ms, keys)[k])
  {
    hide Lookup, WriteThen, Spell;
    var i :| 0 <= i < |ms| && Names(ms)[i] == keys[k];
    LookupFinds(ms, ms[i]);
    assert KeyIndex(keys[k], keys) == k;
    assert ms[i] in ms && Binds(ms[i], keys[k], Collected(ms, keys)[k]);
  }

  lemma OneEachIsExact(ms: seq<Member>, keys: seq<string>, values: seq<string>)
    requires OneEach(ms, keys, values)
    ensures Exact(ms, keys) && values == Collected(ms, keys)
  {
    hide Lookup, WriteThen, Spell;
    DistinctMeans(keys);
    forall key | key in keys ensures key in Names(ms) {
      var k :| 0 <= k < |keys| && keys[k] == key;
      var m :| m in ms && Binds(m, keys[k], values[k]);
      var i :| 0 <= i < |ms| && ms[i] == m;
      assert Names(ms)[i] == key;
    }
    Covers(keys, Names(ms));
    forall m | m in ms ensures Unescaped(m) && NameOf(m) in keys {
      var i :| 0 <= i < |ms| && ms[i] == m;
      assert Names(ms)[i] == NameOf(m);
    }
    forall k | 0 <= k < |keys| ensures values[k] == Collected(ms, keys)[k] {
      var m :| m in ms && Binds(m, keys[k], values[k]);
      LookupFinds(ms, m);
      assert KeyIndex(keys[k], keys) == k;
    }
  }

  /** The first scanner takes exactly the objects with one plainly written member for
      each key, and answers with their value texts in the order of the keys. */
  lemma ScanExactMeans(raw: string, keys: seq<string>, values: seq<string>)
    ensures ScanExact(raw, keys) == Some(values) <==>
            exists ms :: IsObjectOf(raw, ms) && OneEach(ms, keys, values)
  {
    hide ReadDocument, ObjectMembers, OneEach, Exact, Collected, ScanExact;
    ScanExactAccepts(raw, keys);
    forall ms ensures Exact(ms, keys) && values == Collected(ms, keys) <==> OneEach(ms, keys, values) {
      ExactIffOneEach(ms, keys, values);
    }
    if ScanExact(raw, keys) == Some(values) {
      assert IsObjectOf(raw, ObjectMembers(ReadDocument(raw).value).value);
    }
  }

  // ----- the second scanner -----

  predicate NamedTwice(ms: seq<Member>) {
    exists i, j | 0 <= i < j < |ms| :: Spell(ms[i].key) == Spell(ms[j].key)
  }

  predicate HasKey(ms: seq<Member>, key: string) {
    exists i | 0 <= i < |ms| :: Spell(ms[i].key) == key
  }

  /** Some member, none named twice, every one among the allowed keys, the required among them. */
  predicate Fits(ms: seq<Member>, required: seq<string>, allowed: seq<string>) {
    && ms != [] && PlainKeys(ms) && !NamedTwice(ms)
    && (forall i | 0 <= i < |ms| :: Spell(ms[i].key) in allowed)
    && (forall k | 0 <= k < |required| :: HasKey(ms, required[k]))
  }

  /** The place of an allowed key that is there holds its value text and is marked;
      every other place, and any later place of a repeated key, is empty. */
  ghost predicate PlaceHolds(ms: seq<Member>, allowed: seq<string>, k: nat, value: string, present: bool)
    requires k < |allowed|
  {
    if HasKey(ms, allowed[k]) && allowed[k] !in allowed[..k] then
      present && IsBound(ms, allowed[k], value)
    else !present && value == ""
  }

  ghost predicate Answers(ms: seq<Member>, allowed: seq<string>, values: seq<string>, present: seq<bool>) {
    && |values| == |present| == |allowed|
    && forall k | 0 <= k < |allowed| :: PlaceHolds(ms, allowed, k, values[k], present[k])
  }

  lemma HasKeyIff(ms: seq<Member>, key: string)
    ensures HasKey(ms, key) <==> key in Names(ms)
  {
    hide Spell;
    if HasKey(ms, key) {
      var i :| 0 <= i < |ms| && Spell(ms[i].key) == key;
      assert Names(ms)[i] == key;
    }
  }

  lemma NamedTwiceIff(ms: seq<Member>)
    ensures NamedTwice(ms) <==> !Distinct(Names(ms))
  {
    hide Spell;
    if NamedTwice(ms) {
      var i, j :| 0 <= i < j < |ms| && Spell(ms[i].key) == Spell(ms[j].key);
      assert Names(ms)[i] == Names(ms)[j];
    }
  }

  lemma FitsIff(ms: seq<Member>, required: seq<string>, allowed: seq<string>)
    ensures ms != [] && Sufficient(ms, required, allowed) <==> Fits(ms, required, allowed)
  {
    hide Spell, Distinct;
    NamedTwiceIff(ms);
    forall key ensures HasKey(ms, key) <==> key in Names(ms) { HasKeyIff(ms, key); }
    hide NamedTwice, HasKey;
    if Sufficient(ms, required, allowed) {
      forall i | 0 <= i < |ms| ensures '\\' !in Spell(ms[i].key) && Spell(ms[i].key) in allowed {
        assert ms[i] in ms && Unescaped(ms[i]);
      }
    }
    if Fits(ms, required, allowed) {
      forall m | m in ms ensures Unescaped(m) && NameOf(m) in allowed {
        var i :| 0 <= i < |ms| && ms[i] == m;
      }
    }
  }

  lemma FirstPlace(allowed: seq<string>, k: nat)
    requires k < |allowed|
    ensures KeyIndex(allowed[k], allowed) == k <==> allowed[k] !in allowed[..k]
  {
    var i := KeyIndex(allowed[k], allowed);
    if i < k { assert allowed[..k][i] == allowed[k]; }
    if allowed[k] in allowed[..k] {
      var j :| 0 <= j < k && allowed[..k][j] == allowed[k];
      assert allowed[j] == allowed[k];
    }
  }

  lemma PlaceIff(ms: seq<Member>, allowed: seq<string>, k: nat, value: string, present: bool)
    requires k < |allowed| && Distinct(Names(ms))
    ensures PlaceHolds(ms, allowed, k, value, present) <==>
            value == Collected(ms, allowed)[k] && present == Presence(ms, allowed)[k]
  {
    hide Lookup, WriteThen, Spell, Distinct, HasKey;
    FirstPlace(allowed, k);
    HasKeyIff(ms, allowed[k]);
    if HasKey(ms, allowed[k]) {
      var i :| 0 <= i < |ms| && Names(ms)[i] == allowed[k];
      LookupFinds(ms, ms[i]);
      assert ms[i] in ms && Binds(ms[i], allowed[k], Lookup(ms, allowed[k]));
      forall m | m in ms && Binds(m, allowed[k], value) ensures value == Lookup(ms, allowed[k]) { LookupFinds(ms, m); }
    } else {
      LookupAbsent(ms, allowed[k]);
    }
  }

  lemma AnswersIff(ms: seq<Member>, allowed: seq<string>, values: seq<string>, present: seq<bool>)
    requires Distinct(Names(ms))
    ensures Answers(ms, allowed, values, present) <==>
            values == Collected(ms, allowed) && present == Presence(ms, allowed)
  {
    if |values| == |present| == |allowed| {
      forall k | 0 <= k < |allowed|
        ensures PlaceHolds(ms, allowed, k, values[k], present[k]) <==>
                values[k] == Collected(ms, allowed)[k] && present[k] == Presence(ms, allowed)[k]
      {
        PlaceIff(ms, allowed, k, values[k], present[k]);
      }
      hide PlaceHolds, Collected, Presence;
    }
  }

  /** The second scanner takes exactly the objects that fit, and its two answers say of
      every allowed key whether it is there and with what text. */
  lemma ScanCreateMeans(raw: string, required: seq<string>, allowed: seq<string>, values: seq<string>,
      present: seq<bool>)
    ensures ScanCreate(raw, required, allowed) == Some((values, present)) <==>
            exists ms :: IsObjectOf(raw, ms) && Fits(ms, required, allowed) && Answers(ms, allowed, values, present)
  {
    hide ReadDocument, ObjectMembers, Fits, Answers, Collected, Presence, ScanCreate;
    ScanCreateAccepts(raw, required, allowed);
    forall ms
      ensures Fits(ms, required, allowed) <==> ms != [] && Sufficient(ms, required, allowed)
      ensures Fits(ms, required, allowed) ==>
              (Answers(ms, allowed, values, present) <==>
               values == Collected(ms, allowed) && present == Presence(ms, allowed))
    {
      FitsIff(ms, required, allowed);
      if Sufficient(ms, required, allowed) { AnswersIff(ms, allowed, values, present); }
    }
    hide Sufficient;
    if ScanCreate(raw, required, allowed) == Some((values, present)) {
      assert IsObjectOf(raw, ObjectMembers(ReadDocument(raw).value).value);
    }
  }
}
