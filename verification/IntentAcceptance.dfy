/** Which action intents are encoded and which are refused, said about the fields of
    the intent alone. */
module IntentAcceptance {
  import opened Prelude
  import opened IntentBytes
  import opened IntentOrder
  import opened IntentUsers
  import opened IntentText
  import JsonDecode
  import Utf8

  /** The text has from least to most characters. */
  ghost predicate HasCharacters(s: string, least: nat, most: nat) {
    exists points | Spells(points, s) :: least <= |points| <= most
  }

  ghost predicate NonEmptyText(s: string) {
    exists points | Spells(points, s) :: points != []
  }

  predicate NoneTwice(os: seq<Override>) {
    forall i, j | 0 <= i < j < |os| :: os[i].capability != os[j].capability
  }

  function CapabilityBytes(os: seq<Override>): nat {
    if os == [] then 0 else |os[0].capability| + CapabilityBytes(os[1..])
  }

  function ModelBytes(models: seq<string>): nat {
    if models == [] then 0 else |models[0]| + ModelBytes(models[1..])
  }

  /** The bytes of the overrides, encoded: a count, then for each a length, two field
      headers, the capability and a 32-bit effect. */
  function OverridesSize(os: seq<Override>): nat {
    4 + |os| * (4 + 6 + 6 + 4) + CapabilityBytes(os)
  }

  function ModelsSize(models: seq<string>): nat {
    4 + |models| * 4 + ModelBytes(models)
  }

  lemma {:induction false} PrecheckedIsSize(os: seq<Override>)
    ensures PrecheckedLength(os) == OverridesSize(os)
    decreases |os|
  {
    if os != [] {
      PrecheckedIsSize(os[1..]);
      PrecheckedFront(os[0], os[1..]);
      assert os == [os[0]] + os[1..];
    }
  }

  lemma {:induction false} StringsIsSize(models: seq<string>)
    ensures StringsLength(models) == ModelsSize(models)
    decreases |models|
  {
    if models != [] {
      StringsIsSize(models[1..]);
      StringsFront(models[0], models[1..]);
      assert models == [models[0]] + models[1..];
    }
  }

  // ----- promotion and permission writes -----

  /** The fields on their own. */
  ghost predicate FieldsInRange(i: Permissions, least: int, reason: string) {
    && i.target > 0
    && 1 <= i.authVersion <= 2147483647
    && i.permissionsVersion >= least
    && 1 <= i.catalogVersion <= 2147483647
    && HasCharacters(reason, 1, 200)
  }

  /** Granting asks for a capability that may be granted; denying for any that is in use. */
  predicate MayOverride(o: Override, catalog: map<string, Definition>) {
    && o.capability in catalog
    && !catalog[o.capability].unavailable
    && (o.effect == 3 || (o.effect == 2 && catalog[o.capability].grantable && !catalog[o.capability].rootOnly))
  }

  predicate OverridesInOrder(os: seq<Override>, catalog: map<string, Definition>) {
    NoneTwice(os) && forall k | 0 <= k < |os| :: MayOverride(os[k], catalog)
  }

  lemma VerdictIff(os: seq<Override>, catalog: map<string, Definition>)
    ensures OverridesVerdict(os, catalog) ==
            if OverridesSize(os) > 0xFFFF_FFFF then Some(TooLarge)
            else if OverridesInOrder(os, catalog) then None else Some(InvalidIntent)
  {
    PrecheckedIsSize(os);
    hide OverridesSize, PrecheckedLength;
    assert DistinctKeys(os, CapabilityOf) <==> NoneTwice(os) by { DistinctIsNoneTwice(os); }
    forall o | o in os ensures Allowed(o, catalog) <==> MayOverride(o, catalog) {}
    if forall k | 0 <= k < |os| :: MayOverride(os[k], catalog) {
      forall o | o in os ensures Allowed(o, catalog) {}
    } else {
      var k :| 0 <= k < |os| && !MayOverride(os[k], catalog);
      assert os[k] in os && !Allowed(os[k], catalog);
    }
  }

  lemma DistinctIsNoneTwice(os: seq<Override>)
    ensures DistinctKeys(os, CapabilityOf) <==> NoneTwice(os)
  {
    if DistinctKeys(os, CapabilityOf) {
      forall i, j | 0 <= i < j < |os| ensures os[i].capability != os[j].capability {
        assert CapabilityOf(os[i]) != CapabilityOf(os[j]);
      }
    }
  }

  lemma PermissionsFit(i: Permissions, least: int, reason: string)
    requires PermissionsBasics(i, least, reason) && PrecheckedLength(i.overrides) <= MAX_UINT32
    ensures FieldsOk(PermissionsFields(i, reason))
  {
    ShortReason(reason);
    OverridesFit(i.overrides);
    hide PrecheckedLength, SortedOverrides, ReasonOk, BigEndian;
    var fs := PermissionsFields(i, reason);
    assert FieldOk(fs[0]) && FieldOk(fs[1]) && FieldOk(fs[2]) && FieldOk(fs[3]) && FieldOk(fs[4]) && FieldOk(fs[5]);
    assert forall f | f in fs :: f == fs[0] || f == fs[1] || f == fs[2] || f == fs[3] || f == fs[4] || f == fs[5];
  }

  lemma {:induction false} LengthFromCount(s: string, i: nat)
    requires i <= |s|
    ensures |s| - i <= 4 * RuneCountFrom(s, i)
    decreases |s| - i
  {
    if i < |s| { LengthFromCount(s, i + Utf8.RuneSize(s, i)); }
  }

  lemma ShortReason(reason: string)
    requires ReasonOk(reason)
    ensures |reason| <= 800
  {
    LengthFromCount(reason, 0);
  }

  /** What becomes of a promotion (least = 0) or a permission write (least = 1): which
      of the two errors, and when neither. */
  lemma PermissionsAcceptedIff(i: Permissions, least: int, catalog: map<string, Definition>, trim: string -> string)
    ensures var result := EncodePermissions(i, least, catalog, trim);
            if !FieldsInRange(i, least, trim(i.reason)) then result == Err(InvalidIntent)
            else if OverridesSize(i.overrides) > 0xFFFF_FFFF then result == Err(TooLarge)
            else if !OverridesInOrder(i.overrides, catalog) then result == Err(InvalidIntent)
            else result.Ok?
  {
    ReasonOkIff(trim(i.reason));
    VerdictIff(i.overrides, catalog);
    PrecheckedIsSize(i.overrides);
    hide ReasonOk, OverridesVerdict, OverridesSize, PrecheckedLength, OverridesInOrder, PermissionsFields, WriteFields;
    if FieldsInRange(i, least, trim(i.reason)) && OverridesVerdict(i.overrides, catalog).None? {
      PermissionsFit(i, least, trim(i.reason));
    }
  }

  /** An accepted intent grants nothing that is reserved to the root account or cannot be
      granted, and names nothing that is unknown or out of use. */
  lemma AcceptedGrants(i: Permissions, least: int, catalog: map<string, Definition>, trim: string -> string,
      o: Override)
    requires EncodePermissions(i, least, catalog, trim).Ok? && o in i.overrides
    ensures o.capability in catalog && !catalog[o.capability].unavailable
    ensures o.effect == 2 ==> catalog[o.capability].grantable && !catalog[o.capability].rootOnly
  {
    PermissionsAcceptedIff(i, least, catalog, trim);
    hide EncodePermissions, FieldsInRange, OverridesSize;
  }

  lemma WithDenial(os: seq<Override>, k: nat, catalog: map<string, Definition>)
    requires k < |os| && MayOverride(os[k], catalog) && NoneTwice(os)
    requires OverridesInOrder(os[..k] + os[k + 1..], catalog)
    ensures OverridesInOrder(os, catalog)
  {
    hide MayOverride;
    var rest := os[..k] + os[k + 1..];
    forall j | 0 <= j < |os| ensures MayOverride(os[j], catalog) {
      if j < k { assert rest[j] == os[j]; } else if j > k { assert rest[j - 1] == os[j]; }
    }
  }

  /** Denying a capability that is known and in use is never why an intent is refused:
      without that override it would be refused as well, unless it is named twice or
      makes the intent too large. */
  lemma DenialIsNeverRefused(i: Permissions, least: int, catalog: map<string, Definition>, trim: string -> string,
      k: nat)
    requires k < |i.overrides| && i.overrides[k].effect == 3
    requires i.overrides[k].capability in catalog && !catalog[i.overrides[k].capability].unavailable
    requires NoneTwice(i.overrides) && OverridesSize(i.overrides) <= 0xFFFF_FFFF
    requires EncodePermissions(i.(overrides := i.overrides[..k] + i.overrides[k + 1..]), least, catalog, trim).Ok?
    ensures EncodePermissions(i, least, catalog, trim).Ok?
  {
    hide EncodePermissions, OverridesSize, HasCharacters, NoneTwice;
    var os := i.overrides[..k] + i.overrides[k + 1..];
    PermissionsAcceptedIff(i, least, catalog, trim);
    PermissionsAcceptedIff(i.(overrides := os), least, catalog, trim);
    WithDenial(i.overrides, k, catalog);
  }

  // ----- account creation -----

  /** The fields of a new account on their own. */
  ghost predicate AccountInRange(i: CreateAccount, role: string) {
    && NonEmptyText(i.username)
    && |i.password| > 0
    && i.role == role
    && 1 <= i.plan <= 3
    && 0 <= i.limit <= 2147483647
    && (i.nickname == None || NonEmptyText(i.nickname.value))
    && (i.group == None || i.group.value > 0)
  }

  predicate AccountTextsFit(i: CreateAccount) {
    && |i.username| <= 0xFFFF_FFFF && |i.password| <= 0xFFFF_FFFF
    && (i.nickname == None || |i.nickname.value| <= 0xFFFF_FFFF)
    && ModelsSize(i.models) <= 0xFFFF_FFFF
  }

  ghost predicate ModelsAreTexts(models: seq<string>) {
    forall k | 0 <= k < |models| :: NonEmptyText(models[k])
  }

  ghost predicate OverridesAreTexts(os: seq<Override>) {
    NoneTwice(os) && forall k | 0 <= k < |os| ::
      NonEmptyText(os[k].capability) && (os[k].effect == 2 || os[k].effect == 3)
  }

  lemma PlainAll()
    ensures forall s :: PlainString(s) <==> NonEmptyText(s)
  {
    forall s ensures PlainString(s) <==> NonEmptyText(s) { PlainIff(s); }
  }

  lemma BasicsIff(i: CreateAccount, role: string)
    ensures CreateBasics(i, role) <==> AccountInRange(i, role)
  {
    PlainAll();
    hide PlainString, NonEmptyText;
  }

  lemma LengthsIff(i: CreateAccount)
    ensures CreateLengths(i) <==> AccountTextsFit(i)
  {
    StringsLengthIsExact(i.models);
    StringsIsSize(i.models);
    hide WriteArray, StringsLength, ModelsSize;
  }

  lemma ModelsIff(models: seq<string>)
    ensures (exists m | m in models :: !PlainString(m)) <==> !ModelsAreTexts(models)
  {
    PlainAll();
    hide PlainString, NonEmptyText;
    if !ModelsAreTexts(models) {
      var k :| 0 <= k < |models| && !NonEmptyText(models[k]);
      assert models[k] in models && !PlainString(models[k]);
    }
  }

  lemma OverridesIff(os: seq<Override>)
    ensures OverridesPlain(os) && DistinctKeys(os, CapabilityOf) <==> OverridesAreTexts(os)
  {
    PlainAll();
    DistinctIsNoneTwice(os);
    hide PlainString, NonEmptyText, DistinctKeys, NoneTwice;
    if OverridesAreTexts(os) {
      forall o | o in os ensures PlainString(o.capability) && EffectOk(o) {
        var k :| 0 <= k < |os| && os[k] == o;
        assert NonEmptyText(os[k].capability);
      }
    }
    if OverridesPlain(os) {
      forall k | 0 <= k < |os| ensures NonEmptyText(os[k].capability) && (os[k].effect == 2 || os[k].effect == 3) {
        assert os[k] in os;
      }
    }
  }

  /** What becomes of an account intent: which of the two errors, and when neither. The
      role has to be the one of the action, and nothing looks the capabilities up. */
  lemma AccountAcceptedIff(i: CreateAccount, role: string)
    ensures var result := EncodeCreate(i, role);
            if !AccountInRange(i, role) then result == Err(InvalidIntent)
            else if !AccountTextsFit(i) then result == Err(TooLarge)
            else if !ModelsAreTexts(i.models) then result == Err(InvalidIntent)
            else if OverridesSize(i.overrides) > 0xFFFF_FFFF then result == Err(TooLarge)
            else if !OverridesAreTexts(i.overrides) then result == Err(InvalidIntent)
            else if |role| > 0xFFFF_FFFF then result == Err(TooLarge)
            else result.Ok?
  {
    BasicsIff(i, role);
    LengthsIff(i);
    ModelsIff(i.models);
    OverridesIff(i.overrides);
    PrecheckedIsSize(i.overrides);
    hide CreateLengths, AccountTextsFit, ModelsAreTexts, OverridesSize, OverridesAreTexts, CreateFields,
         PrecheckedLength;
    hide NonEmptyText, PlainString, WriteFields, FieldsOk, DistinctKeys, OverridesPlain;
    if CreateBasics(i, role) && CreateLengths(i) && PrecheckedLength(i.overrides) <= MAX_UINT32 {
      PrechecksAreComplete(i, role);
      assert i.role == role;
    }
  }
}
