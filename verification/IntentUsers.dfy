/** The canonical encodings of the account-creation and permission intents as
    functions, and the proof that they are canonical and injective: two accepted
    intents encode alike exactly when they ask for the same thing. */
module IntentUsers {
  import opened Prelude
  import opened IntentBytes
  import opened IntentOrder
  import Utf8

  datatype Error = InvalidIntent | TooLarge

  datatype Override = Override(capability: string, effect: int)

  datatype CreateAccount = CreateAccount(
    username: string,
    nickname: Option<string>,
    password: string,
    role: string,
    group: Option<Int64>,
    plan: int,
    models: seq<string>,
    limit: int,
    overrides: seq<Override>)

  const NULL := 0
  const STRING := 1
  const BYTES := 2
  const INT64 := 3
  const INT32 := 4
  const ARRAY := 5

  function CapabilityOf(o: Override): string {
    o.capability
  }

  function Int64Field(tag: nat, value: Int64): Field {
    Field(tag, INT64, BigEndian(Unsigned(value), 8))
  }

  /** uint32(value). */
  function Int32Field(tag: nat, value: int): Field {
    Field(tag, INT32, BigEndian(value % 0x1_0000_0000, 4))
  }

  function ArrayField(tag: nat, items: seq<string>): Field {
    Field(tag, ARRAY, WriteArray(items))
  }

  function NullableStringField(tag: nat, value: Option<string>): Field {
    if value.None? then Field(tag, NULL, "") else Field(tag, STRING, value.value)
  }

  // ----- overrides -----

  function OverrideFields(o: Override): seq<Field> {
    [Field(1, STRING, o.capability), Int32Field(2, o.effect)]
  }

  predicate EffectOk(o: Override) {
    o.effect == 2 || o.effect == 3
  }

  function OverrideItem(o: Override): (item: string)
    requires Short(o.capability)
    ensures |item| == |o.capability| + 16
  {
    var fs := OverrideFields(o);
    assert fs[..1] == [fs[0]] && fs[..1][..0] == [];
    assert WriteFields(fs[..1]) == WriteFields([]) + WriteField(fs[0]);
    WriteFields(fs)
  }

  predicate ShortCapabilities(os: seq<Override>) {
    forall o | o in os :: Short(o.capability)
  }

  function OverrideItems(os: seq<Override>): (items: seq<string>)
    requires ShortCapabilities(os)
    ensures |items| == |os| && forall i | 0 <= i < |os| :: items[i] == OverrideItem(os[i])
  {
    if os == [] then [] else OverrideItems(os[..|os| - 1]) + [OverrideItem(os[|os| - 1])]
  }

  /** The payload size the precheck computes from the capabilities alone. */
  function PrecheckedLength(os: seq<Override>): nat {
    if os == [] then 4 else PrecheckedLength(os[..|os| - 1]) + 4 + |os[|os| - 1].capability| + 16
  }

  /** It is the size of the encoded array, byte for byte. */
  lemma {:induction false} PrecheckIsExact(os: seq<Override>)
    requires ShortCapabilities(os)
    ensures |WriteArray(OverrideItems(os))| == PrecheckedLength(os)
    decreases |os|
  {
    if os != [] {
      var n := |os| - 1;
      PrecheckIsExact(os[..n]);
      assert OverrideItems(os)[..n] == OverrideItems(os[..n]);
      hide OverrideItem;
    }
  }

  lemma {:induction false} PrecheckedFront(o: Override, os: seq<Override>)
    ensures PrecheckedLength([o] + os) == PrecheckedLength(os) + 4 + |o.capability| + 16
    decreases |os|
  {
    if os == [] {
      assert [o] + os == [o] && [o][..0] == [];
    } else {
      var n := |os| - 1;
      assert ([o] + os)[..n + 1] == [o] + os[..n] && ([o] + os)[n + 1] == os[n];
      PrecheckedFront(o, os[..n]);
    }
  }

  lemma {:induction false} PrecheckedInsert(o: Override, os: seq<Override>)
    ensures PrecheckedLength(Insert(o, os, CapabilityOf)) == PrecheckedLength(os) + 4 + |o.capability| + 16
    decreases |os|
  {
    PrecheckedFront(o, os);
    if os != [] && Less(CapabilityOf(os[0]), CapabilityOf(o)) {
      PrecheckedInsert(o, os[1..]);
      PrecheckedFront(os[0], Insert(o, os[1..], CapabilityOf));
      PrecheckedFront(os[0], os[1..]);
      assert os == [os[0]] + os[1..];
    } else if os == [] {
      assert [o] + os == [o];
    }
  }

  /** Sorting does not change it. */
  lemma {:induction false} PrecheckedSort(os: seq<Override>)
    ensures PrecheckedLength(SortBy(os, CapabilityOf)) == PrecheckedLength(os)
    decreases |os|
  {
    if os != [] {
      PrecheckedSort(os[1..]);
      PrecheckedInsert(os[0], SortBy(os[1..], CapabilityOf));
      PrecheckedFront(os[0], os[1..]);
      assert os == [os[0]] + os[1..];
    }
  }

  lemma {:induction false} SmallPrecheck(os: seq<Override>)
    requires PrecheckedLength(os) <= MAX_UINT32
    ensures ShortCapabilities(os) && |os| <= MAX_UINT32
    decreases |os|
  {
    if os != [] {
      var n := |os| - 1;
      SmallPrecheck(os[..n]);
      PrecheckedCount(os);
      assert os == os[..n] + [os[n]];
    }
  }

  lemma {:induction false} PrecheckedCount(os: seq<Override>)
    ensures PrecheckedLength(os) >= 4 + 20 * |os|
    decreases |os|
  {
    if os != [] { PrecheckedCount(os[..|os| - 1]); }
  }

  lemma SortedIsShort(os: seq<Override>)
    requires PrecheckedLength(os) <= MAX_UINT32
    ensures ShortCapabilities(SortBy(os, CapabilityOf)) &&
            PrecheckedLength(SortBy(os, CapabilityOf)) == PrecheckedLength(os)
  {
    PrecheckedSort(os);
    SmallPrecheck(SortBy(os, CapabilityOf));
  }

  /** The array of the sorted overrides, once the precheck has passed. */
  function SortedOverrides(os: seq<Override>): string
    requires PrecheckedLength(os) <= MAX_UINT32
  {
    SortedIsShort(os);
    WriteArray(OverrideItems(SortBy(os, CapabilityOf)))
  }

  lemma OverrideItemIsInjective(o: Override, p: Override)
    requires Short(o.capability) && Short(p.capability) && EffectOk(o) && EffectOk(p) &&
             OverrideItem(o) == OverrideItem(p)
    ensures o == p
  {
    hide BigEndian, FromBigEndian, ReadFields, WriteFields;
    FieldsAreRead(OverrideFields(o));
    FieldsAreRead(OverrideFields(p));
    var a, b := OverrideFields(o), OverrideFields(p);
    assert a[0] == b[0] && a[1] == b[1];
    FourBytes(o.effect);
    FourBytes(p.effect);
  }

  predicate EffectsOk(os: seq<Override>) {
    forall o | o in os :: EffectOk(o)
  }

  lemma OverrideItemsAreInjective(a: seq<Override>, b: seq<Override>)
    requires ShortCapabilities(a) && ShortCapabilities(b) && EffectsOk(a) && EffectsOk(b) &&
             OverrideItems(a) == OverrideItems(b)
    ensures a == b
  {
    forall i | 0 <= i < |a| ensures a[i] == b[i] {
      assert a[i] in a && b[i] in b;
      assert OverrideItems(a)[i] == OverrideItems(b)[i];
      OverrideItemIsInjective(a[i], b[i]);
    }
  }

  /** The encoded array tells the set of overrides, and nothing else. */
  lemma SortedOverridesAgreeIff(a: seq<Override>, b: seq<Override>)
    requires PrecheckedLength(a) <= MAX_UINT32 && PrecheckedLength(b) <= MAX_UINT32
    requires EffectsOk(a) && EffectsOk(b) && DistinctKeys(a, CapabilityOf) && DistinctKeys(b, CapabilityOf)
    ensures SortedOverrides(a) == SortedOverrides(b) <==> Elements(a) == Elements(b)
  {
    hide SortBy, WriteArray, ReadArray, OverrideItems, PrecheckedLength, EffectOk, OverrideItem;
    SortsAgreeIff(a, b, CapabilityOf);
    var s, t := SortBy(a, CapabilityOf), SortBy(b, CapabilityOf);
    SortedIsShort(a);
    SortedIsShort(b);
    SortByIsASort(a, CapabilityOf);
    SortByIsASort(b, CapabilityOf);
    SortedEffects(a);
    SortedEffects(b);
    if SortedOverrides(a) == SortedOverrides(b) {
      ItemsAreShort(s);
      ItemsAreShort(t);
      ArrayIsRead(OverrideItems(s));
      ArrayIsRead(OverrideItems(t));
      OverrideItemsAreInjective(s, t);
    }
  }

  lemma SortedEffects(os: seq<Override>)
    requires EffectsOk(os)
    ensures EffectsOk(SortBy(os, CapabilityOf))
  {
    SortByIsASort(os, CapabilityOf);
    forall o | o in SortBy(os, CapabilityOf) ensures EffectOk(o) { assert o in Elements(SortBy(os, CapabilityOf)); }
  }

  lemma ItemsAreShort(os: seq<Override>)
    requires PrecheckedLength(os) <= MAX_UINT32 && ShortCapabilities(os)
    ensures AllShort(OverrideItems(os)) && |OverrideItems(os)| <= MAX_UINT32
  {
    SmallPrecheck(os);
    forall item | item in OverrideItems(os) ensures Short(item) {
      var i :| 0 <= i < |os| && OverrideItems(os)[i] == item;
      PrecheckedAt(os, i);
    }
  }

  lemma {:induction false} PrecheckedAt(os: seq<Override>, i: nat)
    requires i < |os|
    ensures PrecheckedLength(os) >= |os[i].capability| + 16
    decreases |os|
  {
    if i < |os| - 1 { PrecheckedAt(os[..|os| - 1], i); }
  }

  // ----- models -----

  /** The payload size of an array of strings. */
  function StringsLength(items: seq<string>): nat {
    if items == [] then 4 else StringsLength(items[..|items| - 1]) + 4 + |items[|items| - 1]|
  }

  lemma {:induction false} StringsLengthIsExact(items: seq<string>)
    ensures |WriteArray(items)| == StringsLength(items)
    decreases |items|
  {
    if items != [] { StringsLengthIsExact(items[..|items| - 1]); }
  }

  lemma {:induction false} StringsFront(x: string, items: seq<string>)
    ensures StringsLength([x] + items) == StringsLength(items) + 4 + |x|
    decreases |items|
  {
    if items == [] {
      assert [x] + items == [x] && [x][..0] == [];
    } else {
      var n := |items| - 1;
      assert ([x] + items)[..n + 1] == [x] + items[..n] && ([x] + items)[n + 1] == items[n];
      StringsFront(x, items[..n]);
    }
  }

  lemma {:induction false} StringsInsert(x: string, items: seq<string>)
    ensures StringsLength(Insert(x, items, Self)) == StringsLength(items) + 4 + |x|
    decreases |items|
  {
    StringsFront(x, items);
    if items != [] && Less(Self(items[0]), Self(x)) {
      StringsInsert(x, items[1..]);
      StringsFront(items[0], Insert(x, items[1..], Self));
      StringsFront(items[0], items[1..]);
      assert items == [items[0]] + items[1..];
    } else if items == [] {
      assert [x] + items == [x];
    }
  }

  lemma {:induction false} StringsSort(items: seq<string>)
    ensures StringsLength(SortBy(items, Self)) == StringsLength(items)
    decreases |items|
  {
    if items != [] {
      StringsSort(items[1..]);
      StringsInsert(items[0], SortBy(items[1..], Self));
      StringsFront(items[0], items[1..]);
      assert items == [items[0]] + items[1..];
    }
  }

  lemma {:induction false} StringsCompact(items: seq<string>)
    ensures StringsLength(Compact(items)) <= StringsLength(items)
    decreases |items|
  {
    if items != [] {
      StringsCompact(items[..|items| - 1]);
      var c := Compact(items[..|items| - 1]);
      assert (c + [items[|items| - 1]])[..|c|] == c;
    }
  }

  /** Removing repeats never makes the array longer than the one that was checked. */
  lemma UniqueFits(models: seq<string>)
    ensures |WriteArray(SortUnique(models))| <= |WriteArray(models)|
  {
    StringsSort(models);
    StringsCompact(SortBy(models, Self));
    StringsLengthIsExact(SortUnique(models));
    StringsLengthIsExact(models);
  }

  lemma {:induction false} SmallStrings(items: seq<string>)
    requires StringsLength(items) <= MAX_UINT32
    ensures AllShort(items) && |items| <= MAX_UINT32 && StringsLength(items) >= 4 + 4 * |items|
    decreases |items|
  {
    if items != [] {
      SmallStrings(items[..|items| - 1]);
      assert items == items[..|items| - 1] + [items[|items| - 1]];
    }
  }

  /** The encoded models tell the set of models, and nothing else. */
  lemma ModelsAgreeIff(a: seq<string>, b: seq<string>)
    requires |WriteArray(a)| <= MAX_UINT32 && |WriteArray(b)| <= MAX_UINT32
    ensures WriteArray(SortUnique(a)) == WriteArray(SortUnique(b)) <==> Elements(a) == Elements(b)
  {
    SortUniqueAgreesIff(a, b);
    UniqueFits(a);
    UniqueFits(b);
    StringsLengthIsExact(SortUnique(a));
    StringsLengthIsExact(SortUnique(b));
    SmallStrings(SortUnique(a));
    SmallStrings(SortUnique(b));
    ArrayIsRead(SortUnique(a));
    ArrayIsRead(SortUnique(b));
    hide WriteArray, SortUnique, ReadArray;
  }

  // ----- account creation -----

  predicate PlainString(s: string) {
    s != "" && Utf8.Valid(s)
  }

  predicate CreateBasics(i: CreateAccount, role: string) {
    && PlainString(i.username) && i.password != "" && i.role == role && 1 <= i.plan <= 3 && 0 <= i.limit <= MAX_INT32
    && (i.nickname.Some? ==> PlainString(i.nickname.value)) && (i.group.Some? ==> i.group.value > 0)
  }

  predicate CreateLengths(i: CreateAccount) {
    && Short(i.username) && Short(i.password) && (i.nickname.Some? ==> Short(i.nickname.value))
    && |WriteArray(i.models)| <= MAX_UINT32
  }

  predicate OverridesPlain(os: seq<Override>) {
    forall o | o in os :: PlainString(o.capability) && EffectOk(o)
  }

  function CreateFields(i: CreateAccount): (fs: seq<Field>)
    requires PrecheckedLength(i.overrides) <= MAX_UINT32
    ensures |fs| == 9
  {
    [ Field(1, STRING, i.username),
      NullableStringField(2, i.nickname),
      Field(3, BYTES, i.password),
      Field(4, STRING, i.role),
      if i.group.None? then Field(5, NULL, "") else Int64Field(5, i.group.value),
      Int32Field(6, i.plan),
      ArrayField(7, SortUnique(i.models)),
      Int32Field(8, i.limit),
      Field(9, ARRAY, SortedOverrides(i.overrides)) ]
  }

  /** encodeCreateAccountIntent, its checks in order. */
  function EncodeCreate(i: CreateAccount, role: string): Result<string, Error> {
    if !CreateBasics(i, role) then Err(InvalidIntent)
    else if !CreateLengths(i) then Err(TooLarge)
    else if exists m | m in i.models :: !PlainString(m) then Err(InvalidIntent)
    else if PrecheckedLength(i.overrides) > MAX_UINT32 then Err(TooLarge)
    else if !OverridesPlain(i.overrides) || !DistinctKeys(i.overrides, CapabilityOf) then Err(InvalidIntent)
    else if !FieldsOk(CreateFields(i)) then Err(TooLarge)
    else Ok(WriteFields(CreateFields(i)))
  }

  lemma OverridesFit(os: seq<Override>)
    requires PrecheckedLength(os) <= MAX_UINT32
    ensures |SortedOverrides(os)| == PrecheckedLength(os)
  {
    SortedIsShort(os);
    PrecheckIsExact(SortBy(os, CapabilityOf));
  }

  /** The prechecks are complete: once they pass only the role, which no precheck
      looks at, can still be too long for its field. */
  lemma PrechecksAreComplete(i: CreateAccount, role: string)
    requires CreateBasics(i, role) && CreateLengths(i) && PrecheckedLength(i.overrides) <= MAX_UINT32
    ensures FieldsOk(CreateFields(i)) <==> Short(i.role)
  {
    hide PrecheckedLength, SortedOverrides, WriteArray, SortUnique, Utf8.ValidFrom, BigEndian;
    OverridesFit(i.overrides);
    UniqueFits(i.models);
    var fs := CreateFields(i);
    assert fs[3] == Field(4, STRING, i.role) && fs[3] in fs;
    assert FieldOk(fs[0]) && FieldOk(fs[1]) && FieldOk(fs[2]) && FieldOk(fs[4]) && FieldOk(fs[5]);
    assert FieldOk(fs[6]) && FieldOk(fs[7]) && FieldOk(fs[8]);
    assert forall f | f in fs :: f == fs[0] || f == fs[1] || f == fs[2] || f == fs[3] || f == fs[4] || f == fs[5]
                                 || f == fs[6] || f == fs[7] || f == fs[8];
  }

  /** The two intents ask for the same account. */
  predicate SameAccount(i: CreateAccount, j: CreateAccount) {
    && i.username == j.username && i.nickname == j.nickname && i.password == j.password && i.role == j.role
    && i.group == j.group && i.plan == j.plan && i.limit == j.limit
    && Elements(i.models) == Elements(j.models) && Elements(i.overrides) == Elements(j.overrides)
  }

  lemma Int64FieldAgrees(tag: nat, a: Int64, b: Int64)
    ensures Int64Field(tag, a) == Int64Field(tag, b) <==> a == b
  {
    hide BigEndian, FromBigEndian;
    EightBytes(Unsigned(a));
    EightBytes(Unsigned(b));
  }

  lemma Int32FieldAgrees(tag: nat, a: int, b: int)
    requires 0 <= a <= MAX_INT32 && 0 <= b <= MAX_INT32
    ensures Int32Field(tag, a) == Int32Field(tag, b) <==> a == b
  {
    hide BigEndian, FromBigEndian;
    FourBytes(a);
    FourBytes(b);
  }

  lemma FieldsAgree(i: CreateAccount, j: CreateAccount, role: string, other: string)
    requires EncodeCreate(i, role).Ok? && EncodeCreate(j, other).Ok?
    ensures CreateFields(i) == CreateFields(j) <==> SameAccount(i, j)
  {
    hide PrecheckedLength, SortedOverrides, WriteArray, SortUnique, WriteFields, FieldsOk, Utf8.ValidFrom, Elements;
    hide Int64Field, Int32Field;
    var a, b := CreateFields(i), CreateFields(j);
    if i.group.Some? && j.group.Some? { Int64FieldAgrees(5, i.group.value, j.group.value); }
    Int32FieldAgrees(6, i.plan, j.plan);
    Int32FieldAgrees(8, i.limit, j.limit);
    ModelsAgreeIff(i.models, j.models);
    SortedOverridesAgreeIff(i.overrides, j.overrides);
    GroupKinds(i, j);
    assert a == b <==> a[0] == b[0] && a[1] == b[1] && a[2] == b[2] && a[3] == b[3] && a[4] == b[4] && a[5] == b[5]
                       && a[6] == b[6] && a[7] == b[7] && a[8] == b[8];
  }

  lemma GroupKinds(i: CreateAccount, j: CreateAccount)
    ensures i.group.Some? ==> Int64Field(5, i.group.value) != Field(5, NULL, "")
    ensures j.group.Some? ==> Int64Field(5, j.group.value) != Field(5, NULL, "")
  {
  }

  /** Canonical and injective: accepted account intents encode to the same bytes
      exactly when they ask for the same account, whatever the order or repetition
      of models and the order of overrides. */
  lemma CreateEncodingIsCanonicalAndInjective(i: CreateAccount, j: CreateAccount, role: string, other: string)
    requires EncodeCreate(i, role).Ok? && EncodeCreate(j, other).Ok?
    ensures EncodeCreate(i, role) == EncodeCreate(j, other) <==> SameAccount(i, j)
  {
    FieldsAgree(i, j, role, other);
    hide CreateFields, WriteFields, FieldsOk, SameAccount, CreateBasics, CreateLengths, PrecheckedLength,
         OverridesPlain;
    FieldsAreRead(CreateFields(i));
    FieldsAreRead(CreateFields(j));
  }

  // ----- promotion and permission writes -----

  datatype Definition = Definition(grantable: bool, rootOnly: bool, unavailable: bool)

  datatype Permissions = Permissions(
    target: Int64,
    authVersion: int,
    permissionsVersion: Int64,
    catalogVersion: int,
    overrides: seq<Override>,
    reason: string)

  function RuneCountFrom(s: string, i: nat): nat
    requires i <= |s|
    decreases |s| - i
  {
    if i == |s| then 0 else 1 + RuneCountFrom(s, i + Utf8.RuneSize(s, i))
  }

  predicate ReasonOk(reason: string) {
    Utf8.Valid(reason) && 1 <= RuneCountFrom(reason, 0) <= 200
  }

  predicate Allowed(o: Override, catalog: map<string, Definition>) {
    && o.capability in catalog && !catalog[o.capability].unavailable && EffectOk(o)
    && (o.effect == 2 ==> catalog[o.capability].grantable && !catalog[o.capability].rootOnly)
  }

  predicate PermissionsBasics(i: Permissions, least: int, reason: string) {
    && i.target > 0 && 0 < i.authVersion <= MAX_INT32 && i.permissionsVersion >= least &&
         0 < i.catalogVersion <= MAX_INT32
    && ReasonOk(reason)
  }

  /** encodePermissionOverrides up to its items: the verdict. */
  function OverridesVerdict(os: seq<Override>, catalog: map<string, Definition>): Option<Error> {
    if PrecheckedLength(os) > MAX_UINT32 then Some(TooLarge)
    else if (exists o | o in os :: !Allowed(o, catalog)) || !DistinctKeys(os, CapabilityOf) then Some(InvalidIntent)
    else None
  }

  function PermissionsFields(i: Permissions, reason: string): seq<Field>
    requires PrecheckedLength(i.overrides) <= MAX_UINT32
  {
    [ Int64Field(1, i.target),
      Int32Field(2, i.authVersion),
      Int64Field(3, i.permissionsVersion),
      Int32Field(4, i.catalogVersion),
      Field(5, ARRAY, SortedOverrides(i.overrides)),
      Field(6, STRING, reason) ]
  }

  /** encodePromoteIntent (least = 0) and encodePermissionsWriteIntent (least = 1);
      `trim` is strings.TrimSpace. */
  function EncodePermissions(i: Permissions, least: int, catalog: map<string, Definition>,
      trim: string -> string): Result<string, Error> {
    var reason := trim(i.reason);
    if !PermissionsBasics(i, least, reason) then Err(InvalidIntent)
    else if OverridesVerdict(i.overrides, catalog).Some? then Err(OverridesVerdict(i.overrides, catalog).value)
    else if !FieldsOk(PermissionsFields(i, reason)) then Err(TooLarge)
    else Ok(WriteFields(PermissionsFields(i, reason)))
  }

  predicate SamePermissions(i: Permissions, j: Permissions, trim: string -> string) {
    && i.target == j.target && i.authVersion == j.authVersion && i.permissionsVersion == j.permissionsVersion
    && i.catalogVersion == j.catalogVersion && Elements(i.overrides) == Elements(j.overrides) &&
         trim(i.reason) == trim(j.reason)
  }

  lemma AllowedEffects(os: seq<Override>, catalog: map<string, Definition>)
    requires OverridesVerdict(os, catalog).None?
    ensures EffectsOk(os) && DistinctKeys(os, CapabilityOf) && PrecheckedLength(os) <= MAX_UINT32
  {
    forall o | o in os ensures EffectOk(o) { assert Allowed(o, catalog); }
  }

  /** Accepted permission intents encode alike exactly when they agree on everything
      but the order of the overrides and the space around the reason. */
  lemma PermissionsEncodingIsCanonicalAndInjective(
      i: Permissions, j: Permissions, least: int, other: int,
      catalog: map<string, Definition>, trim: string -> string)
    requires EncodePermissions(i, least, catalog, trim).Ok? && EncodePermissions(j, other, catalog, trim).Ok?
    ensures EncodePermissions(i, least, catalog, trim) == EncodePermissions(j, other, catalog, trim) <==>
            SamePermissions(i, j, trim)
  {
    hide PrecheckedLength, SortedOverrides, WriteFields, ReadFields, FieldsOk, Elements, ReasonOk, OverridesVerdict;
    hide Int64Field, Int32Field;
    AllowedEffects(i.overrides, catalog);
    AllowedEffects(j.overrides, catalog);
    var a, b := PermissionsFields(i, trim(i.reason)), PermissionsFields(j, trim(j.reason));
    FieldsAreRead(a);
    FieldsAreRead(b);
    Int64FieldAgrees(1, i.target, j.target);
    Int32FieldAgrees(2, i.authVersion, j.authVersion);
    Int64FieldAgrees(3, i.permissionsVersion, j.permissionsVersion);
    Int32FieldAgrees(4, i.catalogVersion, j.catalogVersion);
    SortedOverridesAgreeIff(i.overrides, j.overrides);
    assert a == b <==> a[0] == b[0] && a[1] == b[1] && a[2] == b[2] && a[3] == b[3] && a[4] == b[4] && a[5] == b[5];
  }
}
