/** Readers of encoded intents, written from the format alone: which tag and which type
    byte every field has. An accepted intent is read back, its lists in order. */
module IntentReader {
  import opened Prelude
  import opened IntentBytes
  import opened IntentOrder
  import opened IntentUsers
  import IntentAcceptance
  import TrimSpace
  import Utf8

  /** The type bytes: 0 nothing, 1 text, 2 bytes, 3 a 64-bit and 4 a 32-bit number, 5 an array. */
  predicate Has(f: Field, tag: nat, typ: nat) {
    f.tag == tag && f.typ == typ
  }

  predicate HasNumber64(f: Field, tag: nat) {
    Has(f, tag, 3) && FromBigEndian(f.payload) <= 0xFFFF_FFFF_FFFF_FFFF
  }

  predicate HasNumber32(f: Field, tag: nat) {
    Has(f, tag, 4) && FromBigEndian(f.payload) < 0x8000_0000
  }

  /** A 64-bit number read as a signed one. */
  function Signed(n: Uint64): Int64 {
    if n < 0x8000_0000_0000_0000 then n else n - 0x1_0000_0000_0000_0000
  }

  function ReadOverride(item: string): Option<Override> {
    var fs := ReadFields(item);
    if fs.Some? && |fs.value| == 2 && Has(fs.value[0], 1, 1) && HasNumber32(fs.value[1], 2) then
      Some(Override(fs.value[0].payload, FromBigEndian(fs.value[1].payload)))
    else None
  }

  function ReadEach(items: seq<string>): Option<seq<Override>> {
    if items == [] then Some([]) else
    var first, rest := ReadOverride(items[0]), ReadEach(items[1..]);
    if first.None? || rest.None? then None else Some([first.value] + rest.value)
  }

  function ReadOverrides(payload: string): Option<seq<Override>> {
    var items := ReadArray(payload);
    if items.None? then None else ReadEach(items.value)
  }

  lemma OverrideIsRead(o: Override)
    requires Short(o.capability) && EffectOk(o)
    ensures ReadOverride(OverrideItem(o)) == Some(o)
  {
    hide ReadFields, BigEndian, FromBigEndian, WriteFields;
    FieldsAreRead(OverrideFields(o));
    FourBytes(o.effect);
  }

  lemma {:induction false} EachIsRead(os: seq<Override>)
    requires ShortCapabilities(os) && EffectsOk(os)
    ensures ReadEach(OverrideItems(os)) == Some(os)
    decreases |os|
  {
    hide ReadOverride, OverrideItem, EffectOk;
    if os != [] {
      assert os[0] in os && os == [os[0]] + os[1..];
      OverrideIsRead(os[0]);
      forall o | o in os[1..] ensures EffectOk(o) && Short(o.capability) { assert o in os; }
      EachIsRead(os[1..]);
      assert OverrideItems(os)[1..] == OverrideItems(os[1..]);
    }
  }

  lemma OverridesAreRead(os: seq<Override>)
    requires PrecheckedLength(os) <= MAX_UINT32 && EffectsOk(os)
    ensures ReadOverrides(SortedOverrides(os)) == Some(SortBy(os, CapabilityOf))
  {
    hide ReadEach, ReadArray, WriteArray, OverrideItems, PrecheckedLength, SortBy, EffectOk;
    var s := SortBy(os, CapabilityOf);
    SortedIsShort(os);
    SortedEffects(os);
    ItemsAreShort(s);
    ArrayIsRead(OverrideItems(s));
    EachIsRead(s);
  }

  lemma NumbersAreRead(wide: Int64, narrow: int)
    requires 0 <= narrow <= MAX_INT32
    ensures var n := FromBigEndian(BigEndian(Unsigned(wide), 8)); n <= 0xFFFF_FFFF_FFFF_FFFF && Signed(n) == wide
    ensures FromBigEndian(BigEndian(narrow % 0x1_0000_0000, 4)) == narrow
  {
    hide BigEndian, FromBigEndian;
    EightBytes(Unsigned(wide));
    FourBytes(narrow);
  }

  // ----- promotion and permission writes -----

  predicate PermissionsShape(fs: seq<Field>) {
    && |fs| == 6 && HasNumber64(fs[0], 1) && HasNumber32(fs[1], 2) && HasNumber64(fs[2], 3) && HasNumber32(fs[3], 4)
    && Has(fs[4], 5, 5) && Has(fs[5], 6, 1)
  }

  function ReadPermissions(s: string): Option<Permissions> {
    var read := ReadFields(s);
    if read.None? || !PermissionsShape(read.value) then None else
    var fs := read.value;
    var overrides := ReadOverrides(fs[4].payload);
    if overrides.None? then None else
    Some(Permissions(Signed(FromBigEndian(fs[0].payload)), FromBigEndian(fs[1].payload),
                     Signed(FromBigEndian(fs[2].payload)), FromBigEndian(fs[3].payload),
                     overrides.value, fs[5].payload))
  }

  /** An accepted intent is read back from its encoding, with its overrides in the order
      of their capabilities and the space around its reason gone. */
  lemma PermissionsAreRead(i: Permissions, least: int, catalog: map<string, Definition>, trim: string -> string)
    requires EncodePermissions(i, least, catalog, trim).Ok?
    ensures ReadPermissions(EncodePermissions(i, least, catalog, trim).value) ==
            Some(i.(overrides := SortBy(i.overrides, CapabilityOf), reason := trim(i.reason)))
  {
    hide ReadFields, WriteFields, BigEndian, FromBigEndian, PrecheckedLength, SortedOverrides, ReadOverrides, FieldsOk;
    hide OverridesVerdict, ReasonOk, SortBy, EffectsOk;
    AllowedEffects(i.overrides, catalog);
    OverridesAreRead(i.overrides);
    FieldsAreRead(PermissionsFields(i, trim(i.reason)));
    NumbersAreRead(i.target, i.authVersion);
    NumbersAreRead(i.permissionsVersion, i.catalogVersion);
  }

  // ----- account creation -----

  predicate AccountShape(fs: seq<Field>) {
    && |fs| == 9 && Has(fs[0], 1, 1) && (Has(fs[1], 2, 0) || Has(fs[1], 2, 1)) && Has(fs[2], 3, 2)
    && Has(fs[3], 4, 1) && (Has(fs[4], 5, 0) || HasNumber64(fs[4], 5)) && HasNumber32(fs[5], 6)
    && Has(fs[6], 7, 5) && HasNumber32(fs[7], 8) && Has(fs[8], 9, 5)
  }

  function ReadAccount(s: string): Option<CreateAccount> {
    var read := ReadFields(s);
    if read.None? || !AccountShape(read.value) then None else
    var fs := read.value;
    var models, overrides := ReadArray(fs[6].payload), ReadOverrides(fs[8].payload);
    if models.None? || overrides.None? then None else
    Some(CreateAccount(fs[0].payload, if fs[1].typ == 0 then None else Some(fs[1].payload), fs[2].payload,
                       fs[3].payload, if fs[4].typ == 0 then None else Some(Signed(FromBigEndian(fs[4].payload))),
                       FromBigEndian(fs[5].payload), models.value, FromBigEndian(fs[7].payload), overrides.value))
  }

  lemma ModelsAreRead(models: seq<string>)
    requires |WriteArray(models)| <= MAX_UINT32
    ensures ReadArray(WriteArray(SortUnique(models))) == Some(SortUnique(models))
  {
    hide WriteArray, ReadArray, SortUnique;
    UniqueFits(models);
    StringsLengthIsExact(SortUnique(models));
    SmallStrings(SortUnique(models));
    ArrayIsRead(SortUnique(models));
  }

  /** An accepted account intent is read back, with its models in order and none twice
      and its overrides in the order of their capabilities. */
  lemma AccountIsRead(i: CreateAccount, role: string)
    requires EncodeCreate(i, role).Ok?
    ensures ReadAccount(EncodeCreate(i, role).value) ==
            Some(i.(models := SortUnique(i.models), overrides := SortBy(i.overrides, CapabilityOf)))
  {
    hide ReadFields, WriteFields, BigEndian, FromBigEndian, PrecheckedLength, SortedOverrides, ReadOverrides, FieldsOk;
    hide SortBy, EffectsOk, WriteArray, ReadArray, SortUnique, PlainString;
    assert EffectsOk(i.overrides) by { EffectsFollow(i.overrides); }
    OverridesAreRead(i.overrides);
    ModelsAreRead(i.models);
    FieldsAreRead(CreateFields(i));
    NumbersAreRead(if i.group.Some? then i.group.value else 0, i.plan);
    NumbersAreRead(0, i.limit);
  }

  lemma EffectsFollow(os: seq<Override>)
    requires OverridesPlain(os)
    ensures EffectsOk(os)
  {
    hide PlainString;
  }

  // ----- the order -----

  /** a is b's beginning, or smaller where they first differ. */
  predicate SmallerFrom(a: string, b: string, k: nat) {
    k <= |a| && k < |b| && a[..k] == b[..k] && (k == |a| || a[k] < b[k])
  }

  /** The order of the lists is the byte order of texts. */
  lemma {:induction false} LessIff(a: string, b: string)
    ensures Less(a, b) <==> exists k: nat :: SmallerFrom(a, b, k)
    decreases |a|
  {
    if a == "" {
      if b != "" { assert SmallerFrom(a, b, 0); }
    } else if b != "" {
      LessIff(a[1..], b[1..]);
      if a[0] < b[0] { assert SmallerFrom(a, b, 0); }
      if a[0] == b[0] {
        if Less(a[1..], b[1..]) {
          var k: nat :| SmallerFrom(a[1..], b[1..], k);
          assert a[..k + 1] == [a[0]] + a[1..][..k] && b[..k + 1] == [b[0]] + b[1..][..k];
          assert SmallerFrom(a, b, k + 1);
        }
      }
      forall k: nat | SmallerFrom(a, b, k) ensures Less(a, b) {
        if k > 0 {
          assert a[..k][0] == a[0] && b[..k][0] == b[0];
          assert a[1..][..k - 1] == a[..k][1..] && b[1..][..k - 1] == b[..k][1..];
          assert SmallerFrom(a[1..], b[1..], k - 1);
        }
      }
    }
  }

  // ----- the bytes themselves -----

  type Byte = n: int | 0 <= n < 256

  /** The bytes with these values. */
  function Octets(values: seq<Byte>): (s: string)
    ensures |s| == |values| && forall k | 0 <= k < |s| :: s[k] == values[k] as char
  {
    seq(|values|, k requires 0 <= k < |values| => values[k] as char)
  }

  lemma FourBytesAre(n: nat)
    requires n < 256
    ensures BigEndian(n, 4) == Octets([0, 0, 0, n])
  {
    assert n / 256 == 0 && n % 256 == n;
    assert BigEndian(0, 1) == [0 as char];
    assert BigEndian(0, 2) == [0 as char, 0 as char];
    assert BigEndian(0, 3) == [0 as char, 0 as char, 0 as char];
  }

  lemma EightBytesAre(n: nat)
    requires n < 256
    ensures BigEndian(n, 8) == Octets([0, 0, 0, 0, 0, 0, 0, n])
  {
    assert n / 256 == 0 && n % 256 == n;
    assert BigEndian(0, 3) == [0 as char, 0 as char, 0 as char];
    assert BigEndian(0, 5) == BigEndian(0, 3) + [0 as char, 0 as char];
    assert BigEndian(0, 7) == BigEndian(0, 5) + [0 as char, 0 as char];
  }

  lemma ShortField(tag: nat, typ: nat, payload: string)
    requires tag < 256 && typ < 256 && |payload| < 256
    ensures WriteField(Field(tag, typ, payload)) == Octets([tag, typ, 0, 0, 0, |payload|]) + payload
  {
    FourBytesAre(|payload|);
    assert Header(tag, typ, |payload|) == Octets([tag, typ, 0, 0, 0, |payload|]);
    hide BigEndian;
  }

  lemma TwoFields(a: Field, b: Field)
    requires FieldOk(a) && FieldOk(b)
    ensures FieldsOk([a, b]) && WriteFields([a, b]) == WriteField(a) + WriteField(b)
  {
    hide WriteField, FieldOk;
    assert [a, b][..1] == [a] && [a][..0] == [];
    assert WriteFields([a]) == "" + WriteField(a);
  }

  lemma SixFields(fs: seq<Field>)
    requires FieldsOk(fs) && |fs| == 6
    ensures WriteFields(fs) == WriteField(fs[0]) + WriteField(fs[1]) + WriteField(fs[2]) + WriteField(fs[3])
                               + WriteField(fs[4]) + WriteField(fs[5])
  {
    hide WriteField, FieldOk;
    assert fs[..6] == fs && fs[..5] == fs[..6][..5] && fs[..4] == fs[..5][..4] && fs[..3] == fs[..4][..3];
    assert fs[..2] == fs[..3][..2] && fs[..1] == fs[..2][..1] && fs[..0] == fs[..1][..0] == [];
    assert WriteFields(fs[..1]) == "" + WriteField(fs[0]);
    assert WriteFields(fs[..2]) == WriteFields(fs[..1]) + WriteField(fs[1]);
    assert WriteFields(fs[..3]) == WriteFields(fs[..2]) + WriteField(fs[2]);
    assert WriteFields(fs[..4]) == WriteFields(fs[..3]) + WriteField(fs[3]);
    assert WriteFields(fs[..5]) == WriteFields(fs[..4]) + WriteField(fs[4]);
  }

  const READ := Override("users.read", 2)
  const DELETE := Override("users.delete", 3)

  lemma ItemsAre()
    ensures OverrideItem(DELETE) ==
            Octets([1, 1, 0, 0, 0, 12]) + "users.delete" + Octets([2, 4, 0, 0, 0, 4]) + Octets([0, 0, 0, 3])
    ensures OverrideItem(READ) ==
            Octets([1, 1, 0, 0, 0, 10]) + "users.read" + Octets([2, 4, 0, 0, 0, 4]) + Octets([0, 0, 0, 2])
  {
    hide BigEndian, WriteField, WriteFields;
    FourBytesAre(3);
    FourBytesAre(2);
    ItemIs(DELETE);
    ItemIs(READ);
  }

  lemma ItemIs(o: Override)
    requires |o.capability| < 256 && 0 <= o.effect < 256
    ensures OverrideItem(o) == Octets([1, 1, 0, 0, 0, |o.capability|]) + o.capability + Octets([2, 4, 0, 0, 0, 4])
                               + Octets([0, 0, 0, o.effect])
  {
    hide BigEndian, WriteField, WriteFields;
    FourBytesAre(o.effect);
    ShortField(1, 1, o.capability);
    ShortField(2, 4, BigEndian(o.effect, 4));
    TwoFields(OverrideFields(o)[0], OverrideFields(o)[1]);
    assert OverrideFields(o) == [OverrideFields(o)[0], OverrideFields(o)[1]];
    Assoc(Octets([1, 1, 0, 0, 0, |o.capability|]) + o.capability, Octets([2, 4, 0, 0, 0, 4]),
          Octets([0, 0, 0, o.effect]));
  }

  lemma WriteItemIs(item: string)
    requires |item| < 256
    ensures WriteItem(item) == Octets([0, 0, 0, |item|]) + item
  {
    FourBytesAre(|item|);
    hide BigEndian;
  }

  lemma TwoItems(a: string, b: string)
    ensures WriteItems([a, b]) == WriteItem(a) + WriteItem(b)
  {
    hide WriteItem;
    assert [a, b][..1] == [a] && [a][..0] == [];
    assert WriteItems([a]) == "" + WriteItem(a);
  }

  lemma ArrayIs(a: string, b: string)
    requires |a| < 256 && |b| < 256
    ensures WriteArray([a, b]) == Octets([0, 0, 0, 2]) + (Octets([0, 0, 0, |a|]) + a + (Octets([0, 0, 0, |b|]) + b))
  {
    hide BigEndian, WriteItems;
    FourBytesAre(2);
    TwoItems(a, b);
    WriteItemIs(a);
    WriteItemIs(b);
  }

  lemma DeleteIsLess()
    ensures Less("users.delete", "users.read")
  {
    hide Less;
    var a, b := "users.delete", "users.read";
    LessIff(a, b);
    assert a[..6] == "users." && b[..6] == "users.";
    assert SmallerFrom(a, b, 6);
  }

  /** "users.delete" goes before "users.read". */
  lemma DeleteIsFirst()
    ensures SortBy([READ, DELETE], CapabilityOf) == [DELETE, READ]
    ensures DistinctKeys([READ, DELETE], CapabilityOf)
  {
    hide Less;
    DeleteIsLess();
    assert [READ, DELETE][1..] == [DELETE] && [DELETE][1..] == [];
    assert SortBy([DELETE], CapabilityOf) == [DELETE];
    assert CapabilityOf(DELETE) == "users.delete" && CapabilityOf(READ) == "users.read";
    assert Insert(READ, [], CapabilityOf) == [READ];
    assert Insert(READ, [DELETE], CapabilityOf) == [DELETE] + Insert(READ, [], CapabilityOf);
  }

  /** The intent of the repository's own test. */
  function Example(version: Int64): Permissions {
    Permissions(42, 7, version, 1, [READ, DELETE], "\tcase\n")
  }

  /** A catalog that lets one capability be granted and knows the other, whatever else it says. */
  predicate KnowsBoth(catalog: map<string, Definition>) {
    && "users.read" in catalog && catalog["users.read"] == Definition(true, false, false)
    && "users.delete" in catalog && !catalog["users.delete"].unavailable
  }

  lemma ReasonIs()
    ensures TrimSpace.Trimmed("\tcase\n") == "case" && ReasonOk("case")
  {
    assert TrimSpace.Concat(["\t"]) == "\t" && TrimSpace.Concat(["\n"]) == "\n";
    TrimSpace.TrimmedPadded(["\t"], "case", ["\n"]);
    assert "\t" + "case" + "\n" == "\tcase\n";
    assert Utf8.RuneSize("case", 0) == Utf8.RuneSize("case", 1) == Utf8.RuneSize("case", 2) == 1;
    assert Utf8.RuneSize("case", 3) == 1;
    assert RuneCountFrom("case", 2) == 2;
    assert RuneCountFrom("case", 0) == 4;
    assert Utf8.ValidFrom("case", 2);
  }

  lemma ExampleIsAccepted(version: Int64, least: int, catalog: map<string, Definition>)
    requires least <= version && KnowsBoth(catalog)
    ensures PrecheckedLength(Example(version).overrides) == 66
    ensures FieldsOk(PermissionsFields(Example(version), "case"))
    ensures EncodePermissions(Example(version), least, catalog, TrimSpace.Trimmed) ==
            Ok(WriteFields(PermissionsFields(Example(version), "case")))
  {
    ReasonIs();
    PrecheckedFront(READ, [DELETE]);
    PrecheckedFront(DELETE, []);
    DeleteIsFirst();
    hide TrimSpace.Trimmed, ReasonOk, WriteFields, FieldsOk, PermissionsFields, DistinctKeys;
    assert [READ] + [DELETE] == [READ, DELETE] && [DELETE] + [] == [DELETE];
    assert forall o | o in [READ, DELETE] :: Allowed(o, catalog);
    IntentAcceptance.PermissionsFit(Example(version), least, "case");
  }

  lemma ExampleArray()
    requires PrecheckedLength([READ, DELETE]) <= MAX_UINT32
    ensures SortedOverrides([READ, DELETE]) ==
            Octets([0, 0, 0, 2])
            + (Octets([0, 0, 0, 0x1c]) + (Octets([1, 1, 0, 0, 0, 12]) + "users.delete"
               + Octets([2, 4, 0, 0, 0, 4]) + Octets([0, 0, 0, 3]))
            + (Octets([0, 0, 0, 0x1a]) + (Octets([1, 1, 0, 0, 0, 10]) + "users.read"
               + Octets([2, 4, 0, 0, 0, 4]) + Octets([0, 0, 0, 2]))))
  {
    hide BigEndian, WriteField, WriteFields, WriteArray, OverrideItem, SortBy, PrecheckedLength, DistinctKeys, Octets;
    SortedIsShort([READ, DELETE]);
    DeleteIsFirst();
    ItemsAre();
    ArrayIs(OverrideItem(DELETE), OverrideItem(READ));
    assert OverrideItems([DELETE, READ]) == [OverrideItem(DELETE), OverrideItem(READ)];
  }

  lemma WideField(tag: Byte, n: Byte)
    ensures FieldOk(Int64Field(tag, n)) &&
            WriteField(Int64Field(tag, n)) == Octets([tag, 3, 0, 0, 0, 8]) + Octets([0, 0, 0, 0, 0, 0, 0, n])
  {
    hide BigEndian, WriteField;
    EightBytesAre(n);
    ShortField(tag, 3, BigEndian(n, 8));
  }

  lemma NarrowField(tag: Byte, n: Byte)
    ensures FieldOk(Int32Field(tag, n)) &&
            WriteField(Int32Field(tag, n)) == Octets([tag, 4, 0, 0, 0, 4]) + Octets([0, 0, 0, n])
  {
    hide BigEndian, WriteField;
    FourBytesAre(n);
    ShortField(tag, 4, BigEndian(n, 4));
  }

  /** The bytes the repository's tests expect of a promotion (version 0) and of a
      permission write (version 3). */
  lemma ExampleBytes(version: Byte, least: int, catalog: map<string, Definition>)
    requires least <= version && KnowsBoth(catalog)
    ensures EncodePermissions(Example(version), least, catalog, TrimSpace.Trimmed) == Ok(
              Octets([1, 3, 0, 0, 0, 8]) + Octets([0, 0, 0, 0, 0, 0, 0, 0x2a])
              + (Octets([2, 4, 0, 0, 0, 4]) + Octets([0, 0, 0, 7]))
              + (Octets([3, 3, 0, 0, 0, 8]) + Octets([0, 0, 0, 0, 0, 0, 0, version]))
              + (Octets([4, 4, 0, 0, 0, 4]) + Octets([0, 0, 0, 1]))
              + (Octets([5, 5, 0, 0, 0, 0x42]) + (Octets([0, 0, 0, 2])
                 + (Octets([0, 0, 0, 0x1c]) + (Octets([1, 1, 0, 0, 0, 12]) + "users.delete"
                    + Octets([2, 4, 0, 0, 0, 4]) + Octets([0, 0, 0, 3]))
                 + (Octets([0, 0, 0, 0x1a]) + (Octets([1, 1, 0, 0, 0, 10]) + "users.read"
                    + Octets([2, 4, 0, 0, 0, 4]) + Octets([0, 0, 0, 2]))))))
              + (Octets([6, 1, 0, 0, 0, 4]) + "case"))
  {
    hide TrimSpace.Trimmed, EncodePermissions, BigEndian, WriteField, WriteFields, WriteArray, OverrideItem, SortBy;
    hide PrecheckedLength, KnowsBoth, FieldsOk, DistinctKeys, Octets, SortedOverrides, Int64Field, Int32Field;
    ExampleIsAccepted(version, least, catalog);
    OverridesFit([READ, DELETE]);
    ExampleArray();
    SixFields(PermissionsFields(Example(version), "case"));
    WideField(1, 42);
    NarrowField(2, 7);
    WideField(3, version);
    NarrowField(4, 1);
    ShortField(5, 5, SortedOverrides([READ, DELETE]));
    ShortField(6, 1, "case");
  }
}
