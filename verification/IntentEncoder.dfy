/** The encoders as they are written: a writer that appends to its buffer, length
    checks that accumulate, copies sorted and made unique in place, and the caller's
    password cleared at the end. */
module IntentEncoder {
  import opened Prelude
  import opened IntentBytes
  import opened IntentOrder
  import opened IntentUsers
  import Utf8

  /** A Go string or slice: its length is a non-negative int64. */
  type Bytes = s: string | |s| <= 0x7FFF_FFFF_FFFF_FFFF

  function CheckedUint32(length: nat): Option<nat> {
    if length > MAX_UINT32 then None else Some(length)
  }

  lemma {:induction false} WrittenSnoc(items: seq<string>, k: nat)
    requires k < |items|
    ensures WriteItems(items[..k + 1]) == WriteItems(items[..k]) + WriteItem(items[k])
    ensures |WriteArray(items[..k + 1])| == |WriteArray(items[..k])| + 4 + |items[k]|
  {
    assert items[..k + 1][..k] == items[..k];
  }

  lemma {:induction false} WrittenGrows(items: seq<string>, k: nat)
    requires k <= |items|
    ensures |WriteArray(items[..k])| <= |WriteArray(items)|
    ensures forall i | k <= i < |items| :: |items[i]| <= |WriteArray(items)| - |WriteArray(items[..k])|
    decreases |items| - k
  {
    hide WriteItems, WriteArray;
    if k < |items| {
      WrittenSnoc(items, k);
      WrittenGrows(items, k + 1);
    } else {
      assert items[..k] == items;
    }
  }

  lemma {:induction false} CountFits(items: seq<string>)
    ensures |WriteArray(items)| >= 4 + 4 * |items|
    decreases |items|
  {
    if items != [] { CountFits(items[..|items| - 1]); }
  }

  /** checkedStringArrayPayloadLength, and the same loop in fieldArray. */
  method ArrayPayloadLength(items: seq<Bytes>) returns (total: Uint64, ok: bool)
    ensures ok == (|WriteArray(items)| <= MAX_UINT32)
    ensures ok ==> total == |WriteArray(items)| && |items| <= MAX_UINT32 && AllShort(items)
  {
    hide WriteItems, WriteArray;
    CountFits(items);
    total := 4;
    if CheckedUint32(|items|).None? { return 4, false; }
    ArrayStart(items);
    for k := 0 to |items|
      invariant total == |WriteArray(items[..k])|
    {
      WrittenSnoc(items, k);
      WrittenGrows(items, k + 1);
      var next := AddArrayItemLength(total, |items[k]|);
      ItemLengthIsExact(total, |items[k]|);
      if next.None? { return total, false; }
      total := next.value;
    }
    assert items[..|items|] == items;
    WrittenGrows(items, 0);
    ok := total <= MAX_UINT32;
    assert ok ==> AllShort(items);
  }

  lemma ArrayStart(items: seq<string>)
    ensures |WriteArray(items[..0])| == 4
  {
  }

  /** checkedArrayPayloadLength. */
  method CheckedArrayPayloadLength(count: Uint64, lengths: seq<Uint64>) returns (total: Uint64, ok: bool)
    ensures ok == (count == |lengths| && PayloadLength(lengths) <= MAX_UINT32)
    ensures ok ==> total == PayloadLength(lengths)
  {
    total := 4;
    if CheckedUint32(count).None? || count != |lengths| { return 4, false; }
    assert lengths[..0] == [];
    for k := 0 to |lengths|
      invariant total == PayloadLength(lengths[..k])
    {
      assert lengths[..k + 1][..k] == lengths[..k];
      PayloadLengthGrows(lengths, k + 1);
      var next := AddArrayItemLength(total, lengths[k]);
      ItemLengthIsExact(total, lengths[k]);
      if next.None? { return total, false; }
      total := next.value;
    }
    assert lengths[..|lengths|] == lengths;
    ok := CheckedUint32(total).Some?;
  }

  lemma {:induction false} PrecheckedIsPayload(os: seq<Override>, lengths: seq<Uint64>)
    requires |lengths| == |os| && forall i | 0 <= i < |os| :: lengths[i] == |os[i].capability| + 16
    ensures PayloadLength(lengths) == PrecheckedLength(os)
    decreases |os|
  {
    if os != [] {
      var n := |os| - 1;
      PrecheckedIsPayload(os[..n], lengths[..n]);
    }
  }

  lemma {:induction false} HugeCapability(os: seq<Override>, k: nat)
    requires k < |os| && |os[k].capability| > MAX_UINT64 - 16
    ensures PrecheckedLength(os) > MAX_UINT32
  {
    PrecheckedAt(os, k);
  }

  /** checkedCreateOverrideArrayPayloadLength, fed with the capability lengths. */
  method CheckOverrides(count: Uint64, capabilityLengths: seq<Uint64>, ghost os: seq<Override>) returns (ok: bool)
    requires |capabilityLengths| == |os| && forall i | 0 <= i < |os| :: capabilityLengths[i] == |os[i].capability|
    ensures ok == (count == |os| && PrecheckedLength(os) <= MAX_UINT32)
  {
    if count != |capabilityLengths| { return false; }
    var itemLengths: seq<Uint64> := [];
    for i := 0 to |capabilityLengths|
      invariant |itemLengths| == i && forall k | 0 <= k < i :: itemLengths[k] == |os[k].capability| + 16
    {
      if capabilityLengths[i] > MAX_UINT64 - 16 {
        HugeCapability(os, i);
        return false;
      }
      itemLengths := itemLengths + [capabilityLengths[i] + 16];
    }
    PrecheckedIsPayload(os, itemLengths);
    var total;
    total, ok := CheckedArrayPayloadLength(count, itemLengths);
  }

  class IntentWriter {
    var buffer: string

    constructor ()
      ensures buffer == ""
    {
      buffer := "";
    }

    method FieldHeader(tag: nat, typ: nat, length: nat) returns (ok: bool)
      requires tag < 256 && typ < 256
      modifies this
      ensures ok == (length <= MAX_UINT32)
      ensures buffer == if ok then old(buffer) + Header(tag, typ, length) else old(buffer)
    {
      var checked := CheckedUint32(length);
      if checked.None? { return false; }
      buffer := buffer + [tag as char, typ as char];
      var encoded := BigEndian(checked.value, 4);
      buffer := buffer + encoded;
      return true;
    }

    /** Any field; the buffer is left alone when the value is too long. */
    method WriteOne(tag: nat, typ: nat, value: string) returns (ok: bool)
      requires tag < 256 && typ < 256
      modifies this
      ensures ok == FieldOk(Field(tag, typ, value))
      ensures buffer == if ok then old(buffer) + WriteField(Field(tag, typ, value)) else old(buffer)
    {
      ok := FieldHeader(tag, typ, |value|);
      if !ok { return; }
      buffer := buffer + value;
    }

    method FieldString(tag: nat, value: string) returns (ok: bool)
      requires tag < 256
      modifies this
      ensures ok == FieldOk(Field(tag, STRING, value))
      ensures buffer == if ok then old(buffer) + WriteField(Field(tag, STRING, value)) else old(buffer)
    {
      if CheckedUint32(|value|).None? { return false; }
      ok := WriteOne(tag, STRING, value);
    }

    method FieldNullableString(tag: nat, value: Option<string>) returns (ok: bool)
      requires tag < 256
      modifies this
      ensures ok == FieldOk(NullableStringField(tag, value))
      ensures buffer == if ok then old(buffer) + WriteField(NullableStringField(tag, value)) else old(buffer)
    {
      if value.None? {
        ok := WriteOne(tag, NULL, "");
      } else {
        ok := FieldString(tag, value.value);
      }
    }

    method FieldInt64(tag: nat, value: Int64) returns (ok: bool)
      requires tag < 256
      modifies this
      ensures ok && FieldOk(Int64Field(tag, value)) && buffer == old(buffer) + WriteField(Int64Field(tag, value))
    {
      var encoded := BigEndian(Unsigned(value), 8);
      ok := WriteOne(tag, INT64, encoded);
    }

    method FieldInt32(tag: nat, value: int) returns (ok: bool)
      requires tag < 256
      modifies this
      ensures ok && FieldOk(Int32Field(tag, value)) && buffer == old(buffer) + WriteField(Int32Field(tag, value))
    {
      var encoded := BigEndian(value % 0x1_0000_0000, 4);
      ok := WriteOne(tag, INT32, encoded);
    }

    method FieldArray(tag: nat, items: seq<Bytes>) returns (ok: bool)
      requires tag < 256
      modifies this
      ensures ok == FieldOk(ArrayField(tag, items))
      ensures buffer == if ok then old(buffer) + WriteField(ArrayField(tag, items)) else old(buffer)
    {
      hide BigEndian, WriteItem;
      var payloadLength, fits := ArrayPayloadLength(items);
      if !fits { return false; }
      ok := FieldHeader(tag, ARRAY, payloadLength);
      ghost var start := buffer;
      buffer := buffer + BigEndian(|items|, 4);
      AppendNothing(items, buffer);
      for index := 0 to |items|
        invariant buffer == start + BigEndian(|items|, 4) + WriteItems(items[..index])
      {
        WrittenSnoc(items, index);
        AppendItem(start + BigEndian(|items|, 4), WriteItems(items[..index]), items[index]);
        buffer := buffer + BigEndian(|items[index]|, 4);
        buffer := buffer + items[index];
      }
      assert items[..|items|] == items;
      Assoc(start, BigEndian(|items|, 4), WriteItems(items));
      Assoc(old(buffer), Header(tag, ARRAY, payloadLength), WriteArray(items));
    }

    static lemma AppendNothing(items: seq<string>, b: string)
      ensures b + WriteItems(items[..0]) == b
    {
    }

    static lemma AppendItem(a: string, written: string, item: string)
      ensures a + written + BigEndian(|item|, 4) + item == a + (written + WriteItem(item))
    {
      hide BigEndian;
      Assoc4(a, written, BigEndian(|item|, 4), item);
    }
  }

  /** One more field written after the others. */
  lemma FieldsSnoc(fs: seq<Field>, k: nat)
    requires k < |fs| && FieldsOk(fs[..k]) && FieldOk(fs[k])
    ensures FieldsOk(fs[..k + 1]) && WriteFields(fs[..k + 1]) == WriteFields(fs[..k]) + WriteField(fs[k])
  {
    assert fs[..k + 1][..k] == fs[..k] && fs[..k + 1] == fs[..k] + [fs[k]];
  }

  lemma BadField(fs: seq<Field>, k: nat)
    requires k < |fs| && !FieldOk(fs[k])
    ensures !FieldsOk(fs)
  {
  }

  /** The inner encodeIntent of one override. */
  method EncodeOverride(o: Override) returns (item: string, ok: bool)
    ensures ok == Short(o.capability)
    ensures ok ==> item == OverrideItem(o)
  {
    hide BigEndian;
    var w := new IntentWriter();
    ok := w.FieldString(1, o.capability);
    if !ok { return "", false; }
    var written := w.FieldInt32(2, o.effect);
    var fs := OverrideFields(o);
    assert fs[..1] == [fs[0]] && fs[..1][..0] == [];
    assert WriteFields(fs[..1]) == "" + WriteField(fs[0]);
    return w.buffer, true;
  }

  lemma ShortAt(os: seq<Override>, k: nat)
    requires ShortCapabilities(os) && k < |os|
    ensures Short(os[k].capability)
  {
    assert os[k] in os;
  }

  /** The sorted copy, checked for repeated capabilities and encoded item by item. */
  method EncodeSortedOverrides(os: seq<Override>) returns (items: seq<Bytes>, ok: bool)
    requires PrecheckedLength(os) <= MAX_UINT32
    ensures ok == DistinctKeys(os, CapabilityOf)
    ensures ok ==> WriteArray(items) == SortedOverrides(os) && |WriteArray(items)| == PrecheckedLength(os)
  {
    hide SortBy, WriteArray, OverrideItem, PrecheckedLength, Less, DistinctKeys, Ordered, SortedOverrides,
         ShortCapabilities, Short;
    var overrides := new Override[|os|](i requires 0 <= i < |os| => os[i]);
    assert overrides[..] == os;
    InsertionSort(overrides, CapabilityOf);
    ghost var sorted := overrides[..];
    RepeatsAreNeighbours(sorted, CapabilityOf);
    SameVerdict(os, sorted);
    SortedFits(os, sorted);
    items := [];
    var i := 0;
    while i < overrides.Length
      invariant i <= overrides.Length && overrides[..] == sorted
      invariant |items| == i && forall k | 0 <= k < i :: items[k] == OverrideItem(sorted[k])
      invariant forall k | 0 < k < i :: CapabilityOf(sorted[k - 1]) != CapabilityOf(sorted[k])
    {
      if i > 0 && overrides[i - 1].capability == overrides[i].capability {
        assert CapabilityOf(sorted[i - 1]) == CapabilityOf(sorted[i]);
        return [], false;
      }
      ShortAt(sorted, i);
      var item, encoded := EncodeOverride(overrides[i]);
      items := items + [item];
      i := i + 1;
    }
    ok := true;
    SortedItems(os, sorted, items);
  }

  lemma SortedItems(os: seq<Override>, sorted: seq<Override>, items: seq<string>)
    requires multiset(os) == multiset(sorted) && Ordered(sorted, CapabilityOf) && DistinctKeys(sorted, CapabilityOf)
    requires PrecheckedLength(os) <= MAX_UINT32 && ShortCapabilities(sorted)
    requires |items| == |sorted| && forall k | 0 <= k < |items| :: items[k] == OverrideItem(sorted[k])
    ensures WriteArray(items) == SortedOverrides(os) && |WriteArray(items)| == PrecheckedLength(os)
  {
    hide SortBy, WriteArray, OverrideItem, PrecheckedLength, Less, DistinctKeys, Ordered;
    AnySortIsSortBy(os, sorted, CapabilityOf);
    assert items == OverrideItems(sorted);
    OverridesFit(os);
  }

  lemma SameVerdict(os: seq<Override>, sorted: seq<Override>)
    requires multiset(os) == multiset(sorted)
    ensures DistinctKeys(os, CapabilityOf) == DistinctKeys(sorted, CapabilityOf)
  {
    hide DistinctKeys;
    if DistinctKeys(os, CapabilityOf) { DistinctKeysFollow(os, sorted, CapabilityOf); }
    if DistinctKeys(sorted, CapabilityOf) { DistinctKeysFollow(sorted, os, CapabilityOf); }
  }

  lemma SortedFits(os: seq<Override>, sorted: seq<Override>)
    requires multiset(os) == multiset(sorted) && PrecheckedLength(os) <= MAX_UINT32
    ensures ShortCapabilities(sorted) && ShortCapabilities(os)
  {
    SmallPrecheck(os);
    forall o | o in sorted ensures Short(o.capability) { assert o in multiset(sorted); assert o in os; }
  }

  /** The nine fields of an account intent, in order, stopping at the first error. */
  method WriteCreate(i: CreateAccount, models: seq<Bytes>, overrides: seq<Bytes>) returns (encoded: string, ok: bool)
    requires PrecheckedLength(i.overrides) <= MAX_UINT32
    requires models == SortUnique(i.models) && WriteArray(overrides) == SortedOverrides(i.overrides)
    ensures ok == FieldsOk(CreateFields(i))
    ensures ok ==> encoded == WriteFields(CreateFields(i))
  {
    hide FieldOk, CreateFields, WriteArray, SortUnique, SortedOverrides, PrecheckedLength, FieldsOk, WriteFields;
    ghost var fs := CreateFields(i);
    var w := new IntentWriter();
    NoFields(fs);
    ok := WriteIdentity(w, i);
    if !ok { return "", false; }
    ok := WriteLimits(w, i, models, overrides);
    if !ok { return "", false; }
    assert fs[..9] == fs;
    encoded := w.buffer;
  }

  /** Username, nickname, password and role. */
  method WriteIdentity(w: IntentWriter, i: CreateAccount) returns (ok: bool)
    requires PrecheckedLength(i.overrides) <= MAX_UINT32 && w.buffer == ""
    modifies w
    ensures !ok ==> !FieldsOk(CreateFields(i))
    ensures ok ==> FieldsOk(CreateFields(i)[..4]) && w.buffer == WriteFields(CreateFields(i)[..4])
  {
    hide FieldOk, WriteField, WriteArray, SortUnique, SortedOverrides, PrecheckedLength, FieldsOk, WriteFields;
    hide Int64Field, Int32Field, NullableStringField;
    ghost var fs := CreateFields(i);
    NoFields(fs);
    ok := w.FieldString(1, i.username);
    if !ok { BadField(fs, 0); return; }
    FieldsSnoc(fs, 0);
    ok := w.FieldNullableString(2, i.nickname);
    if !ok { BadField(fs, 1); return; }
    FieldsSnoc(fs, 1);
    ok := w.WriteOne(3, BYTES, i.password);
    if !ok { BadField(fs, 2); return; }
    FieldsSnoc(fs, 2);
    ok := w.FieldString(4, i.role);
    if !ok { BadField(fs, 3); return; }
    FieldsSnoc(fs, 3);
  }

  /** Group, plan, models, limit and overrides. */
  method WriteLimits(w: IntentWriter, i: CreateAccount, models: seq<Bytes>, overrides: seq<Bytes>) returns (ok: bool)
    requires PrecheckedLength(i.overrides) <= MAX_UINT32
    requires models == SortUnique(i.models) && WriteArray(overrides) == SortedOverrides(i.overrides)
    requires FieldsOk(CreateFields(i)[..4]) && w.buffer == WriteFields(CreateFields(i)[..4])
    modifies w
    ensures !ok ==> !FieldsOk(CreateFields(i))
    ensures ok ==> FieldsOk(CreateFields(i)[..9]) && w.buffer == WriteFields(CreateFields(i)[..9])
  {
    hide FieldOk, WriteField, WriteArray, SortUnique, SortedOverrides, PrecheckedLength, FieldsOk, WriteFields;
    hide Int64Field, Int32Field, NullableStringField;
    ghost var fs := CreateFields(i);
    if i.group.None? {
      ok := w.WriteOne(5, NULL, "");
    } else {
      ok := w.FieldInt64(5, i.group.value);
    }
    if !ok { BadField(fs, 4); return; }
    FieldsSnoc(fs, 4);
    ok := w.FieldInt32(6, i.plan);
    FieldsSnoc(fs, 5);
    ok := w.FieldArray(7, models);
    if !ok { BadField(fs, 6); return; }
    FieldsSnoc(fs, 6);
    ok := w.FieldInt32(8, i.limit);
    FieldsSnoc(fs, 7);
    ok := w.FieldArray(9, overrides);
    if !ok { BadField(fs, 8); return; }
    FieldsSnoc(fs, 8);
  }

  lemma NoFields(fs: seq<Field>)
    ensures FieldsOk(fs[..0]) && WriteFields(fs[..0]) == ""
  {
  }

  lemma UniqueModelsAreShort(models: seq<string>)
    requires |WriteArray(models)| <= MAX_UINT32
    ensures AllShort(SortUnique(models))
  {
    UniqueFits(models);
    StringsLengthIsExact(SortUnique(models));
    SmallStrings(SortUnique(models));
  }

  /** The copy of the allowed models, checked, sorted and made unique in place. */
  method CanonicalModels(models: seq<Bytes>) returns (unique: seq<Bytes>, ok: bool)
    requires |WriteArray(models)| <= MAX_UINT32
    ensures ok == forall m | m in models :: PlainString(m)
    ensures ok ==> unique == SortUnique(models)
  {
    hide SortUnique, WriteArray, PlainString;
    var copied := new string[|models|](i requires 0 <= i < |models| => models[i]);
    assert copied[..] == models;
    for i := 0 to |models|
      invariant forall k | 0 <= k < i :: PlainString(models[k])
    {
      if !PlainString(models[i]) { return [], false; }
    }
    var n := SortUniqueInPlace(copied);
    UniqueModelsAreShort(models);
    AllBytes(copied[..n]);
    return copied[..n], true;
  }

  lemma AllBytes(items: seq<string>)
    requires AllShort(items)
    ensures forall i | 0 <= i < |items| :: |items[i]| <= 0x7FFF_FFFF_FFFF_FFFF
  {
    forall i | 0 <= i < |items| ensures |items[i]| <= 0x7FFF_FFFF_FFFF_FFFF { assert Short(items[i]); }
  }

  /** A slice of slices, as Go has them. */
  predicate Sized(i: CreateAccount) {
    && (forall m | m in i.models :: |m| <= 0x7FFF_FFFF_FFFF_FFFF)
    && (forall o | o in i.overrides :: |o.capability| <= 0x7FFF_FFFF_FFFF_FFFF)
    && |i.overrides| <= 0x7FFF_FFFF_FFFF_FFFF
  }

  method CapabilityLengthsOf(os: seq<Override>) returns (lengths: seq<Uint64>)
    requires forall o | o in os :: |o.capability| <= 0x7FFF_FFFF_FFFF_FFFF
    ensures |lengths| == |os| && forall i | 0 <= i < |os| :: lengths[i] == |os[i].capability|
  {
    lengths := [];
    for i := 0 to |os|
      invariant |lengths| == i && forall k | 0 <= k < i :: lengths[k] == |os[k].capability|
    {
      assert os[i] in os;
      lengths := lengths + [|os[i].capability|];
    }
  }

  /** clear(password). */
  method Clear(password: array<char>)
    modifies password
    ensures forall k | 0 <= k < password.Length :: password[k] == 0 as char
  {
    for k := 0 to password.Length
      invariant forall j | 0 <= j < k :: password[j] == 0 as char
    {
      password[k] := 0 as char;
    }
  }

  /** encodeCreateAccountIntent. The intent's password is the caller's buffer; it is
      cleared on every path, and what was encoded is a copy of what it held. */
  method EncodeCreateAccount(i: CreateAccount, password: array<char>, role: string)
    returns (result: Result<string, Error>)
    requires i.password == password[..] && Sized(i)
    modifies password
    ensures result == EncodeCreate(i, role)
    ensures forall k | 0 <= k < password.Length :: password[k] == 0 as char
  {
    result := EncodeCreateCopy(i, role);
    Clear(password);
  }

  method EncodeCreateCopy(i: CreateAccount, role: string) returns (result: Result<string, Error>)
    requires Sized(i)
    ensures result == EncodeCreate(i, role)
  {
    hide PrecheckedLength, WriteArray, SortUnique, SortedOverrides, CreateFields, WriteFields, FieldsOk, Utf8.ValidFrom;
    hide DistinctKeys, PlainString;
    if !CreateBasics(i, role) { return Err(InvalidIntent); }
    if CheckedUint32(|i.username|).None? || CheckedUint32(|i.password|).None? { return Err(TooLarge); }
    if i.nickname.Some? && CheckedUint32(|i.nickname.value|).None? { return Err(TooLarge); }
    var total, fits := ArrayPayloadLength(i.models);
    if !fits { return Err(TooLarge); }
    var models, plain := CanonicalModels(i.models);
    if !plain { return Err(InvalidIntent); }
    var lengths := CapabilityLengthsOf(i.overrides);
    var checked := CheckOverrides(|i.overrides|, lengths, i.overrides);
    if !checked { return Err(TooLarge); }
    for k := 0 to |i.overrides|
      invariant forall j | 0 <= j < k :: PlainString(i.overrides[j].capability) && EffectOk(i.overrides[j])
    {
      if !PlainString(i.overrides[k].capability) || !EffectOk(i.overrides[k]) {
        assert i.overrides[k] in i.overrides;
        return Err(InvalidIntent);
      }
    }
    var items, distinct := EncodeSortedOverrides(i.overrides);
    if !distinct { return Err(InvalidIntent); }
    var encoded, ok := WriteCreate(i, models, items);
    if !ok { return Err(TooLarge); }
    return Ok(encoded);
  }

  /** encodePermissionOverrides. */
  method EncodePermissionOverrides(os: seq<Override>, catalog: map<string, Definition>)
    returns (items: seq<Bytes>, error: Option<Error>)
    requires (forall o | o in os :: |o.capability| <= 0x7FFF_FFFF_FFFF_FFFF) && |os| <= 0x7FFF_FFFF_FFFF_FFFF
    ensures error == OverridesVerdict(os, catalog)
    ensures error.None? ==> PrecheckedLength(os) <= MAX_UINT32 && WriteArray(items) == SortedOverrides(os)
  {
    hide WriteArray, SortedOverrides, DistinctKeys, Allowed;
    PrecheckedCount(os);
    if CheckedUint32(|os|).None? { return [], Some(TooLarge); }
    var arrayLength: Uint64 := 4;
    assert os[..0] == [];
    for k := 0 to |os|
      invariant arrayLength == PrecheckedLength(os[..k]) && arrayLength <= MAX_UINT32
    {
      assert os[k] in os && os[..k + 1][..k] == os[..k];
      PrecheckedGrows(os, k + 1);
      if CheckedUint32(|os[k].capability|).None? {
        PrecheckedAt(os, k);
        return [], Some(TooLarge);
      }
      ItemLengthIsExact(arrayLength, |os[k].capability| + 16);
      var next := AddArrayItemLength(arrayLength, |os[k].capability| + 16);
      if next.None? { return [], Some(TooLarge); }
      arrayLength := next.value;
    }
    assert os[..|os|] == os;
    for k := 0 to |os|
      invariant forall j | 0 <= j < k :: Allowed(os[j], catalog)
    {
      if !Allowed(os[k], catalog) {
        assert os[k] in os;
        return [], Some(InvalidIntent);
      }
    }
    var distinct;
    items, distinct := EncodeSortedOverrides(os);
    return items, if distinct then None else Some(InvalidIntent);
  }

  lemma {:induction false} PrecheckedGrows(os: seq<Override>, k: nat)
    requires k <= |os|
    ensures PrecheckedLength(os[..k]) <= PrecheckedLength(os)
    decreases |os| - k
  {
    if k < |os| {
      PrecheckedGrows(os, k + 1);
      assert os[..k + 1][..k] == os[..k];
    } else {
      assert os[..k] == os;
    }
  }

  /** encodePromoteIntent and encodePermissionsWriteIntent, which differ in the least
      permissions version they take. */
  method EncodePermissionsIntent(i: Permissions, least: int, catalog: map<string, Definition>, trim: string -> string)
    returns (result: Result<string, Error>)
    requires (forall o | o in i.overrides :: |o.capability| <= 0x7FFF_FFFF_FFFF_FFFF) &&
             |i.overrides| <= 0x7FFF_FFFF_FFFF_FFFF
    ensures result == EncodePermissions(i, least, catalog, trim)
  {
    hide PrecheckedLength, WriteArray, SortedOverrides, OverridesVerdict, Int64Field, Int32Field;
    hide FieldsOk, WriteFields, FieldOk, WriteField, ReasonOk;
    var reason := trim(i.reason);
    if !PermissionsBasics(i, least, reason) { return Err(InvalidIntent); }
    var items, error := EncodePermissionOverrides(i.overrides, catalog);
    if error.Some? { return Err(error.value); }
    ghost var fs := PermissionsFields(i, reason);
    var w := new IntentWriter();
    NoFields(fs);
    var ok := w.FieldInt64(1, i.target);
    FieldsSnoc(fs, 0);
    ok := w.FieldInt32(2, i.authVersion);
    FieldsSnoc(fs, 1);
    ok := w.FieldInt64(3, i.permissionsVersion);
    FieldsSnoc(fs, 2);
    ok := w.FieldInt32(4, i.catalogVersion);
    FieldsSnoc(fs, 3);
    ok := w.FieldArray(5, items);
    if !ok { BadField(fs, 4); return Err(TooLarge); }
    FieldsSnoc(fs, 4);
    ok := w.FieldString(6, reason);
    if !ok { BadField(fs, 5); return Err(TooLarge); }
    FieldsSnoc(fs, 5);
    assert fs[..6] == fs;
    return Ok(w.buffer);
  }
}
