/** The byte format of action intents: big-endian numbers, fields with a tag, a
    type and a length, and arrays of byte strings, with readers that take them apart
    again. A byte string is a `string` with one character per byte. */
module IntentBytes {
  import opened Prelude

  const MAX_UINT32 := 0xFFFF_FFFF
  const MAX_UINT64 := 0xFFFF_FFFF_FFFF_FFFF
  const MAX_INT32 := 0x7FFF_FFFF

  type Uint64 = n: int | 0 <= n <= 0xFFFF_FFFF_FFFF_FFFF
  type Int64 = n: int | -0x8000_0000_0000_0000 <= n <= 0x7FFF_FFFF_FFFF_FFFF

  // ----- big-endian numbers -----

  function Pow256(k: nat): (p: nat)
    ensures p > 0
  {
    if k == 0 then 1 else 256 * Pow256(k - 1)
  }

  /** binary.BigEndian's k bytes of n. */
  function BigEndian(n: nat, k: nat): (s: string)
    ensures |s| == k
  {
    if k == 0 then "" else BigEndian(n / 256, k - 1) + [(n % 256) as char]
  }

  function FromBigEndian(s: string): nat {
    if s == "" then 0 else 256 * FromBigEndian(s[..|s| - 1]) + s[|s| - 1] as nat
  }

  lemma {:induction false} BigEndianIsRead(n: nat, k: nat)
    requires n < Pow256(k)
    ensures FromBigEndian(BigEndian(n, k)) == n
    decreases k
  {
    if k > 0 {
      BigEndianIsRead(n / 256, k - 1);
      var s := BigEndian(n, k);
      assert s[..|s| - 1] == BigEndian(n / 256, k - 1);
    }
  }

  lemma FourBytes(n: nat)
    requires n <= MAX_UINT32
    ensures FromBigEndian(BigEndian(n, 4)) == n
  {
    assert Pow256(2) == 0x10000 && Pow256(3) == 0x100_0000 && Pow256(4) == 0x1_0000_0000;
    BigEndianIsRead(n, 4);
  }

  lemma EightBytes(n: nat)
    requires n <= MAX_UINT64
    ensures FromBigEndian(BigEndian(n, 8)) == n
  {
    assert Pow256(2) == 0x10000 && Pow256(3) == 0x100_0000 && Pow256(4) == 0x1_0000_0000;
    assert Pow256(5) == 0x100_0000_0000 && Pow256(6) == 0x1_0000_0000_0000;
    assert Pow256(7) == 0x100_0000_0000_0000 && Pow256(8) == 0x1_0000_0000_0000_0000;
    BigEndianIsRead(n, 8);
  }

  /** uint64(value): two's complement. */
  function Unsigned(value: Int64): (u: Uint64) {
    if value < 0 then value + 0x1_0000_0000_0000_0000 else value
  }

  // ----- lengths, in the source's 64-bit arithmetic -----

  /** uint64 addition, which wraps. */
  function Add64(a: Uint64, b: Uint64): Uint64 {
    (a + b) % 0x1_0000_0000_0000_0000
  }

  function AddArrayItemLength(total: Uint64, itemLength: Uint64): Option<Uint64> {
    if total > MAX_UINT64 - 4 || itemLength > MAX_UINT64 - total - 4 then None
    else
      var sum := Add64(total, Add64(4, itemLength));
      if sum > MAX_UINT32 then None else Some(sum)
  }

  /** It never wraps, and succeeds exactly when the true total fits in 32 bits. */
  lemma ItemLengthIsExact(total: Uint64, itemLength: Uint64)
    ensures AddArrayItemLength(total, itemLength) ==
              if total + 4 + itemLength <= MAX_UINT32 then Some(total + 4 + itemLength) else None
  {
  }

  /** The payload length of an array of items with these lengths, as a true number. */
  function PayloadLength(lengths: seq<Uint64>): (n: nat)
    ensures n >= 4 + 4 * |lengths|
  {
    if lengths == [] then 4 else PayloadLength(lengths[..|lengths| - 1]) + 4 + lengths[|lengths| - 1]
  }

  lemma {:induction false} PayloadLengthGrows(lengths: seq<Uint64>, k: nat)
    requires k <= |lengths|
    ensures PayloadLength(lengths[..k]) <= PayloadLength(lengths)
    decreases |lengths| - k
  {
    if k < |lengths| {
      PayloadLengthGrows(lengths, k + 1);
      assert lengths[..k + 1][..k] == lengths[..k];
    } else {
      assert lengths[..k] == lengths;
    }
  }

  // ----- fields -----

  datatype Field = Field(tag: nat, typ: nat, payload: string)

  predicate FieldOk(f: Field) {
    f.tag < 256 && f.typ < 256 && |f.payload| <= MAX_UINT32
  }

  function Header(tag: nat, typ: nat, length: nat): (s: string)
    requires tag < 256 && typ < 256
    ensures |s| == 6
  {
    [tag as char, typ as char] + BigEndian(length, 4)
  }

  function WriteField(f: Field): (s: string)
    requires FieldOk(f)
    ensures |s| == 6 + |f.payload|
  {
    Header(f.tag, f.typ, |f.payload|) + f.payload
  }

  predicate FieldsOk(fs: seq<Field>) {
    forall f | f in fs :: FieldOk(f)
  }

  function WriteFields(fs: seq<Field>): string
    requires FieldsOk(fs)
  {
    if fs == [] then "" else WriteFields(fs[..|fs| - 1]) + WriteField(fs[|fs| - 1])
  }

  function ReadField(s: string): (r: Option<(Field, string)>)
    ensures r.Some? ==> |r.value.1| < |s|
  {
    if |s| < 6 then None else
    var length := FromBigEndian(s[2..6]);
    if |s| < 6 + length then None
    else Some((Field(s[0] as nat, s[1] as nat, s[6..6 + length]), s[6 + length..]))
  }

  function ReadFields(s: string): Option<seq<Field>>
    decreases |s|
  {
    if s == "" then Some([]) else
    var first := ReadField(s);
    if first.None? then None else
    var rest := ReadFields(first.value.1);
    if rest.None? then None else Some([first.value.0] + rest.value)
  }

  lemma FieldIsRead(f: Field, rest: string)
    requires FieldOk(f)
    ensures ReadField(WriteField(f) + rest) == Some((f, rest))
  {
    hide FromBigEndian, BigEndian;
    FourBytes(|f.payload|);
    var s, n := WriteField(f) + rest, |f.payload|;
    assert s[2..6] == BigEndian(n, 4);
    assert s[6..6 + n] == f.payload && s[6 + n..] == rest;
    assert s[0] == f.tag as char && s[1] == f.typ as char;
  }

  lemma {:induction false} WriteFieldsFront(fs: seq<Field>)
    requires FieldsOk(fs) && fs != []
    ensures WriteFields(fs) == WriteField(fs[0]) + WriteFields(fs[1..])
    decreases |fs|
  {
    hide WriteField, FieldOk;
    var n := |fs| - 1;
    if n == 0 {
      assert fs[..0] == [] && fs[1..] == [];
    } else {
      WriteFieldsFront(fs[..n]);
      var middle := fs[1..][..n - 1];
      assert fs[..n][1..] == middle && fs[1..][n - 1] == fs[n];
      assert WriteFields(fs[1..]) == WriteFields(middle) + WriteField(fs[n]);
      Assoc(WriteField(fs[0]), WriteFields(middle), WriteField(fs[n]));
    }
  }

  /** Fields written one after the other are read back as they were. */
  lemma {:induction false} FieldsAreRead(fs: seq<Field>)
    requires FieldsOk(fs)
    ensures ReadFields(WriteFields(fs)) == Some(fs)
    decreases |fs|
  {
    hide ReadField, WriteField, FieldOk;
    if fs != [] {
      WriteFieldsFront(fs);
      FieldIsRead(fs[0], WriteFields(fs[1..]));
      FieldsAreRead(fs[1..]);
      assert fs == [fs[0]] + fs[1..];
    }
  }

  // ----- arrays -----

  predicate Short(item: string) {
    |item| <= MAX_UINT32
  }

  predicate AllShort(items: seq<string>) {
    forall item | item in items :: Short(item)
  }

  function WriteItem(item: string): (s: string)
    ensures |s| == 4 + |item|
  {
    BigEndian(|item|, 4) + item
  }

  function WriteItems(items: seq<string>): string {
    if items == [] then "" else WriteItems(items[..|items| - 1]) + WriteItem(items[|items| - 1])
  }

  /** The payload of an array field: the count, then every item after its length. */
  function WriteArray(items: seq<string>): string {
    BigEndian(|items|, 4) + WriteItems(items)
  }

  function LengthOf(item: string): (n: Uint64)
    requires Short(item)
  {
    |item|
  }

  function Lengths(items: seq<string>): (lengths: seq<Uint64>)
    requires AllShort(items)
    ensures |lengths| == |items|
  {
    if items == [] then [] else Lengths(items[..|items| - 1]) + [LengthOf(items[|items| - 1])]
  }

  /** A header that carries the payload length counts exactly the bytes that follow it. */
  lemma {:induction false} ArrayLengthIsExact(items: seq<string>)
    requires AllShort(items)
    ensures |WriteArray(items)| == PayloadLength(Lengths(items))
    decreases |items|
  {
    if items != [] {
      var n := |items| - 1;
      ArrayLengthIsExact(items[..n]);
      assert Lengths(items)[..n] == Lengths(items[..n]) && Lengths(items)[n] == |items[n]|;
    }
  }

  function ReadItems(n: nat, s: string): Option<seq<string>> {
    if n == 0 then if s == "" then Some([]) else None
    else if |s| < 4 then None
    else
      var length := FromBigEndian(s[..4]);
      if |s| < 4 + length then None else
      var rest := ReadItems(n - 1, s[4 + length..]);
      if rest.None? then None else Some([s[4..4 + length]] + rest.value)
  }

  function ReadArray(s: string): Option<seq<string>> {
    if |s| < 4 then None else ReadItems(FromBigEndian(s[..4]), s[4..])
  }

  lemma {:induction false} WriteItemsFront(items: seq<string>)
    requires items != []
    ensures WriteItems(items) == WriteItem(items[0]) + WriteItems(items[1..])
    decreases |items|
  {
    hide WriteItem;
    if |items| == 1 {
      assert items[..0] == [] && items[1..] == [];
    } else {
      var n := |items| - 1;
      var middle := items[..n][1..];
      WriteItemsFront(items[..n]);
      assert middle == items[1..][..n - 1] && items[1..][n - 1] == items[n] && items[..n][0] == items[0];
      Assoc(WriteItem(items[0]), WriteItems(middle), WriteItem(items[n]));
    }
  }

  lemma ItemIsRead(item: string, rest: string)
    requires Short(item)
    ensures var s := WriteItem(item) + rest;
            FromBigEndian(s[..4]) == |item| && s[4..4 + |item|] == item && s[4 + |item|..] == rest
  {
    hide FromBigEndian, BigEndian;
    FourBytes(|item|);
    var s := WriteItem(item) + rest;
    assert s[..4] == BigEndian(|item|, 4);
  }

  lemma {:induction false} ItemsAreRead(items: seq<string>)
    requires AllShort(items)
    ensures ReadItems(|items|, WriteItems(items)) == Some(items)
    decreases |items|
  {
    hide FromBigEndian, WriteItem, Short;
    if items != [] {
      WriteItemsFront(items);
      ItemIsRead(items[0], WriteItems(items[1..]));
      ItemsAreRead(items[1..]);
      assert items == [items[0]] + items[1..];
    }
  }

  lemma ArrayIsRead(items: seq<string>)
    requires AllShort(items) && |items| <= MAX_UINT32
    ensures ReadArray(WriteArray(items)) == Some(items)
  {
    hide FromBigEndian, BigEndian, WriteItems, ReadItems;
    FourBytes(|items|);
    ItemsAreRead(items);
    var s := WriteArray(items);
    assert s[..4] == BigEndian(|items|, 4) && s[4..] == WriteItems(items);
  }
}
