/** Sorting by a string key: the byte order of strings, ordered permutations and
    their uniqueness, the in-place insertion sort, and the in-place removal of
    repeats. */
module IntentOrder {
  /** Go's < on strings. */
  predicate Less(a: string, b: string)
    decreases |a|
  {
    b != "" && (a == "" || a[0] < b[0] || (a[0] == b[0] && Less(a[1..], b[1..])))
  }

  lemma {:induction false} LessIsStrict(a: string, b: string)
    ensures !(Less(a, b) && Less(b, a)) && !Less(a, a)
    decreases |a|
  {
    if a != "" {
      LessIsStrict(a[1..], a[1..]);
      if b != "" { LessIsStrict(a[1..], b[1..]); }
    }
  }

  lemma {:induction false} LessIsTotal(a: string, b: string)
    ensures a == b || Less(a, b) || Less(b, a)
    decreases |a|
  {
    if a != "" && b != "" && a[0] == b[0] {
      LessIsTotal(a[1..], b[1..]);
      assert a == [a[0]] + a[1..] && b == [b[0]] + b[1..];
    }
  }

  lemma {:induction false} LessIsTransitive(a: string, b: string, c: string)
    requires Less(a, b) && Less(b, c)
    ensures Less(a, c)
    decreases |a|
  {
    if a != "" && a[0] == b[0] == c[0] { LessIsTransitive(a[1..], b[1..], c[1..]); }
  }

  /** Not greater: the order a sort leaves. */
  lemma AtMostIsTransitive(a: string, b: string, c: string)
    requires !Less(b, a) && !Less(c, b)
    ensures !Less(c, a)
  {
  }

  predicate Ordered<T>(s: seq<T>, key: T -> string) {
    forall i, j | 0 <= i < j < |s| :: !Less(key(s[j]), key(s[i]))
  }

  predicate Strict<T>(s: seq<T>, key: T -> string) {
    forall i, j | 0 <= i < j < |s| :: Less(key(s[i]), key(s[j]))
  }

  predicate DistinctKeys<T>(s: seq<T>, key: T -> string) {
    forall i, j | 0 <= i < j < |s| :: key(s[i]) != key(s[j])
  }

  function Elements<T>(s: seq<T>): set<T> {
    set x | x in s
  }

  lemma OrderedDistinctIsStrict<T>(s: seq<T>, key: T -> string)
    ensures Ordered(s, key) && DistinctKeys(s, key) <==> Strict(s, key)
  {
    forall i, j | 0 <= i < j < |s|
      ensures Less(key(s[i]), key(s[j])) <==> !Less(key(s[j]), key(s[i])) && key(s[i]) != key(s[j])
    {
      LessIsTotal(key(s[i]), key(s[j]));
      LessIsStrict(key(s[i]), key(s[j]));
      LessIsStrict(key(s[i]), key(s[i]));
    }
  }

  /** The front of a strictly ordered list is its smallest element. */
  lemma FrontIsLeast<T>(s: seq<T>, x: T, key: T -> string)
    requires Strict(s, key) && x in s
    ensures x == s[0] || Less(key(s[0]), key(x))
  {
  }

  lemma HasElements<T>(s: seq<T>)
    ensures s != [] ==> Elements(s) != {}
  {
    if s != [] { assert s[0] in Elements(s); }
  }

  /** A strictly ordered list is determined by its elements. */
  lemma {:induction false} StrictIsUnique<T>(a: seq<T>, b: seq<T>, key: T -> string)
    requires Strict(a, key) && Strict(b, key) && Elements(a) == Elements(b)
    ensures a == b
    decreases |a|
  {
    HasElements(b);
    if a != [] {
      assert a[0] in Elements(a) && (b != [] ==> b[0] in Elements(b));
      FrontIsLeast(a, b[0], key);
      FrontIsLeast(b, a[0], key);
      LessIsStrict(key(a[0]), key(b[0]));
      RestElements(a, key);
      RestElements(b, key);
      StrictIsUnique(a[1..], b[1..], key);
      assert a == [a[0]] + a[1..] && b == [b[0]] + b[1..];
    }
  }

  lemma RestElements<T>(a: seq<T>, key: T -> string)
    requires Strict(a, key) && a != []
    ensures Elements(a[1..]) == Elements(a) - {a[0]}
  {
    LessIsStrict(key(a[0]), key(a[0]));
    assert a == [a[0]] + a[1..];
    forall x | x in a[1..] ensures x != a[0] {
      var i :| 0 <= i < |a| - 1 && a[1..][i] == x;
      assert a[i + 1] == x;
    }
  }

  // ----- sorting as a function -----

  function Insert<T>(x: T, s: seq<T>, key: T -> string): seq<T> {
    if s == [] then [x]
    else if Less(key(s[0]), key(x)) then [s[0]] + Insert(x, s[1..], key)
    else [x] + s
  }

  function SortBy<T>(s: seq<T>, key: T -> string): seq<T> {
    if s == [] then [] else Insert(s[0], SortBy(s[1..], key), key)
  }

  lemma {:induction false} InsertKeeps<T>(x: T, s: seq<T>, key: T -> string)
    ensures multiset(Insert(x, s, key)) == multiset{x} + multiset(s)
    decreases |s|
  {
    if s != [] {
      assert s == [s[0]] + s[1..];
      InsertKeeps(x, s[1..], key);
    }
  }

  lemma {:induction false} InsertOrders<T>(x: T, s: seq<T>, key: T -> string)
    requires Ordered(s, key)
    ensures Ordered(Insert(x, s, key), key)
    decreases |s|
  {
    var r := Insert(x, s, key);
    if s == [] {
    } else if Less(key(s[0]), key(x)) {
      InsertOrders(x, s[1..], key);
      InsertKeeps(x, s[1..], key);
      forall j | 1 <= j < |r| ensures !Less(key(r[j]), key(r[0])) {
        assert r[1..][j - 1] == r[j] && r[j] in multiset(r[1..]);
        if r[j] == x {
          LessIsStrict(key(s[0]), key(x));
        } else {
          assert r[j] in s[1..];
          var i :| 1 <= i < |s| && s[i] == r[j];
        }
      }
      assert forall i, j | 1 <= i < j < |r| :: r[i] == r[1..][i - 1] && r[j] == r[1..][j - 1];
    } else {
      forall j | 1 <= j < |r| ensures !Less(key(r[j]), key(r[0])) {
        if j > 1 { AtMostIsTransitive(key(x), key(s[0]), key(s[j - 1])); }
      }
    }
  }

  lemma {:induction false} SortByIsASort<T>(s: seq<T>, key: T -> string)
    ensures multiset(SortBy(s, key)) == multiset(s) && Ordered(SortBy(s, key), key)
    ensures Elements(SortBy(s, key)) == Elements(s)
    decreases |s|
  {
    if s != [] {
      SortByIsASort(s[1..], key);
      InsertKeeps(s[0], SortBy(s[1..], key), key);
      InsertOrders(s[0], SortBy(s[1..], key), key);
      assert s == [s[0]] + s[1..];
    }
    SameElements(SortBy(s, key), s);
  }

  lemma SameElements<T>(a: seq<T>, b: seq<T>)
    requires multiset(a) == multiset(b)
    ensures Elements(a) == Elements(b)
  {
    forall x ensures x in a <==> x in b { assert x in a <==> x in multiset(a); assert x in b <==> x in multiset(b); }
  }

  lemma DistinctKeysFollow<T>(a: seq<T>, b: seq<T>, key: T -> string)
    requires multiset(a) == multiset(b) && DistinctKeys(a, key)
    ensures DistinctKeys(b, key)
  {
    forall i, j | 0 <= i < j < |b| ensures key(b[i]) != key(b[j]) {
      assert b[i] in multiset(b) && b[j] in multiset(b);
      assert b[i] in a && b[j] in a;
      if b[i] == b[j] {
        TwiceInMultiset(b, i, j);
        OnceInMultiset(a, b[i], key);
      } else {
        var p :| 0 <= p < |a| && a[p] == b[i];
        var q :| 0 <= q < |a| && a[q] == b[j];
        assert p < q || q < p;
      }
    }
  }

  lemma TwiceInMultiset<T>(s: seq<T>, i: nat, j: nat)
    requires i < j < |s| && s[i] == s[j]
    ensures multiset(s)[s[i]] >= 2
  {
    assert s == s[..i] + [s[i]] + s[i + 1..j] + [s[j]] + s[j + 1..];
  }

  lemma {:induction false} OnceInMultiset<T>(s: seq<T>, x: T, key: T -> string)
    requires DistinctKeys(s, key)
    ensures multiset(s)[x] <= 1
    decreases |s|
  {
    if s != [] {
      assert s == [s[0]] + s[1..];
      OnceInMultiset(s[1..], x, key);
      forall i | 0 <= i < |s| - 1 ensures s[1..][i] != s[0] { assert s[1..][i] == s[i + 1]; }
    }
  }

  /** Whatever ordered arrangement a sort leaves, it is the sorted list when no two
      keys are equal: an unstable sort makes no difference. */
  lemma AnySortIsSortBy<T>(s: seq<T>, t: seq<T>, key: T -> string)
    requires multiset(s) == multiset(t) && Ordered(t, key) && DistinctKeys(t, key)
    ensures t == SortBy(s, key)
  {
    SortByIsASort(s, key);
    DistinctKeysFollow(t, SortBy(s, key), key);
    OrderedDistinctIsStrict(t, key);
    OrderedDistinctIsStrict(SortBy(s, key), key);
    SameElements(s, t);
    StrictIsUnique(t, SortBy(s, key), key);
  }

  /** Two lists without repeated keys sort to the same list exactly when they hold
      the same elements. */
  lemma SortsAgreeIff<T>(a: seq<T>, b: seq<T>, key: T -> string)
    requires DistinctKeys(a, key) && DistinctKeys(b, key)
    ensures SortBy(a, key) == SortBy(b, key) <==> Elements(a) == Elements(b)
  {
    SortByIsASort(a, key);
    SortByIsASort(b, key);
    DistinctKeysFollow(a, SortBy(a, key), key);
    DistinctKeysFollow(b, SortBy(b, key), key);
    OrderedDistinctIsStrict(SortBy(a, key), key);
    OrderedDistinctIsStrict(SortBy(b, key), key);
    if Elements(a) == Elements(b) { StrictIsUnique(SortBy(a, key), SortBy(b, key), key); }
  }

  /** In an ordered list repeated keys are neighbours. */
  lemma RepeatsAreNeighbours<T>(s: seq<T>, key: T -> string)
    requires Ordered(s, key)
    ensures DistinctKeys(s, key) <==> forall i | 0 < i < |s| :: key(s[i - 1]) != key(s[i])
  {
    if forall i | 0 < i < |s| :: key(s[i - 1]) != key(s[i]) {
      forall i, j | 0 <= i < j < |s| ensures key(s[i]) != key(s[j]) {
        LessIsTotal(key(s[i]), key(s[i + 1]));
        assert key(s[i + 1 - 1]) != key(s[i + 1]);
        assert i + 1 < j ==> !Less(key(s[j]), key(s[i + 1]));
      }
    }
  }

  // ----- removing repeats from an ordered list -----

  function Self(s: string): string {
    s
  }

  function Compact(s: seq<string>): seq<string> {
    if s == [] then [] else
    var c := Compact(s[..|s| - 1]);
    if c != [] && c[|c| - 1] == s[|s| - 1] then c else c + [s[|s| - 1]]
  }

  lemma {:induction false} CompactKeeps(s: seq<string>)
    ensures Elements(Compact(s)) == Elements(s)
    ensures s != [] ==> Compact(s) != [] && Compact(s)[|Compact(s)| - 1] == s[|s| - 1]
    decreases |s|
  {
    if s != [] {
      CompactKeeps(s[..|s| - 1]);
      var c := Compact(s[..|s| - 1]);
      assert s == s[..|s| - 1] + [s[|s| - 1]];
      assert Elements(s) == Elements(s[..|s| - 1]) + {s[|s| - 1]};
      assert Elements(c + [s[|s| - 1]]) == Elements(c) + {s[|s| - 1]};
      assert c != [] ==> c[|c| - 1] in Elements(c);
    }
  }

  lemma {:induction false} CompactOrders(s: seq<string>)
    requires Ordered(s, Self)
    ensures Strict(Compact(s), Self)
    decreases |s|
  {
    hide Less;
    if |s| > 1 {
      var n := |s| - 1;
      CompactOrders(s[..n]);
      CompactKeeps(s[..n]);
      var c := Compact(s[..n]);
      assert Self(s[n - 1]) == s[n - 1] && Self(s[n]) == s[n];
      LessIsTotal(s[n - 1], s[n]);
      forall i | 0 <= i < |c| && c[|c| - 1] != s[n] ensures Less(c[i], s[n]) {
        if i < |c| - 1 {
          assert Less(Self(c[i]), Self(c[|c| - 1]));
          LessIsTransitive(c[i], c[|c| - 1], s[n]);
        }
      }
    }
  }

  lemma CompactIsStrict(s: seq<string>)
    requires Ordered(s, Self)
    ensures Strict(Compact(s), Self) && Elements(Compact(s)) == Elements(s)
  {
    CompactKeeps(s);
    CompactOrders(s);
  }

  /** The sorted models without repeats: the set of models, in a fixed order. */
  function SortUnique(s: seq<string>): seq<string> {
    Compact(SortBy(s, Self))
  }

  lemma SortUniqueAgreesIff(a: seq<string>, b: seq<string>)
    ensures SortUnique(a) == SortUnique(b) <==> Elements(a) == Elements(b)
  {
    SortByIsASort(a, Self);
    SortByIsASort(b, Self);
    CompactIsStrict(SortBy(a, Self));
    CompactIsStrict(SortBy(b, Self));
    if Elements(a) == Elements(b) { StrictIsUnique(SortUnique(a), SortUnique(b), Self); }
  }

  // ----- the loops -----

  function Swapped<T>(s: seq<T>, j: nat): (t: seq<T>)
    requires 0 < j < |s|
    ensures |t| == |s| && multiset(t) == multiset(s)
  {
    s[j := s[j - 1]][j - 1 := s[j]]
  }

  /** The first i elements are ordered. */
  predicate OrderedTo<T>(s: seq<T>, i: nat, key: T -> string) {
    forall p, q | 0 <= p < q < i && q < |s| :: !Less(key(s[q]), key(s[p]))
  }

  /** The first i + 1 elements are ordered, but for the one at j that is on its way down. */
  predicate OrderedBut<T>(s: seq<T>, i: nat, j: nat, key: T -> string) {
    forall p, q | 0 <= p < q <= i && q < |s| && q != j :: !Less(key(s[q]), key(s[p]))
  }

  lemma SwapOrders<T>(s: seq<T>, key: T -> string, i: nat, j: nat)
    requires 0 < j <= i < |s| && Less(key(s[j]), key(s[j - 1])) && OrderedBut(s, i, j, key)
    ensures OrderedBut(Swapped(s, j), i, j - 1, key)
  {
    hide Less;
    var t := Swapped(s, j);
    LessIsStrict(key(s[j]), key(s[j - 1]));
    forall p, q | 0 <= p < q <= i && q != j - 1 ensures !Less(key(t[q]), key(t[p])) {
      if q == j && p < j - 1 { assert !Less(key(s[j - 1]), key(s[p])); }
    }
  }

  lemma Placed<T>(s: seq<T>, key: T -> string, i: nat, j: nat)
    requires j <= i < |s| && OrderedBut(s, i, j, key) && (j > 0 ==> !Less(key(s[j]), key(s[j - 1])))
    ensures OrderedTo(s, i + 1, key)
  {
    hide Less;
    forall p | 0 <= p < j ensures !Less(key(s[j]), key(s[p])) {
      if p < j - 1 { AtMostIsTransitive(key(s[p]), key(s[j - 1]), key(s[j])); }
    }
  }

  lemma OrderedToBut<T>(s: seq<T>, i: nat, key: T -> string)
    requires i < |s| && OrderedTo(s, i, key)
    ensures OrderedBut(s, i, i, key)
  {
  }

  lemma OrderedAll<T>(s: seq<T>, i: nat, key: T -> string)
    requires i >= |s| && OrderedTo(s, i, key)
    ensures Ordered(s, key)
  {
  }

  /** The insertion sort by swaps; `key` picks what is compared. */
  method InsertionSort<T>(a: array<T>, key: T -> string)
    modifies a
    ensures Ordered(a[..], key) && multiset(a[..]) == multiset(old(a[..]))
  {
    hide Less, OrderedBut, Ordered;
    var i := 1;
    while i < a.Length
      invariant 1 <= i
      invariant OrderedTo(a[..], i, key)
      invariant multiset(a[..]) == multiset(old(a[..]))
    {
      var j := i;
      OrderedToBut(a[..], i, key);
      hide OrderedTo;
      while j > 0 && Less(key(a[j]), key(a[j - 1]))
        invariant 0 <= j <= i
        invariant OrderedBut(a[..], i, j, key)
        invariant multiset(a[..]) == multiset(old(a[..]))
      {
        ghost var s := a[..];
        SwapOrders(s, key, i, j);
        a[j], a[j - 1] := a[j - 1], a[j];
        assert a[..] == Swapped(s, j);
        j := j - 1;
      }
      Placed(a[..], key, i, j);
      i := i + 1;
    }
    OrderedAll(a[..], i, key);
  }

  lemma CompactStep(s: seq<string>, i: nat)
    requires i < |s|
    ensures var c := Compact(s[..i]); Compact(s[..i + 1]) == if c != [] && c[|c| - 1] == s[i] then c else c + [s[i]]
  {
    assert s[..i + 1][..i] == s[..i];
  }

  /** The removal of repeats in place, into the front of the same slice. */
  method CompactInPlace(models: array<string>) returns (n: nat)
    modifies models
    ensures n <= models.Length && models[..n] == Compact(old(models[..]))
  {
    hide Compact;
    ghost var was := models[..];
    n := 0;
    CompactNothing(was);
    for i := 0 to models.Length
      invariant n <= i
      invariant models[..n] == Compact(was[..i])
      invariant forall k | i <= k < models.Length :: models[k] == was[k]
    {
      CompactStep(was, i);
      ghost var c := models[..n];
      assert n > 0 ==> c[n - 1] == models[n - 1];
      if n == 0 || models[n - 1] != models[i] {
        models[n] := models[i];
        n := n + 1;
        assert models[..n] == c + [was[i]];
      }
    }
    assert was[..|was|] == was;
  }

  lemma CompactNothing(s: seq<string>)
    ensures Compact(s[..0]) == []
  {
  }

  /** Sorting and removing repeats in place gives the models' set in order. */
  method SortUniqueInPlace(models: array<string>) returns (n: nat)
    modifies models
    ensures n <= models.Length && models[..n] == SortUnique(old(models[..]))
  {
    ghost var was := models[..];
    InsertionSort(models, Self);
    ghost var sorted := models[..];
    n := CompactInPlace(models);
    SortByIsASort(was, Self);
    SameElements(was, sorted);
    CompactIsStrict(sorted);
    CompactIsStrict(SortBy(was, Self));
    StrictIsUnique(Compact(sorted), SortUnique(was), Self);
  }
}
