/** Two checks of a JSON token stream: the render job's stack machine and the
    recursive duplicate-key validator. Both are characterised by the values the
    stream is made of, and so compared with each other. */
module JsonShape {
  import opened Prelude

  /** What the decoder delivers. Broken stands for an error, and says whether the byte
      it stumbles on is a closing bracket. */
  datatype Token =
    | OpenObject | CloseObject | OpenArray | CloseArray | Text(text: string) | Other
    | Broken(bracket: bool)

  /** A decoded value; scalars other than strings are all alike here. */
  datatype Value = Scalar | Str(text: string) | Array(items: seq<Value>) | Object(fields: seq<Field>)

  datatype Field = Field(name: string, value: Value)

  function Tokens(v: Value): seq<Token>
    decreases v, 0
  {
    match v
    case Scalar => [Other]
    case Str(text) => [Text(text)]
    case Array(items) => [OpenArray] + (AllTokens(items) + [CloseArray])
    case Object(fields) => [OpenObject] + (FieldTokens(fields) + [CloseObject])
  }

  function AllTokens(vs: seq<Value>): seq<Token>
    decreases vs, 1
  {
    if vs == [] then [] else Tokens(vs[0]) + AllTokens(vs[1..])
  }

  function FieldTokens(fs: seq<Field>): seq<Token>
    decreases fs, 1
  {
    if fs == [] then [] else [Text(fs[0].name)] + (Tokens(fs[0].value) + FieldTokens(fs[1..]))
  }

  predicate IsContainer(v: Value) {
    v.Array? || v.Object?
  }

  // ----- what is being checked: no repeated key at any level, bounded nesting -----

  predicate NoRepeats(v: Value)
    decreases v, 0
  {
    match v
    case Array(items) => forall item | item in items :: NoRepeats(item)
    case Object(fields) =>
      (forall f | f in fields :: NoRepeats(f.value)) &&
      forall i, j | 0 <= i < j < |fields| :: fields[i].name != fields[j].name
    case _ => true
  }

  function Max(a: nat, b: nat): nat {
    if a < b then b else a
  }

  function Depth(v: Value): nat
    decreases v, 0
  {
    match v
    case Array(items) => 1 + ItemsDepth(items)
    case Object(fields) => 1 + FieldsDepth(fields)
    case _ => 0
  }

  function ItemsDepth(vs: seq<Value>): nat
    decreases vs, 1
  {
    if vs == [] then 0 else Max(Depth(vs[0]), ItemsDepth(vs[1..]))
  }

  function FieldsDepth(fs: seq<Field>): nat
    decreases fs, 1
  {
    if fs == [] then 0 else Max(Depth(fs[0].value), FieldsDepth(fs[1..]))
  }

  /** A value met inside `depth` open containers passes. */
  predicate Fits(v: Value, depth: nat, max: nat) {
    NoRepeats(v) && (IsContainer(v) ==> depth + Depth(v) <= max)
  }

  predicate ItemsFit(vs: seq<Value>, depth: nat, max: nat) {
    forall v | v in vs :: Fits(v, depth, max)
  }

  predicate FieldsFit(fs: seq<Field>, seen: set<string>, depth: nat, max: nat) {
    && (forall f | f in fs :: Fits(f.value, depth, max) && f.name !in seen)
    && forall i, j | 0 <= i < j < |fs| :: fs[i].name != fs[j].name
  }

  lemma {:induction false} ItemsDepthBound(vs: seq<Value>, depth: nat, max: nat)
    requires depth <= max
    ensures depth + ItemsDepth(vs) <= max <==> forall v | v in vs :: depth + Depth(v) <= max
    decreases |vs|
  {
    if vs != [] {
      ItemsDepthBound(vs[1..], depth, max);
      assert vs[0] in vs;
      assert forall v | v in vs[1..] :: v in vs;
      assert forall v | v in vs :: v == vs[0] || v in vs[1..];
    }
  }

  lemma {:induction false} FieldsDepthBound(fs: seq<Field>, depth: nat, max: nat)
    requires depth <= max
    ensures depth + FieldsDepth(fs) <= max <==> forall f | f in fs :: depth + Depth(f.value) <= max
    decreases |fs|
  {
    if fs != [] {
      FieldsDepthBound(fs[1..], depth, max);
      assert fs[0] in fs;
      assert forall f | f in fs[1..] :: f in fs;
      assert forall f | f in fs :: f == fs[0] || f in fs[1..];
    }
  }

  lemma ContainerFits(v: Value, depth: nat, max: nat)
    ensures v.Array? ==> (Fits(v, depth, max) <==> depth < max && ItemsFit(v.items, depth + 1, max))
    ensures v.Object? ==> (Fits(v, depth, max) <==> depth < max && FieldsFit(v.fields, {}, depth + 1, max))
  {
    if depth < max {
      if v.Array? { ItemsDepthBound(v.items, depth + 1, max); }
      if v.Object? { FieldsDepthBound(v.fields, depth + 1, max); }
    }
  }

  lemma ItemsFitSplit(vs: seq<Value>, depth: nat, max: nat)
    requires vs != []
    ensures ItemsFit(vs, depth, max) <==> Fits(vs[0], depth, max) && ItemsFit(vs[1..], depth, max)
  {
  }

  lemma FieldsFitSplit(fs: seq<Field>, seen: set<string>, depth: nat, max: nat)
    requires fs != []
    ensures FieldsFit(fs, seen, depth, max) <==>
              fs[0].name !in seen && Fits(fs[0].value, depth, max) &&
                FieldsFit(fs[1..], seen + {fs[0].name}, depth, max)
  {
  }

  // ----- the stack machine -----

  /** The loop's variables: one entry per open container, the keys met so far or
      None for an array, and whether a key comes next. */
  datatype Machine = Machine(depth: nat, roots: nat, stack: seq<Option<set<string>>>, expectKey: seq<bool>)

  function Drop<T>(s: seq<T>): seq<T>
    requires s != []
  {
    s[..|s| - 1]
  }

  function Top<T>(s: seq<T>): T
    requires s != []
  {
    s[|s| - 1]
  }

  predicate InStep(m: Machine) {
    m.depth == |m.stack| == |m.expectKey|
  }

  predicate InObject(m: Machine) {
    InStep(m) && m.stack != [] && Top(m.stack).Some?
  }

  /** A value inside an object is over: a key comes next. */
  function ValueDone(m: Machine): Machine
    requires InStep(m)
  {
    if InObject(m) then m.(expectKey := Drop(m.expectKey) + [true]) else m
  }

  function Opened(m: Machine, keys: Option<set<string>>): Option<Machine>
    requires InStep(m)
  {
    if m.depth + 1 > 8 then None
    else
      var roots := if m.depth + 1 == 1 then m.roots + 1 else m.roots;
      Some(Machine(m.depth + 1, roots, m.stack + [keys], m.expectKey + [keys.Some?]))
  }

  /** One token; None when the loop returns true, that is, rejects. */
  function Step(m: Machine, t: Token): (r: Option<Machine>)
    requires InStep(m)
    ensures r.Some? ==> InStep(r.value)
  {
    match t
    case OpenObject => Opened(m, Some({}))
    case OpenArray => Opened(m, None)
    case CloseObject => if m.depth == 0 then None
      else Some(ValueDone(Machine(m.depth - 1, m.roots, Drop(m.stack), Drop(m.expectKey))))
    case CloseArray => if m.depth == 0 then None
      else Some(ValueDone(Machine(m.depth - 1, m.roots, Drop(m.stack), Drop(m.expectKey))))
    case Other => Some(ValueDone(m))
    case Broken(_) => None
    case Text(text) =>
      if InObject(m) && Top(m.expectKey) then
        if text in Top(m.stack).value then None
        else
          var keys := Top(m.stack).value + {text};
          Some(m.(stack := Drop(m.stack) + [Some(keys)], expectKey := Drop(m.expectKey) + [false]))
      else Some(ValueDone(m))
  }

  function Run(m: Machine, ts: seq<Token>): (r: Option<Machine>)
    requires InStep(m)
    ensures r.Some? ==> InStep(r.value)
    decreases |ts|
  {
    if ts == [] then Some(m) else
    var next := Step(m, ts[0]);
    if next.None? then None else Run(next.value, ts[1..])
  }

  function Start(): Machine {
    Machine(0, 0, [], [])
  }

  /** invalidJSONShape's answer is false. */
  predicate ShapeAccepts(ts: seq<Token>) {
    var end := Run(Start(), ts);
    end.Some? && end.value.depth == 0 && end.value.roots == 1
  }

  /** A value may come next: not where a key is expected. */
  predicate Ready(m: Machine) {
    InStep(m) && (InObject(m) ==> !Top(m.expectKey))
  }

  /** The machine after a whole value. */
  function After(m: Machine, v: Value): Machine
    requires InStep(m)
  {
    ValueDone(if m.depth == 0 && IsContainer(v) then m.(roots := m.roots + 1) else m)
  }

  lemma RunStep(m: Machine, t: Token, rest: seq<Token>)
    requires InStep(m)
    ensures Run(m, [t] + rest) == var next := Step(m, t); if next.None? then None else Run(next.value, rest)
  {
  }

  /** Leaving a container gives back the machine from before it, one value further. */
  lemma Closing(m: Machine, inside: Machine, v: Value, keys: Option<set<string>>)
    requires InStep(m) && Opened(m, keys).Some? && IsContainer(v) && InStep(inside)
    requires inside.depth == m.depth + 1 && inside.roots == Opened(m, keys).value.roots
    requires Drop(inside.stack) == m.stack && Drop(inside.expectKey) == m.expectKey
    ensures Step(inside, CloseObject) == Step(inside, CloseArray) == Some(After(m, v))
  {
  }

  /** The machine takes a value exactly when the value fits the depth left. */
  lemma {:induction false} RunValue(m: Machine, v: Value, rest: seq<Token>)
    requires Ready(m)
    ensures Run(m, Tokens(v) + rest) == if Fits(v, m.depth, 8) then Run(After(m, v), rest) else None
    decreases v, 0
  {
    hide Run, Fits, ItemsFit, FieldsFit, AllTokens, FieldTokens;
    match v {
      case Scalar => RunStep(m, Other, rest); ScalarFits(v, m.depth, 8);
      case Str(text) => RunStep(m, Text(text), rest); ScalarFits(v, m.depth, 8);
      case Array(items) => RunArray(m, v, rest);
      case Object(fields) => RunObject(m, v, rest);
    }
  }

  lemma ScalarFits(v: Value, depth: nat, max: nat)
    requires !IsContainer(v)
    ensures Fits(v, depth, max)
  {
  }

  lemma {:induction false} RunArray(m: Machine, v: Value, rest: seq<Token>)
    requires Ready(m) && v.Array?
    ensures Run(m, Tokens(v) + rest) == if Fits(v, m.depth, 8) then Run(After(m, v), rest) else None
    decreases v.items, 2
  {
    hide Run, Fits, ItemsFit, AllTokens;
    ContainerFits(v, m.depth, 8);
    assert Tokens(v) + rest == [OpenArray] + (AllTokens(v.items) + ([CloseArray] + rest));
    RunStep(m, OpenArray, AllTokens(v.items) + ([CloseArray] + rest));
    if m.depth < 8 {
      var inside := Opened(m, None).value;
      RunItems(inside, v.items, [CloseArray] + rest);
      Closing(m, inside, v, None);
      RunStep(inside, CloseArray, rest);
    }
  }

  lemma {:induction false} RunItems(m: Machine, vs: seq<Value>, rest: seq<Token>)
    requires InStep(m) && m.depth > 0 && !InObject(m)
    ensures Run(m, AllTokens(vs) + rest) == if ItemsFit(vs, m.depth, 8) then Run(m, rest) else None
    decreases vs, 1
  {
    hide Run, Fits, ItemsFit, Tokens;
    if vs == [] {
      assert AllTokens(vs) + rest == rest;
      NothingFits(m.depth, 8);
    } else {
      assert AllTokens(vs) + rest == Tokens(vs[0]) + (AllTokens(vs[1..]) + rest);
      RunValue(m, vs[0], AllTokens(vs[1..]) + rest);
      RunItems(m, vs[1..], rest);
      ItemsFitSplit(vs, m.depth, 8);
    }
  }

  lemma NothingFits(depth: nat, max: nat)
    ensures ItemsFit([], depth, max) && forall seen :: FieldsFit([], seen, depth, max)
  {
  }

  lemma {:induction false} RunObject(m: Machine, v: Value, rest: seq<Token>)
    requires Ready(m) && v.Object?
    ensures Run(m, Tokens(v) + rest) == if Fits(v, m.depth, 8) then Run(After(m, v), rest) else None
    decreases v.fields, 2
  {
    hide Run, Fits, FieldsFit, FieldTokens;
    ContainerFits(v, m.depth, 8);
    assert Tokens(v) + rest == [OpenObject] + (FieldTokens(v.fields) + ([CloseObject] + rest));
    RunStep(m, OpenObject, FieldTokens(v.fields) + ([CloseObject] + rest));
    if m.depth < 8 {
      var inside := Opened(m, Some({})).value;
      RunFields(inside, v.fields, [CloseObject] + rest);
      var end := WithKeys(inside, {} + NameSet(v.fields));
      Closing(m, end, v, Some({}));
      RunStep(end, CloseObject, rest);
    }
  }

  function NameSet(fs: seq<Field>): set<string> {
    set f | f in fs :: f.name
  }

  function WithKeys(m: Machine, keys: set<string>): Machine
    requires InObject(m)
  {
    m.(stack := Drop(m.stack) + [Some(keys)])
  }

  lemma {:induction false} RunFields(m: Machine, fs: seq<Field>, rest: seq<Token>)
    requires InObject(m) && Top(m.expectKey)
    ensures Run(m, FieldTokens(fs) + rest) ==
              if FieldsFit(fs, Top(m.stack).value, m.depth, 8)
                then Run(WithKeys(m, Top(m.stack).value + NameSet(fs)), rest) else None
    decreases fs, 1
  {
    hide Run, Fits, FieldsFit, Tokens;
    var seen := Top(m.stack).value;
    if fs == [] {
      assert FieldTokens(fs) + rest == rest;
      NothingFits(m.depth, 8);
      assert seen + NameSet(fs) == seen && WithKeys(m, seen) == m;
    } else {
      var name, more := fs[0].name, FieldTokens(fs[1..]) + rest;
      Assoc4([Text(name)], Tokens(fs[0].value), FieldTokens(fs[1..]), rest);
      RunStep(m, Text(name), Tokens(fs[0].value) + more);
      FieldsFitSplit(fs, seen, m.depth, 8);
      if name !in seen {
        var keyed := Step(m, Text(name)).value;
        RunValue(keyed, fs[0].value, more);
        var next := WithKeys(m, seen + {name});
        assert After(keyed, fs[0].value) == next;
        RunFields(next, fs[1..], rest);
        assert NameSet(fs) == {name} + NameSet(fs[1..]) by { assert fs == [fs[0]] + fs[1..]; }
        assert seen + {name} + NameSet(fs[1..]) == seen + NameSet(fs);
        assert WithKeys(next, seen + NameSet(fs)) == WithKeys(m, seen + NameSet(fs));
      }
    }
  }

  function Containers(vs: seq<Value>): nat {
    if vs == [] then 0 else (if IsContainer(vs[0]) then 1 else 0) + Containers(vs[1..])
  }

  lemma RunNothing(m: Machine)
    requires InStep(m)
    ensures Run(m, []) == Some(m)
  {
  }

  lemma {:induction false} RunRoots(m: Machine, vs: seq<Value>)
    requires m.depth == 0 && InStep(m)
    ensures Run(m, AllTokens(vs)) == if ItemsFit(vs, 0, 8) then Some(m.(roots := m.roots + Containers(vs))) else None
    decreases |vs|
  {
    hide Fits, ItemsFit, Tokens, Run, Step;
    if vs == [] {
      NothingFits(0, 8);
      RunNothing(m);
    } else {
      RunValue(m, vs[0], AllTokens(vs[1..]));
      ItemsFitSplit(vs, 0, 8);
      RunRoots(After(m, vs[0]), vs[1..]);
    }
  }

  /** The render job accepts a stream of values exactly when one of them is an object
      or array, and no object at any level repeats a key or nests deeper than 8. */
  lemma ShapeAcceptsIff(vs: seq<Value>)
    ensures ShapeAccepts(AllTokens(vs)) <==> Containers(vs) == 1 && ItemsFit(vs, 0, 8)
  {
    RunRoots(Start(), vs);
  }

  // ----- the recursive validator -----

  predicate More(ts: seq<Token>) {
    ts != [] && ts[0] != CloseObject && ts[0] != CloseArray && ts[0] != Broken(true)
  }

  function CheckValue(ts: seq<Token>, depth: nat, max: nat): (r: Option<seq<Token>>)
    ensures r.Some? ==> |r.value| < |ts|
    decreases |ts|, 0
  {
    if ts == [] then None
    else match ts[0]
      case Text(_) => Some(ts[1..])
      case Other => Some(ts[1..])
      case OpenObject => if depth >= max then None else CheckFields(ts[1..], {}, depth + 1, max)
      case OpenArray => if depth >= max then None else CheckItems(ts[1..], depth + 1, max)
      case _ => None
  }

  function CheckFields(ts: seq<Token>, seen: set<string>, depth: nat, max: nat): (r: Option<seq<Token>>)
    ensures r.Some? ==> |r.value| < |ts|
    decreases |ts|, 1
  {
    if !More(ts) then if ts != [] && ts[0] == CloseObject then Some(ts[1..]) else None
    else if !ts[0].Text? || ts[0].text in seen then None
    else
      var rest := CheckValue(ts[1..], depth, max);
      if rest.None? then None else CheckFields(rest.value, seen + {ts[0].text}, depth, max)
  }

  function CheckItems(ts: seq<Token>, depth: nat, max: nat): (r: Option<seq<Token>>)
    ensures r.Some? ==> |r.value| < |ts|
    decreases |ts|, 1
  {
    if !More(ts) then if ts != [] && ts[0] == CloseArray then Some(ts[1..]) else None
    else
      var rest := CheckValue(ts, depth, max);
      if rest.None? then None else CheckItems(rest.value, depth, max)
  }

  /** ValidateNoDuplicateJSON returns nil. */
  predicate Validates(ts: seq<Token>, max: nat) {
    max >= 1 && CheckValue(ts, 0, max) == Some([])
  }

  lemma StartsValue(v: Value, rest: seq<Token>)
    ensures More(Tokens(v) + rest)
  {
  }

  lemma {:induction false} CheckOne(v: Value, rest: seq<Token>, depth: nat, max: nat)
    ensures CheckValue(Tokens(v) + rest, depth, max) == if Fits(v, depth, max) then Some(rest) else None
    decreases v, 0
  {
    hide Fits, ItemsFit, FieldsFit, AllTokens, FieldTokens;
    var ts := Tokens(v) + rest;
    match v {
      case Array(items) =>
        ContainerFits(v, depth, max);
        assert ts[1..] == AllTokens(items) + ([CloseArray] + rest);
        CheckAllItems(items, rest, depth + 1, max);
      case Object(fields) =>
        ContainerFits(v, depth, max);
        assert ts[1..] == FieldTokens(fields) + ([CloseObject] + rest);
        CheckAllFields(fields, rest, {}, depth + 1, max);
      case _ =>
        ScalarFits(v, depth, max);
        assert ts[1..] == rest;
    }
  }

  lemma {:induction false} CheckAllItems(vs: seq<Value>, rest: seq<Token>, depth: nat, max: nat)
    ensures CheckItems(AllTokens(vs) + ([CloseArray] + rest), depth, max) ==
            if ItemsFit(vs, depth, max) then Some(rest) else None
    decreases vs, 1
  {
    hide Fits, ItemsFit, CheckValue, Tokens;
    var end := [CloseArray] + rest;
    if vs == [] {
      assert AllTokens(vs) + end == end && end[1..] == rest;
      NothingFits(depth, max);
    } else {
      var more := AllTokens(vs[1..]) + end;
      assert AllTokens(vs) + end == Tokens(vs[0]) + more;
      StartsValue(vs[0], more);
      CheckOne(vs[0], more, depth, max);
      CheckAllItems(vs[1..], rest, depth, max);
      ItemsFitSplit(vs, depth, max);
    }
  }

  lemma {:induction false} CheckAllFields(fs: seq<Field>, rest: seq<Token>, seen: set<string>, depth: nat, max: nat)
    ensures CheckFields(FieldTokens(fs) + ([CloseObject] + rest), seen, depth, max) ==
              if FieldsFit(fs, seen, depth, max) then Some(rest) else None
    decreases fs, 1
  {
    hide Fits, FieldsFit, CheckValue, Tokens;
    var end := [CloseObject] + rest;
    if fs == [] {
      assert FieldTokens(fs) + end == end && end[1..] == rest;
      NothingFits(depth, max);
    } else {
      var more := FieldTokens(fs[1..]) + end;
      var ts := FieldTokens(fs) + end;
      assert ts == [Text(fs[0].name)] + (Tokens(fs[0].value) + more);
      assert ts[0] == Text(fs[0].name) && ts[1..] == Tokens(fs[0].value) + more;
      CheckOne(fs[0].value, more, depth, max);
      CheckAllFields(fs[1..], rest, seen + {fs[0].name}, depth, max);
      FieldsFitSplit(fs, seen, depth, max);
    }
  }

  lemma StreamEnds(vs: seq<Value>)
    ensures AllTokens(vs) == [] <==> vs == []
  {
  }

  /** The validator accepts a stream exactly when it is one value that fits. */
  lemma ValidatesIff(vs: seq<Value>, max: nat)
    ensures Validates(AllTokens(vs), max) <==> max >= 1 && |vs| == 1 && Fits(vs[0], 0, max)
  {
    hide CheckValue, Fits, Tokens;
    if vs == [] {
      NothingToCheck(max);
    } else {
      CheckOne(vs[0], AllTokens(vs[1..]), 0, max);
      StreamEnds(vs[1..]);
    }
  }

  lemma NothingToCheck(max: nat)
    ensures CheckValue([], 0, max).None?
  {
  }

  /** On a stream that is one object or array the stack machine and the recursive
      validator with depth 8 agree: no repeated key at any level, at most 8 levels. */
  lemma MachineRefinesValidator(v: Value)
    requires IsContainer(v)
    ensures ShapeAccepts(AllTokens([v])) <==> Validates(AllTokens([v]), 8)
    ensures ShapeAccepts(AllTokens([v])) <==> NoRepeats(v) && Depth(v) <= 8
  {
    hide ShapeAccepts, Validates, NoRepeats, Depth;
    ShapeAcceptsIff([v]);
    ValidatesIff([v], 8);
    assert [v][1..] == [] && Containers([v]) == 1;
  }

  /** On any stream of values they agree except in two cases: a lone scalar, which
      only the validator takes, and one container among scalars, all of which fit,
      which only the stack machine takes. */
  lemma MachineAgreesIff(vs: seq<Value>)
    ensures (ShapeAccepts(AllTokens(vs)) <==> Validates(AllTokens(vs), 8)) <==>
              !(|vs| == 1 && !IsContainer(vs[0])) && !(|vs| > 1 && Containers(vs) == 1 && ItemsFit(vs, 0, 8))
  {
    hide ShapeAccepts, Validates, NoRepeats, Depth;
    ShapeAcceptsIff(vs);
    ValidatesIff(vs, 8);
    if |vs| == 1 {
      assert Containers(vs[1..]) == 0;
      assert vs[0] in vs;
      if !IsContainer(vs[0]) { ScalarFits(vs[0], 0, 8); }
    }
  }

  // ----- errors of the decoder -----

  lemma {:induction false} RunMeetsNoError(m: Machine, ts: seq<Token>)
    requires InStep(m) && Run(m, ts).Some?
    ensures forall t | t in ts :: !t.Broken?
    decreases |ts|
  {
    if ts != [] {
      RunMeetsNoError(Step(m, ts[0]).value, ts[1..]);
      assert ts == [ts[0]] + ts[1..];
    }
  }

  /** What was read before `rest` holds no error. */
  predicate ReadCleanly(ts: seq<Token>, rest: seq<Token>) {
    |rest| <= |ts| && ts[|ts| - |rest|..] == rest && forall i | 0 <= i < |ts| - |rest| :: !ts[i].Broken?
  }

  lemma OneMoreClean(ts: seq<Token>, rest: seq<Token>)
    requires ts != [] && !ts[0].Broken? && ReadCleanly(ts[1..], rest)
    ensures ReadCleanly(ts, rest)
  {
    var n := |ts| - |rest|;
    assert ts[1..][n - 1..] == ts[n..];
    forall i | 0 <= i < n ensures !ts[i].Broken? {
      if i > 0 { assert ts[i] == ts[1..][i - 1]; }
    }
  }

  lemma CleanThenClean(ts: seq<Token>, middle: seq<Token>, rest: seq<Token>)
    requires ReadCleanly(ts, middle) && ReadCleanly(middle, rest)
    ensures ReadCleanly(ts, rest)
  {
    var n, k := |ts| - |middle|, |middle| - |rest|;
    assert ts[n..][k..] == ts[n + k..];
    forall i | 0 <= i < n + k ensures !ts[i].Broken? {
      if i >= n { assert ts[i] == middle[i - n]; }
    }
  }

  lemma NothingRead(ts: seq<Token>)
    ensures ReadCleanly(ts, ts)
  {
    assert ts[0..] == ts;
  }

  lemma {:induction false} ValueReadCleanly(ts: seq<Token>, depth: nat, max: nat)
    requires CheckValue(ts, depth, max).Some?
    ensures ReadCleanly(ts, CheckValue(ts, depth, max).value)
    decreases |ts|, 0
  {
    hide ReadCleanly, CheckFields, CheckItems;
    NothingRead(ts[1..]);
    if ts[0] == OpenObject { FieldsReadCleanly(ts[1..], {}, depth + 1, max); }
    if ts[0] == OpenArray { ItemsReadCleanly(ts[1..], depth + 1, max); }
    OneMoreClean(ts, CheckValue(ts, depth, max).value);
  }

  lemma {:induction false} FieldsReadCleanly(ts: seq<Token>, seen: set<string>, depth: nat, max: nat)
    requires CheckFields(ts, seen, depth, max).Some?
    ensures ReadCleanly(ts, CheckFields(ts, seen, depth, max).value)
    decreases |ts|, 1
  {
    hide ReadCleanly, CheckValue;
    if More(ts) {
      var rest := CheckValue(ts[1..], depth, max).value;
      ValueReadCleanly(ts[1..], depth, max);
      FieldsReadCleanly(rest, seen + {ts[0].text}, depth, max);
      CleanThenClean(ts[1..], rest, CheckFields(ts, seen, depth, max).value);
    } else {
      NothingRead(ts[1..]);
    }
    OneMoreClean(ts, CheckFields(ts, seen, depth, max).value);
  }

  lemma {:induction false} ItemsReadCleanly(ts: seq<Token>, depth: nat, max: nat)
    requires CheckItems(ts, depth, max).Some?
    ensures ReadCleanly(ts, CheckItems(ts, depth, max).value)
    decreases |ts|, 1
  {
    hide ReadCleanly, CheckValue;
    if More(ts) {
      var rest := CheckValue(ts, depth, max).value;
      ValueReadCleanly(ts, depth, max);
      ItemsReadCleanly(rest, depth, max);
      CleanThenClean(ts, rest, CheckItems(ts, depth, max).value);
    } else {
      NothingRead(ts[1..]);
      OneMoreClean(ts, CheckItems(ts, depth, max).value);
    }
  }

  lemma AllClean(ts: seq<Token>)
    requires ReadCleanly(ts, [])
    ensures forall t | t in ts :: !t.Broken?
  {
  }

  /** A stream in which the decoder reports an error is accepted by neither check,
      wherever the error comes. */
  lemma ErrorsAreRefused(ts: seq<Token>, k: nat, max: nat)
    requires k < |ts| && ts[k].Broken?
    ensures !ShapeAccepts(ts) && !Validates(ts, max)
  {
    hide CheckValue, Run, ReadCleanly;
    assert ts[k] in ts;
    if ShapeAccepts(ts) { RunMeetsNoError(Start(), ts); }
    if Validates(ts, max) {
      ValueReadCleanly(ts, 0, max);
      AllClean(ts);
    }
  }
}
