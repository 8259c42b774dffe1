/** Exactly which chunk sequences are accepted and completed, and the proof that
    how the upstream cuts text and arguments into deltas does not matter. */
module StreamRechunk {
  import opened Prelude
  import opened Limits
  import opened StreamModel
  import opened StreamInvariant
  import opened StreamTrace
  import opened StreamProject
  import opened StreamFold

  /** Every id draw and every emit succeeds. */
  ghost predicate Reliable(env: Env) {
    (forall n: nat, p: IDPrefix :: env.ids(n, p).Some?) && (forall n: int :: env.delivers(n))
  }

  // ----- acceptance, read off the deltas -----

  function GivenIDs(ops: seq<Op>): set<(int, string)>
    decreases |ops|
  {
    if ops == [] then {} else GivenIDs(ops[..|ops| - 1]) + IDGiven(ops[|ops| - 1])
  }

  function IDGiven(op: Op): set<(int, string)> {
    if op.ToolOp? && op.call.id.Some? then {(op.call.index, op.call.id.value)} else {}
  }

  function GivenNames(ops: seq<Op>): set<(int, string)>
    decreases |ops|
  {
    if ops == [] then {} else GivenNames(ops[..|ops| - 1]) + NameGiven(ops[|ops| - 1])
  }

  function NameGiven(op: Op): set<(int, string)> {
    if op.ToolOp? && DeltaName(op.call).Some? then {(op.call.index, DeltaName(op.call).value)} else {}
  }

  /** Two given ids are equal exactly when their indexes are; two names given for
      one index are equal; the totals fit the limits. */
  ghost predicate Acceptable(ops: seq<Op>) {
    && (forall x, y | x in GivenIDs(ops) && y in GivenIDs(ops) :: x.0 == y.0 <==> x.1 == y.1)
    && (forall x, y | x in GivenNames(ops) && y in GivenNames(ops) :: x.0 == y.0 ==> x.1 == y.1)
    && |TextOf(ops)| <= 1048576
    && (forall k :: |ArgumentsFor(ops, k)| <= 262144)
  }

  lemma GivenSnoc(ops: seq<Op>, op: Op)
    ensures GivenIDs(ops + [op]) == GivenIDs(ops) + IDGiven(op)
    ensures GivenNames(ops + [op]) == GivenNames(ops) + NameGiven(op)
  {
  }

  lemma AcceptablePrefix(ops: seq<Op>, op: Op)
    requires Acceptable(ops + [op])
    ensures Acceptable(ops)
  {
    GivenSnoc(ops, op);
    forall k
      ensures |ArgumentsFor(ops, k)| <= MAX_ARGUMENTS_BYTES
    {
      FoldSnoc(ops, op, k);
      assert |ArgumentsFor(ops + [op], k)| <= MAX_ARGUMENTS_BYTES;
    }
    FoldSnoc(ops, op, 0);
  }

  /** The ids and names the stream remembers are those given. */
  ghost predicate Remembers(st: State, ops: seq<Op>) {
    && (forall k, id :: (k, id) in GivenIDs(ops) <==> id in st.callIDs && st.callIDs[id] == k)
    && (forall k, name | (k, name) in GivenNames(ops) ::
          name != "" && k in st.tools && st.tools[k].name == name)
    && (forall k | k in st.tools && st.tools[k].name != "" :: (k, st.tools[k].name) in GivenNames(ops))
  }

  /** The conditions acceptTool checks, given what the stream remembers. */
  ghost predicate Fits(st: State, call: ToolDelta) {
    var tool := if call.index in st.tools then st.tools[call.index] else BLANK_TOOL;
    && (call.id.Some? ==> (tool.callID == "" || tool.callID == call.id.value) &&
                          (call.id.value in st.callIDs ==> st.callIDs[call.id.value] == call.index))
    && (DeltaName(call).Some? ==> tool.name == "" || tool.name == DeltaName(call).value)
    && |tool.arguments| + |DeltaArguments(call)| <= MAX_ARGUMENTS_BYTES
  }

  function CallIDsWith(st: State, call: ToolDelta): map<string, int> {
    if call.id.Some? then st.callIDs[call.id.value := call.index] else st.callIDs
  }

  lemma ValidType(call: ToolDelta)
    requires ValidToolDelta(call)
    ensures call.typ.Some? ==> call.typ.value == "function"
  {
  }

  lemma RecordFunctionFits(st: State, call: ToolDelta)
    requires call.index in st.tools && (call.typ.Some? ==> call.typ.value == "function")
    ensures var tool, r := st.tools[call.index], RecordFunction(st, call);
            && r.st.callIDs == st.callIDs
            && (r.ok <==> (DeltaName(call).Some? ==> tool.name == "" || tool.name == DeltaName(call).value) &&
                          |tool.arguments| + |DeltaArguments(call)| <= MAX_ARGUMENTS_BYTES)
  {
  }

  lemma RecordIDFits(st: State, call: ToolDelta)
    requires call.index in st.tools && call.id.Some?
    ensures var tool, r := st.tools[call.index], RecordID(st, call);
            && (r.ok <==> (tool.callID == "" || tool.callID == call.id.value) &&
                          (call.id.value in st.callIDs ==> st.callIDs[call.id.value] == call.index))
            && (r.ok ==> r.st.callIDs == CallIDsWith(st, call) && call.index in r.st.tools &&
                         r.st.tools[call.index] == tool.(callID := call.id.value))
  {
  }

  lemma RecordFits(st: State, call: ToolDelta)
    requires Inv(st) && ValidToolDelta(call)
    ensures Record(st, call).ok <==> Fits(st, call)
    ensures Record(st, call).ok ==>
              Record(st, call).st.callIDs == CallIDsWith(st, call)
  {
    hide Inv, ValidToolDelta, RecordID, RecordFunction;
    ValidType(call);
    ToolLimitUnreachable(st, call);
    var found := WithTool(st, call.index);
    if call.id.None? {
      RecordFunctionFits(found, call);
    } else {
      RecordIDFits(found, call);
      if RecordID(found, call).ok { RecordFunctionFits(RecordID(found, call).st, call); }
    }
  }

  lemma ToolAcceptedIff(env: Env, st: State, call: ToolDelta)
    requires Reliable(env) && Inv(st) && st.started && ValidToolDelta(call)
    ensures AcceptTool(env, st, call).ok <==> Fits(st, call)
    ensures AcceptTool(env, st, call).ok ==>
              AcceptTool(env, st, call).st.callIDs == CallIDsWith(st, call)
  {
    RecordFits(st, call);
    RecordKeeps(st, call);
    var recorded := Record(st, call).st;
    hide Inv, Record, ValidToolDelta, Fits, Extends;
    if call.index in recorded.tools {
      SendFrame(env, recorded, call.index, DeltaArguments(call));
      SendFrame(env, OpenTool(env, recorded, call.index).st, call.index, recorded.tools[call.index].arguments);
    }
  }

  lemma TextAcceptedIff(env: Env, st: State, delta: string)
    requires Reliable(env)
    ensures AcceptText(env, st, delta).ok <==>
            |delta| + (if st.text.Some? then |st.text.value.text| else 0) <= MAX_TEXT_CONTENT_BYTES
    ensures AcceptText(env, st, delta).st.callIDs == st.callIDs
    ensures AcceptText(env, st, delta).st.tools == st.tools
  {
  }

  /** The tool that st holds for k is what the deltas so far say about k. */
  lemma HeldTool(st: State, ops: seq<Op>, k: int)
    requires Inv(st) && Holds(st, ops) && Remembers(st, ops)
    ensures var tool := if k in st.tools then st.tools[k] else BLANK_TOOL;
            && tool.arguments == ArgumentsFor(ops, k)
            && (tool.callID != "" ==> (k, tool.callID) in GivenIDs(ops))
            && (tool.name != "" ==> (k, tool.name) in GivenNames(ops))
  {
    if k !in st.tools { Unmentioned(ops, k); } else { assert HoldsTool(st.tools[k], ops, k); }
  }

  lemma FitsThenAcceptable(st: State, ops: seq<Op>, call: ToolDelta)
    requires Inv(st) && Holds(st, ops) && Remembers(st, ops) && Acceptable(ops) && Fits(st, call)
    ensures Acceptable(ops + [ToolOp(call)])
  {
    HeldTool(st, ops, call.index);
    NewIDFits(st, ops, call);
    NewNameFits(st, ops, call);
    hide Inv, Holds, Remembers, GivenIDs, GivenNames, TextOf, ArgumentsFor;
    FoldSnoc(ops, ToolOp(call), 0);
    forall j ensures |ArgumentsFor(ops + [ToolOp(call)], j)| <= MAX_ARGUMENTS_BYTES {
      FoldSnoc(ops, ToolOp(call), j);
      assert |ArgumentsFor(ops, j)| <= MAX_ARGUMENTS_BYTES;
    }
  }

  lemma AcceptableThenFits(st: State, ops: seq<Op>, call: ToolDelta)
    requires Inv(st) && Holds(st, ops) && Remembers(st, ops) && Acceptable(ops + [ToolOp(call)])
    ensures Fits(st, call)
  {
    var op, k := ToolOp(call), call.index;
    var all := ops + [op];
    HeldTool(st, ops, k);
    FoldSnoc(ops, op, k);
    GivenSnoc(ops, op);
    assert |ArgumentsFor(all, k)| <= MAX_ARGUMENTS_BYTES;
    if call.id.Some? {
      assert (k, call.id.value) in GivenIDs(all);
      if call.id.value in st.callIDs { assert (st.callIDs[call.id.value], call.id.value) in GivenIDs(all); }
    }
    if DeltaName(call).Some? { assert (k, DeltaName(call).value) in GivenNames(all); }
  }

  lemma NewIDFits(st: State, ops: seq<Op>, call: ToolDelta)
    requires Inv(st) && Remembers(st, ops) && Acceptable(ops) && Fits(st, call)
    ensures forall x, y | x in GivenIDs(ops + [ToolOp(call)]) && y in GivenIDs(ops + [ToolOp(call)]) ::
              x.0 == y.0 <==> x.1 == y.1
  {
  }

  lemma NewNameFits(st: State, ops: seq<Op>, call: ToolDelta)
    requires Inv(st) && Remembers(st, ops) && Acceptable(ops) && Fits(st, call)
    ensures forall x, y | x in GivenNames(ops + [ToolOp(call)]) && y in GivenNames(ops + [ToolOp(call)]) ::
              x.0 == y.0 ==> x.1 == y.1
  {
  }

  lemma RemembersText(env: Env, st: State, ops: seq<Op>, delta: string)
    requires Reliable(env) && Remembers(st, ops)
    ensures Remembers(AcceptText(env, st, delta).st, ops + [TextOp(delta)])
  {
    TextAcceptedIff(env, st, delta);
    GivenSnoc(ops, TextOp(delta));
    hide AcceptText;
  }

  lemma RemembersTool(env: Env, st: State, ops: seq<Op>, call: ToolDelta)
    requires Reliable(env) && Inv(st) && st.started && ValidToolDelta(call) && Remembers(st, ops)
    requires AcceptTool(env, st, call).ok
    ensures Remembers(AcceptTool(env, st, call).st, ops + [ToolOp(call)])
  {
    hide Inv, Extends;
    ToolAcceptedIff(env, st, call);
    AcceptToolResult(env, st, call);
    RemembersNames(st, AcceptTool(env, st, call).st, ops, call);
    hide AcceptTool, Record, ToolResult;
    RemembersIDs(st, ops, call);
  }

  lemma RemembersIDs(st: State, ops: seq<Op>, call: ToolDelta)
    requires Remembers(st, ops) && Fits(st, call)
    ensures forall k, id :: (k, id) in GivenIDs(ops + [ToolOp(call)]) <==>
              id in CallIDsWith(st, call) && CallIDsWith(st, call)[id] == k
  {
  }

  lemma RemembersNames(st: State, st': State, ops: seq<Op>, call: ToolDelta)
    requires Remembers(st, ops) && ToolResult(st, st', call) && ValidToolDelta(call) && Fits(st, call)
    ensures forall k, name | (k, name) in GivenNames(ops + [ToolOp(call)]) ::
              name != "" && k in st'.tools && st'.tools[k].name == name
    ensures forall k | k in st'.tools && st'.tools[k].name != "" ::
              (k, st'.tools[k].name) in GivenNames(ops + [ToolOp(call)])
  {
  }

  lemma {:induction false} OpsAcceptedIff(env: Env, st: State, base: seq<Op>, ops: seq<Op>)
    requires Reliable(env) && Inv(st) && st.started && ValidOps(ops)
    requires Holds(st, base) && Remembers(st, base) && Acceptable(base)
    ensures AcceptOps(env, st, ops).ok <==> Acceptable(base + ops)
    ensures AcceptOps(env, st, ops).ok ==> Remembers(AcceptOps(env, st, ops).st, base + ops)
    decreases |ops|
  {
    hide Inv, Holds, Remembers, Acceptable, AcceptText, AcceptTool, Extends, Fits;
    if ops == [] {
      assert base + ops == base;
    } else {
      var n := |ops| - 1;
      var before := AcceptOps(env, st, ops[..n]);
      var all := base + ops[..n];
      OpsAcceptedIff(env, st, base, ops[..n]);
      assert base + ops == all + [ops[n]];
      if Acceptable(base + ops) { AcceptablePrefix(all, ops[n]); }
      if before.ok {
        OpsHold(env, st, base, ops[..n]);
        AcceptOpsKeeps(env, st, ops[..n]);
        ExtendsStarted(st, before.st);
        OpAcceptedIff(env, before.st, all, ops[n]);
      }
    }
  }

  lemma OpAcceptedIff(env: Env, st: State, ops: seq<Op>, op: Op)
    requires Reliable(env) && Inv(st) && st.started && ValidOp(op)
    requires Holds(st, ops) && Remembers(st, ops) && Acceptable(ops)
    ensures AcceptOp(env, st, op).ok <==> Acceptable(ops + [op])
    ensures AcceptOp(env, st, op).ok ==> Remembers(AcceptOp(env, st, op).st, ops + [op])
  {
    match op
    case TextOp(delta) =>
      TextFits(env, st, ops, delta);
      RemembersText(env, st, ops, delta);
    case ToolOp(call) =>
      hide AcceptTool, Inv, Acceptable, Remembers, Holds, Fits;
      ToolAcceptedIff(env, st, call);
      if Fits(st, call) {
        FitsThenAcceptable(st, ops, call);
        RemembersTool(env, st, ops, call);
      } else if Acceptable(ops + [op]) {
        AcceptableThenFits(st, ops, call);
      }
  }

  lemma TextFits(env: Env, st: State, ops: seq<Op>, delta: string)
    requires Reliable(env) && Holds(st, ops) && Acceptable(ops)
    ensures AcceptText(env, st, delta).ok <==> Acceptable(ops + [TextOp(delta)])
  {
    TextAcceptedIff(env, st, delta);
    GivenSnoc(ops, TextOp(delta));
    FoldSnoc(ops, TextOp(delta), 0);
    if !HasText(ops) { NoText(ops); }
    hide AcceptText;
    forall k ensures ArgumentsFor(ops + [TextOp(delta)], k) == ArgumentsFor(ops, k) {
      FoldSnoc(ops, TextOp(delta), k);
    }
    assert forall k :: |ArgumentsFor(ops, k)| <= MAX_ARGUMENTS_BYTES;
  }

  ghost predicate ValidRun(chunks: seq<Chunk>, model: string) {
    forall chunk | chunk in chunks :: ValidChunk(chunk, model)
  }

  lemma StartReliable(env: Env, st: State, created: int)
    requires Reliable(env)
    ensures Start(env, st, created).ok
    ensures Start(env, st, created).st.tools == st.tools && Start(env, st, created).st.callIDs == st.callIDs
  {
  }

  lemma RemembersSame(st: State, st': State, ops: seq<Op>)
    requires Remembers(st, ops) && st'.tools == st.tools && st'.callIDs == st.callIDs
    ensures Remembers(st', ops)
  {
  }

  lemma ChunkAcceptedIff(env: Env, st: State, model: string, parallel: bool, chunks: seq<Chunk>, chunk: Chunk)
    requires Reliable(env) && Knows(st, model, parallel, chunks)
    requires Remembers(st, AllOps(chunks)) && Acceptable(AllOps(chunks))
    ensures Accept(env, st, chunk).ok <==> ValidChunk(chunk, model) && Acceptable(AllOps(chunks + [chunk]))
    ensures Accept(env, st, chunk).ok ==> Remembers(Accept(env, st, chunk).st, AllOps(chunks + [chunk]))
  {
    hide Inv, Holds, Remembers, Acceptable, Start, AcceptOps, LastUsage, AllOps, ChunkOps, ValidChunk;
    RunSnoc(chunks, chunk);
    if ValidChunk(chunk, model) {
      var ops := AllOps(chunks);
      var ready := if st.started then st else Start(env, st, chunk.created).st;
      if !st.started {
        EmptyRun();
        StartReliable(env, st, chunk.created);
        StartHolds(env, st, chunk.created);
      }
      var used := WithUsage(ready, chunk.usage);
      UsageKeeps(ready, chunk.usage);
      WithUsageHolds(ready, chunk.usage, ops);
      RemembersSame(st, used, ops);
      ChunkOpsValid(chunk, model);
      OpsAcceptedIff(env, used, ops, ChunkOps(chunk));
    }
  }

  lemma {:induction false} AcceptablePrefixes(base: seq<Op>, ops: seq<Op>)
    requires Acceptable(base + ops)
    ensures Acceptable(base)
    decreases |ops|
  {
    if ops == [] {
      assert base + ops == base;
    } else {
      assert base + ops == base + ops[..|ops| - 1] + [ops[|ops| - 1]];
      AcceptablePrefix(base + ops[..|ops| - 1], ops[|ops| - 1]);
      AcceptablePrefixes(base, ops[..|ops| - 1]);
    }
  }

  /** With reliable surroundings a chunk sequence is accepted exactly when every
      chunk validates on its own and the deltas together are acceptable. */
  lemma {:induction false} ChunksAcceptedIff(env: Env, model: string, parallel: bool, chunks: seq<Chunk>)
    requires Reliable(env)
    ensures AcceptAll(env, NewStream(model, parallel), chunks).ok <==>
            ValidRun(chunks, model) && Acceptable(AllOps(chunks))
    ensures AcceptAll(env, NewStream(model, parallel), chunks).ok ==>
            Remembers(Accepted(env, model, parallel, chunks), AllOps(chunks))
    decreases |chunks|
  {
    hide Acceptable, Remembers, Accept, Knows, ValidRun, ChunkOps, AllOps, NewStream, Reliable;
    if chunks == [] {
      NothingAccepted(env, model, parallel, chunks);
    } else {
      var n := |chunks| - 1;
      ChunksAcceptedIff(env, model, parallel, chunks[..n]);
      assert chunks == chunks[..n] + [chunks[n]];
      ValidRunSnoc(chunks[..n], chunks[n], model);
      RunSnoc(chunks[..n], chunks[n]);
      if Acceptable(AllOps(chunks)) { AcceptablePrefixes(AllOps(chunks[..n]), ChunkOps(chunks[n])); }
      if AcceptAll(env, NewStream(model, parallel), chunks[..n]).ok {
        RunKnows(env, model, parallel, chunks[..n]);
        ChunkAcceptedIff(env, Accepted(env, model, parallel, chunks[..n]), model, parallel, chunks[..n], chunks[n]);
      }
    }
  }

  lemma ValidRunSnoc(chunks: seq<Chunk>, chunk: Chunk, model: string)
    ensures ValidRun(chunks + [chunk], model) <==> ValidRun(chunks, model) && ValidChunk(chunk, model)
  {
    hide ValidChunk;
    assert forall c | c in chunks :: c in chunks + [chunk];
    assert chunk in chunks + [chunk];
  }

  lemma NothingAccepted(env: Env, model: string, parallel: bool, chunks: seq<Chunk>)
    requires chunks == []
    ensures AcceptAll(env, NewStream(model, parallel), chunks).ok && ValidRun(chunks, model) &&
            Acceptable(AllOps(chunks))
    ensures Remembers(Accepted(env, model, parallel, chunks), AllOps(chunks))
  {
  }

  // ----- when Complete succeeds -----

  lemma {:induction false} CompleteToolsReliable(env: Env, st: State, tools: seq<ToolState>)
    requires Reliable(env)
    ensures CompleteTools(env, st, tools).ok
    decreases |tools|
  {
    if tools != [] { CompleteToolsReliable(env, st, tools[..|tools| - 1]); }
  }

  lemma CompletedIff(env: Env, st: State)
    requires Reliable(env)
    ensures Complete(env, st).ok <==> st.started && !st.terminal && AllToolsStarted(st)
  {
    CompleteToolsReliable(env, CompleteText(env, st).st, ToolsBySlot(st, |st.output|));
    CompleteTextReliable(env, st);
    hide CompleteText, CompleteTools;
  }

  lemma CompleteTextReliable(env: Env, st: State)
    requires Reliable(env)
    ensures CompleteText(env, st).ok
  {
  }

  /** A run succeeds exactly when something was sent, all of it is acceptable and
      every tool that was mentioned got both an id and a name. */
  lemma SucceedsIff(env: Env, model: string, parallel: bool, chunks: seq<Chunk>)
    requires Reliable(env)
    ensures Succeeds(env, model, parallel, chunks) <==>
            && chunks != [] && ValidRun(chunks, model) && Acceptable(AllOps(chunks))
            && forall k | Mentions(AllOps(chunks), k) :: Identified(AllOps(chunks), k)
  {
    hide AcceptAll, Complete, Acceptable, Remembers, ValidRun, Inv, AllOps, Mentions, Identified, LastUsage;
    ChunksAcceptedIff(env, model, parallel, chunks);
    if AcceptAll(env, NewStream(model, parallel), chunks).ok {
      var st, ops := Accepted(env, model, parallel, chunks), AllOps(chunks);
      RunKnows(env, model, parallel, chunks);
      CompletedIff(env, st);
      forall k | Mentions(ops, k)
        ensures k in st.tools && (st.tools[k].started <==> Identified(ops, k))
      {
        assert HoldsTool(st.tools[k], ops, k);
      }
    }
  }

  // ----- ids are drawn in slot order -----

  function KeyPrefix(key: Key): IDPrefix {
    if key.TextKey? then MsgID else FcID
  }

  /** The response id was drawn first and slot i's id next but i. */
  ghost predicate DrawnInOrder(env: Env, st: State) {
    && (!st.started ==> st.drawn == 0 && st.output == [])
    && (st.started ==> st.drawn == 1 + |st.output| && env.ids(0, RespID) == Some(st.responseID))
    && forall i | 0 <= i < |st.output| ::
         env.ids(1 + i, if st.output[i].MessageItem? then MsgID else FcID) == Some(st.output[i].id)
  }

  /** Slots, draws and the response id after a step that adds at most one item. */
  ghost predicate DrawsFor(env: Env, st: State, st': State) {
    && st'.started == st.started && st'.responseID == st.responseID
    && st.output <= st'.output && |st'.output| <= |st.output| + 1
    && st'.drawn == st.drawn + |st'.output| - |st.output|
    && (|st'.output| > |st.output| ==>
          var item := st'.output[|st.output|];
          env.ids(st.drawn, if item.MessageItem? then MsgID else FcID) == Some(item.id))
  }

  lemma DrawsKeepOrder(env: Env, st: State, st': State)
    requires DrawnInOrder(env, st) && DrawsFor(env, st, st') && st.started
    ensures DrawnInOrder(env, st')
  {
  }

  lemma TextDraws(env: Env, st: State, delta: string)
    requires AcceptText(env, st, delta).ok
    ensures DrawsFor(env, st, AcceptText(env, st, delta).st)
  {
    if st.text.None? { OpenTextDraws(env, st); }
    hide OpenText;
  }

  lemma OpenTextDraws(env: Env, st: State)
    requires OpenText(env, st).ok
    ensures DrawsFor(env, st, OpenText(env, st).st)
  {
  }

  lemma RecordDraws(st: State, call: ToolDelta)
    requires Record(st, call).ok
    ensures Record(st, call).st.drawn == st.drawn && Record(st, call).st.output == st.output
  {
  }

  lemma ToolDraws(env: Env, st: State, call: ToolDelta)
    requires AcceptTool(env, st, call).ok
    ensures DrawsFor(env, st, AcceptTool(env, st, call).st)
  {
    RecordDraws(st, call);
    RecordEnvelope(st, call);
    hide Record, DrawsFor;
    var recorded := Record(st, call).st;
    var tool := recorded.tools[call.index];
    if Opens(tool) {
      OpenToolDraws(env, recorded, call.index);
      var ready := OpenTool(env, recorded, call.index).st;
      SendDraws(env, ready, call.index, tool.arguments);
      DrawsSame(env, st, recorded, ready, EmitArguments(env, ready, call.index, tool.arguments).st);
    } else {
      SendDraws(env, recorded, call.index, DeltaArguments(call));
      DrawsNone(env, st, EmitArguments(env, recorded, call.index, DeltaArguments(call)).st);
    }
  }

  ghost predicate SameDraws(a: State, b: State) {
    a.started == b.started && a.responseID == b.responseID && a.output == b.output && a.drawn == b.drawn
  }

  lemma DrawsSame(env: Env, a: State, b: State, c: State, d: State)
    requires SameDraws(a, b) && DrawsFor(env, b, c) && SameDraws(c, d)
    ensures DrawsFor(env, a, d)
  {
  }

  lemma DrawsNone(env: Env, a: State, b: State)
    requires SameDraws(a, b)
    ensures DrawsFor(env, a, b)
  {
  }

  lemma OpenToolDraws(env: Env, st: State, k: int)
    requires k in st.tools && OpenTool(env, st, k).ok
    ensures DrawsFor(env, st, OpenTool(env, st, k).st)
  {
  }

  lemma SendDraws(env: Env, st: State, k: int, delta: string)
    ensures SameDraws(st, EmitArguments(env, st, k, delta).st)
  {
  }

  lemma {:induction false} OpsDraw(env: Env, st: State, ops: seq<Op>)
    requires st.started && DrawnInOrder(env, st) && AcceptOps(env, st, ops).ok
    ensures DrawnInOrder(env, AcceptOps(env, st, ops).st) && AcceptOps(env, st, ops).st.started
    decreases |ops|
  {
    if ops != [] {
      hide AcceptText, AcceptTool, DrawnInOrder;
      var n := |ops| - 1;
      var before := AcceptOps(env, st, ops[..n]).st;
      OpsDraw(env, st, ops[..n]);
      OpEnvelope(env, before, ops[n]);
      match ops[n] {
        case TextOp(delta) => TextDraws(env, before, delta);
        case ToolOp(call) => ToolDraws(env, before, call);
      }
      DrawsKeepOrder(env, before, AcceptOp(env, before, ops[n]).st);
    }
  }

  lemma StartDraws(env: Env, st: State, created: int)
    requires !st.started && DrawnInOrder(env, st) && Start(env, st, created).ok
    ensures DrawnInOrder(env, Start(env, st, created).st) && Start(env, st, created).st.started
  {
  }

  lemma ChunkDraws(env: Env, st: State, chunk: Chunk)
    requires DrawnInOrder(env, st) && Accept(env, st, chunk).ok
    ensures DrawnInOrder(env, Accept(env, st, chunk).st)
  {
    var ready := if st.started then st else Start(env, st, chunk.created).st;
    if !st.started { StartDraws(env, st, chunk.created); }
    var used := WithUsage(ready, chunk.usage);
    assert DrawnInOrder(env, used);
    hide DrawnInOrder, Start, AcceptOps;
    OpsDraw(env, used, ChunkOps(chunk));
  }

  lemma {:induction false} RunDraws(env: Env, model: string, parallel: bool, chunks: seq<Chunk>)
    requires AcceptAll(env, NewStream(model, parallel), chunks).ok
    ensures DrawnInOrder(env, Accepted(env, model, parallel, chunks))
    decreases |chunks|
  {
    if chunks != [] {
      var n := |chunks| - 1;
      RunDraws(env, model, parallel, chunks[..n]);
      hide DrawnInOrder, Accept;
      ChunkDraws(env, Accepted(env, model, parallel, chunks[..n]), chunks[n]);
    }
  }

  /** The completed item in slot i, id included. */
  function MeantItem(env: Env, ops: seq<Op>, i: nat): Item
    requires i < |Layout(ops)|
  {
    var id := env.ids(1 + i, KeyPrefix(Layout(ops)[i]));
    var got := if id.Some? then id.value else "";
    match Layout(ops)[i]
    case TextKey => MessageItem(got, Completed, [TextOf(ops)])
    case ToolKey(k) => CallItem(got, Completed, IDFor(ops, k), NameFor(ops, k), ArgumentsFor(ops, k))
  }

  lemma SlotID(env: Env, st: State, ops: seq<Op>, i: nat)
    requires Inv(st) && Holds(st, ops) && DrawnInOrder(env, st) && i < |st.output|
    ensures i < |Layout(ops)| && SlotItem(ClosedView(st, |st.output|)[i]) == MeantItem(env, ops, i)
  {
  }

  /** The completed response, ids included, is determined by the deltas. */
  lemma CompletedResponseDetermined(env: Env, model: string, parallel: bool, chunks: seq<Chunk>)
    requires Succeeds(env, model, parallel, chunks)
    ensures var r, ops := CompletedResponse(env, model, parallel, chunks), AllOps(chunks);
            && chunks != [] && env.ids(0, RespID) == Some(r.id)
            && |r.output| == |Layout(ops)|
            && (forall i | 0 <= i < |r.output| :: r.output[i] == MeantItem(env, ops, i))
            && r == Response(r.id, chunks[0].created, Completed, None, model, r.output, parallel, LastUsage(chunks))
  {
    hide AcceptAll, Complete, InStep, Holds, TextFirst, LastUsage, AllOps, Layout, MeantMessages, MeantCalls,
         FoldedCalls, Inv, DrawnInOrder, MeantItem, SlotItem;
    var st, ops := Accepted(env, model, parallel, chunks), AllOps(chunks);
    CompletedResponseMeaning(env, model, parallel, chunks);
    SuccessNeedsChunks(env, model, parallel, chunks);
    RunKnows(env, model, parallel, chunks);
    RunDraws(env, model, parallel, chunks);
    ResponseIDDrawn(env, st);
    CompleteFollows(env, st);
    CompletedEnvelope(env, st);
    forall i | 0 <= i < |st.output|
      ensures i < |Layout(ops)| && SlotItem(ClosedView(st, |st.output|)[i]) == MeantItem(env, ops, i)
    {
      SlotID(env, st, ops, i);
    }
  }

  lemma ResponseIDDrawn(env: Env, st: State)
    requires DrawnInOrder(env, st) && st.started
    ensures env.ids(0, RespID) == Some(st.responseID)
  {
  }

  // ----- cutting deltas differently -----

  /** The two pieces, one after the other, say what the whole says. (A validated
      delta never carries an empty id or name.) */
  ghost predicate Pieces(whole: Op, first: Op, second: Op) {
    match (whole, first, second)
    case (TextOp(w), TextOp(a), TextOp(b)) => w == a + b
    case (ToolOp(w), ToolOp(a), ToolOp(b)) =>
      && w.index == a.index == b.index
      && DeltaArguments(w) == DeltaArguments(a) + DeltaArguments(b)
      && w.id != Some("") && DeltaName(w) != Some("")
      && Both(w.id, a.id, b.id) && Both(DeltaName(w), DeltaName(a), DeltaName(b))
    case _ => false
  }

  /** A value carried by either piece, or by both alike. */
  ghost predicate Both(whole: Option<string>, first: Option<string>, second: Option<string>) {
    && (first.Some? ==> first == whole)
    && (second.Some? ==> second == whole)
    && (whole.Some? ==> first.Some? || second.Some?)
  }

  /** more is less with one delta cut in two. */
  ghost predicate CutOnce(less: seq<Op>, more: seq<Op>) {
    exists at: nat, whole, first, second :: CutAt(less, more, at, whole, first, second)
  }

  ghost predicate CutAt(less: seq<Op>, more: seq<Op>, at: nat, whole: Op, first: Op, second: Op) {
    && at < |less| && less[at] == whole && Pieces(whole, first, second)
    && more == less[..at] + [first, second] + less[at + 1..]
  }

  /** Each list is obtained from the one before by one cut or by undoing one. */
  ghost predicate Recut(lists: seq<seq<Op>>) {
    forall i | 0 <= i < |lists| - 1 :: CutOnce(lists[i], lists[i + 1]) || CutOnce(lists[i + 1], lists[i])
  }

  /** The two lists mean the same in every respect the stream depends on. */
  ghost predicate SameDeltas(a: seq<Op>, b: seq<Op>) {
    && HasText(a) == HasText(b) && TextOf(a) == TextOf(b) && Layout(a) == Layout(b)
    && GivenIDs(a) == GivenIDs(b) && GivenNames(a) == GivenNames(b)
    && (forall k :: SameTool(a, b, k))
  }

  ghost predicate SameTool(a: seq<Op>, b: seq<Op>, k: int) {
    && ArgumentsFor(a, k) == ArgumentsFor(b, k) && IDFor(a, k) == IDFor(b, k) && NameFor(a, k) == NameFor(b, k)
    && Mentions(a, k) == Mentions(b, k)
  }

  lemma LayoutSnoc(ops: seq<Op>, op: Op)
    ensures Layout(ops + [op]) == Layout(ops) +
            (match op
             case TextOp(_) => if HasText(ops) then [] else [TextKey]
             case ToolOp(call) =>
               if !Identified(ops, call.index) && Identified(ops + [op], call.index) then [ToolKey(call.index)] else [])
  {
  }

  /** All that one more delta does to the meaning. */
  lemma MeaningSnoc(ops: seq<Op>, op: Op, k: int)
    ensures var all := ops + [op];
            && TextOf(all) == TextOf(ops) + (if op.TextOp? then op.delta else "")
            && HasText(all) == (HasText(ops) || op.TextOp?)
            && GivenIDs(all) == GivenIDs(ops) + IDGiven(op) && GivenNames(all) == GivenNames(ops) + NameGiven(op)
            && ArgumentsFor(all, k) == ArgumentsFor(ops, k) + (if IsFor(op, k) then DeltaArguments(op.call) else "")
            && IDFor(all, k) == (if IsFor(op, k) && op.call.id.Some? then op.call.id.value else IDFor(ops, k))
            && NameFor(all, k) ==
                 (if IsFor(op, k) && DeltaName(op.call).Some? then DeltaName(op.call).value else NameFor(ops, k))
            && Mentions(all, k) == (Mentions(ops, k) || IsFor(op, k))
  {
  }

  lemma SameDeltasSnoc(a: seq<Op>, b: seq<Op>, op: Op)
    requires SameDeltas(a, b)
    ensures SameDeltas(a + [op], b + [op])
  {
    hide HasText, TextOf, Layout, GivenIDs, GivenNames, ArgumentsFor, IDFor, NameFor, Mentions;
    LayoutSnoc(a, op);
    LayoutSnoc(b, op);
    forall k ensures SameTool(a + [op], b + [op], k) {
      assert SameTool(a, b, k);
      MeaningSnoc(a, op, k);
      MeaningSnoc(b, op, k);
    }
    if op.ToolOp? { assert SameTool(a, b, op.call.index) && SameTool(a + [op], b + [op], op.call.index); }
    MeaningSnoc(a, op, 0);
    MeaningSnoc(b, op, 0);
  }

  lemma {:induction false} SameDeltasConcat(a: seq<Op>, b: seq<Op>, rest: seq<Op>)
    requires SameDeltas(a, b)
    ensures SameDeltas(a + rest, b + rest)
    decreases |rest|
  {
    hide SameDeltas;
    if rest == [] {
      assert a + rest == a && b + rest == b;
    } else {
      var n := |rest| - 1;
      SameDeltasConcat(a, b, rest[..n]);
      SameDeltasSnoc(a + rest[..n], b + rest[..n], rest[n]);
      assert a + rest == a + rest[..n] + [rest[n]] && b + rest == b + rest[..n] + [rest[n]];
    }
  }

  lemma PiecesSameTool(ops: seq<Op>, whole: Op, first: Op, second: Op, k: int)
    requires Pieces(whole, first, second)
    ensures SameTool(ops + [whole], ops + [first] + [second], k)
  {
  }

  /** Between the pieces nothing can become visible that the whole would not show. */
  lemma PiecesSameLayout(ops: seq<Op>, whole: Op, first: Op, second: Op)
    requires Pieces(whole, first, second)
    ensures Layout(ops + [whole]) == Layout(ops + [first] + [second])
  {
    LayoutSnoc(ops, whole);
    LayoutSnoc(ops, first);
    LayoutSnoc(ops + [first], second);
    var k := if whole.ToolOp? then whole.call.index else 0;
    MeaningSnoc(ops, whole, k);
    MeaningSnoc(ops, first, k);
    MeaningSnoc(ops + [first], second, k);
    hide HasText, TextOf, Layout, GivenIDs, GivenNames, ArgumentsFor, IDFor, NameFor, Mentions;
  }

  lemma PiecesSameDeltas(ops: seq<Op>, whole: Op, first: Op, second: Op)
    requires Pieces(whole, first, second)
    ensures SameDeltas(ops + [whole], ops + [first] + [second])
  {
    hide HasText, TextOf, Layout, GivenIDs, GivenNames, SameTool, Pieces;
    forall k ensures SameTool(ops + [whole], ops + [first] + [second], k) {
      PiecesSameTool(ops, whole, first, second, k);
    }
    PiecesSameLayout(ops, whole, first, second);
    PiecesSameTotals(ops, whole, first, second);
  }

  lemma PiecesSameTotals(ops: seq<Op>, whole: Op, first: Op, second: Op)
    requires Pieces(whole, first, second)
    ensures var a, b := ops + [whole], ops + [first] + [second];
            HasText(a) == HasText(b) && TextOf(a) == TextOf(b) && GivenIDs(a) == GivenIDs(b) &&
              GivenNames(a) == GivenNames(b)
  {
  }

  lemma CutSameDeltas(less: seq<Op>, more: seq<Op>)
    requires CutOnce(less, more)
    ensures SameDeltas(less, more)
  {
    hide SameDeltas, Pieces;
    var at: nat, whole, first, second :| CutAt(less, more, at, whole, first, second);
    PiecesSameDeltas(less[..at], whole, first, second);
    SameDeltasConcat(less[..at] + [whole], less[..at] + [first] + [second], less[at + 1..]);
    assert less == less[..at] + [whole] + less[at + 1..];
    assert more == less[..at] + [first] + [second] + less[at + 1..];
  }

  lemma SameDeltasTransitive(a: seq<Op>, b: seq<Op>, c: seq<Op>)
    requires SameDeltas(a, b) && SameDeltas(b, c)
    ensures SameDeltas(a, c)
  {
    hide HasText, TextOf, Layout, GivenIDs, GivenNames, ArgumentsFor, IDFor, NameFor, Mentions;
    forall k ensures SameTool(a, c, k) {
      assert SameTool(a, b, k) && SameTool(b, c, k);
    }
  }

  lemma SameDeltasSymmetric(a: seq<Op>, b: seq<Op>)
    requires SameDeltas(a, b)
    ensures SameDeltas(b, a)
  {
    hide HasText, TextOf, Layout, GivenIDs, GivenNames, ArgumentsFor, IDFor, NameFor, Mentions;
    forall k ensures SameTool(b, a, k) {
      assert SameTool(a, b, k);
    }
  }

  lemma SameDeltasSelf(a: seq<Op>)
    ensures SameDeltas(a, a)
  {
  }

  lemma {:induction false} RecutSameDeltas(lists: seq<seq<Op>>)
    requires lists != [] && Recut(lists)
    ensures SameDeltas(lists[0], lists[|lists| - 1])
    decreases |lists|
  {
    hide SameDeltas, CutOnce;
    var n := |lists| - 1;
    if n == 0 {
      SameDeltasSelf(lists[0]);
    } else {
      RecutSameDeltas(lists[..n]);
      assert CutOnce(lists[n - 1], lists[n - 1 + 1]) || CutOnce(lists[n - 1 + 1], lists[n - 1]);
      if CutOnce(lists[n - 1], lists[n]) {
        CutSameDeltas(lists[n - 1], lists[n]);
      } else {
        CutSameDeltas(lists[n], lists[n - 1]);
        SameDeltasSymmetric(lists[n], lists[n - 1]);
      }
      SameDeltasTransitive(lists[0], lists[n - 1], lists[n]);
    }
  }

  lemma SameDeltasAcceptable(a: seq<Op>, b: seq<Op>)
    requires SameDeltas(a, b)
    ensures Acceptable(a) <==> Acceptable(b)
  {
    hide HasText, TextOf, Layout, GivenIDs, GivenNames, ArgumentsFor, IDFor, NameFor, Mentions;
    forall k ensures ArgumentsFor(a, k) == ArgumentsFor(b, k) {
      assert SameTool(a, b, k);
    }
    if Acceptable(a) {
      forall k ensures |ArgumentsFor(b, k)| <= MAX_ARGUMENTS_BYTES {
        assert |ArgumentsFor(a, k)| <= MAX_ARGUMENTS_BYTES;
      }
    }
    if Acceptable(b) {
      forall k ensures |ArgumentsFor(a, k)| <= MAX_ARGUMENTS_BYTES {
        assert |ArgumentsFor(b, k)| <= MAX_ARGUMENTS_BYTES;
      }
    }
  }

  lemma SameMeantItem(env: Env, a: seq<Op>, b: seq<Op>, i: nat)
    requires SameDeltas(a, b) && i < |Layout(a)|
    ensures i < |Layout(b)| && MeantItem(env, a, i) == MeantItem(env, b, i)
  {
    if Layout(a)[i].ToolKey? { assert SameTool(a, b, Layout(a)[i].k); }
    hide HasText, TextOf, Layout, GivenIDs, GivenNames, ArgumentsFor, IDFor, NameFor, Mentions;
  }

  /** Two chunk sequences whose deltas differ only in how they are cut and whose first
      creation time and last usage agree: when one succeeds the other does exactly if
      its own chunks validate, and they then complete with the same response, ids
      included. */
  lemma RechunkingDoesNotMatter(env: Env, model: string, parallel: bool, a: seq<Chunk>, b: seq<Chunk>,
      lists: seq<seq<Op>>)
    requires Reliable(env) && a != [] && b != []
    requires a[0].created == b[0].created && LastUsage(a) == LastUsage(b)
    requires lists != [] && Recut(lists) && lists[0] == AllOps(a) && lists[|lists| - 1] == AllOps(b)
    ensures Succeeds(env, model, parallel, a) ==> (Succeeds(env, model, parallel, b) <==> ValidRun(b, model))
    ensures Succeeds(env, model, parallel, b) ==> (Succeeds(env, model, parallel, a) <==> ValidRun(a, model))
    ensures Succeeds(env, model, parallel, a) && Succeeds(env, model, parallel, b) ==>
              CompletedResponse(env, model, parallel, a) == CompletedResponse(env, model, parallel, b)
  {
    hide Succeeds, CompletedResponse, Acceptable, ValidRun, Identified, MeantItem, AllOps, LastUsage, Layout, Mentions;
    RecutSameDeltas(lists);
    var opsA, opsB := AllOps(a), AllOps(b);
    SameDeltasAcceptable(opsA, opsB);
    SucceedsIff(env, model, parallel, a);
    SucceedsIff(env, model, parallel, b);
    forall k
      ensures (Mentions(opsA, k) <==> Mentions(opsB, k)) && (Identified(opsA, k) <==> Identified(opsB, k))
    {
      assert SameTool(opsA, opsB, k);
      SameIdentified(opsA, opsB, k);
    }
    if Succeeds(env, model, parallel, a) && Succeeds(env, model, parallel, b) {
      CompletedResponseDetermined(env, model, parallel, a);
      CompletedResponseDetermined(env, model, parallel, b);
      var x, y := CompletedResponse(env, model, parallel, a), CompletedResponse(env, model, parallel, b);
      forall i | 0 <= i < |x.output|
        ensures x.output[i] == y.output[i]
      {
        SameMeantItem(env, opsA, opsB, i);
      }
      assert x.output == y.output;
    }
  }

  lemma SameIdentified(a: seq<Op>, b: seq<Op>, k: int)
    requires SameTool(a, b, k)
    ensures Identified(a, k) <==> Identified(b, k)
  {
  }
}
