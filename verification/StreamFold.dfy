/** Streaming refines the simple projection: what a run of chunks means, read off
    the deltas directly, and the proof that the completed response of the stream
    is the projection of that meaning. */
module StreamFold {
  import opened Prelude
  import opened Limits
  import opened StreamModel
  import opened StreamInvariant
  import opened StreamTrace
  import opened StreamProject

  // ----- the meaning of a list of deltas, without any stream -----

  predicate HasText(ops: seq<Op>) {
    exists op | op in ops :: op.TextOp?
  }

  function TextOf(ops: seq<Op>): string
    decreases |ops|
  {
    if ops == [] then "" else
    var last := ops[|ops| - 1];
    TextOf(ops[..|ops| - 1]) + (if last.TextOp? then last.delta else "")
  }

  predicate IsFor(op: Op, k: int) {
    op.ToolOp? && op.call.index == k
  }

  predicate Mentions(ops: seq<Op>, k: int) {
    exists op | op in ops :: IsFor(op, k)
  }

  /** All argument bytes for tool k, in order. */
  function ArgumentsFor(ops: seq<Op>, k: int): string
    decreases |ops|
  {
    if ops == [] then "" else
    var last := ops[|ops| - 1];
    ArgumentsFor(ops[..|ops| - 1], k) + (if IsFor(last, k) then DeltaArguments(last.call) else "")
  }

  /** The last id given for tool k, or "". */
  function IDFor(ops: seq<Op>, k: int): string
    decreases |ops|
  {
    if ops == [] then "" else
    var last := ops[|ops| - 1];
    if IsFor(last, k) && last.call.id.Some? then last.call.id.value else IDFor(ops[..|ops| - 1], k)
  }

  /** The last name given for tool k, or "". */
  function NameFor(ops: seq<Op>, k: int): string
    decreases |ops|
  {
    if ops == [] then "" else
    var last := ops[|ops| - 1];
    if IsFor(last, k) && DeltaName(last.call).Some? then DeltaName(last.call).value else NameFor(ops[..|ops| - 1], k)
  }

  predicate Identified(ops: seq<Op>, k: int) {
    IDFor(ops, k) != "" && NameFor(ops, k) != ""
  }

  datatype Key = TextKey | ToolKey(k: int)

  /** The output items in order of appearance: the text at its first delta, a
      tool at the delta that completes its identity. */
  function Layout(ops: seq<Op>): seq<Key>
    decreases |ops|
  {
    if ops == [] then [] else
    var before, last := ops[..|ops| - 1], ops[|ops| - 1];
    Layout(before) +
    (match last
     case TextOp(_) => if HasText(before) then [] else [TextKey]
     case ToolOp(call) =>
       if !Identified(before, call.index) && Identified(ops, call.index) then [ToolKey(call.index)] else [])
  }

  function ToolKeys(keys: seq<Key>): seq<int>
    decreases |keys|
  {
    if keys == [] then [] else
    ToolKeys(keys[..|keys| - 1]) + (if keys[|keys| - 1].ToolKey? then [keys[|keys| - 1].k] else [])
  }

  /** Tool indexes in the order in which their identities became known. */
  function StartOrder(ops: seq<Op>): seq<int> {
    ToolKeys(Layout(ops))
  }

  function FoldedCalls(ops: seq<Op>, ks: seq<int>): seq<ToolCall>
    decreases |ks|
  {
    if ks == [] then [] else
    var k := ks[|ks| - 1];
    FoldedCalls(ops, ks[..|ks| - 1]) + [ToolCall(IDFor(ops, k), NameFor(ops, k), ArgumentsFor(ops, k))]
  }

  function AllOps(chunks: seq<Chunk>): seq<Op>
    decreases |chunks|
  {
    if chunks == [] then [] else AllOps(chunks[..|chunks| - 1]) + ChunkOps(chunks[|chunks| - 1])
  }

  function LastUsage(chunks: seq<Chunk>): Option<Usage>
    decreases |chunks|
  {
    if chunks == [] then None else
    if chunks[|chunks| - 1].usage.Some? then chunks[|chunks| - 1].usage else LastUsage(chunks[..|chunks| - 1])
  }

  /** The chat completion that the chunks are a stream of. */
  function Folded(chunks: seq<Chunk>): Completion
    requires chunks != []
  {
    var ops := AllOps(chunks);
    Completion(chunks[0].created, chunks[0].model,
               [CompletionChoice("assistant", if HasText(ops) then Text(TextOf(ops)) else NilContent,
                                 FoldedCalls(ops, StartOrder(ops)))],
               LastUsage(chunks))
  }

  // ----- the stream holds exactly that -----

  /** st holds what the deltas mean. */
  ghost predicate Holds(st: State, ops: seq<Op>) {
    && (st.text.Some? <==> HasText(ops))
    && (st.text.Some? ==> st.text.value.text == TextOf(ops))
    && (forall k :: k in st.tools <==> Mentions(ops, k))
    && (forall k | k in st.tools :: HoldsTool(st.tools[k], ops, k))
    && |st.output| == |Layout(ops)|
    && (forall i | 0 <= i < |st.output| :: SlotKey(st, i) == Layout(ops)[i])
  }

  ghost predicate HoldsTool(tool: ToolState, ops: seq<Op>, k: int) {
    && tool.callID == IDFor(ops, k) && tool.name == NameFor(ops, k)
    && tool.arguments == ArgumentsFor(ops, k)
    && (tool.started <==> Identified(ops, k))
  }

  function SlotKey(st: State, i: nat): Key
    requires i < |st.output|
  {
    if st.output[i].CallItem? && st.output[i].callID in st.callIDs then ToolKey(st.callIDs[st.output[i].callID])
    else TextKey
  }

  lemma HasTextSnoc(ops: seq<Op>, op: Op)
    ensures HasText(ops + [op]) == (HasText(ops) || op.TextOp?)
  {
    if HasText(ops) {
      var x :| x in ops && x.TextOp?;
      assert x in ops + [op];
    }
    assert op in ops + [op];
  }

  lemma MentionsSnoc(ops: seq<Op>, op: Op, k: int)
    ensures Mentions(ops + [op], k) == (Mentions(ops, k) || IsFor(op, k))
  {
    if Mentions(ops, k) {
      var x :| x in ops && IsFor(x, k);
      assert x in ops + [op];
    }
    assert op in ops + [op];
  }

  lemma FoldSnoc(ops: seq<Op>, op: Op, k: int)
    ensures var all := ops + [op];
            && all[..|all| - 1] == ops && all[|all| - 1] == op
            && TextOf(all) == TextOf(ops) + (if op.TextOp? then op.delta else "")
            && ArgumentsFor(all, k) == ArgumentsFor(ops, k) + (if IsFor(op, k) then DeltaArguments(op.call) else "")
            && IDFor(all, k) == (if IsFor(op, k) && op.call.id.Some? then op.call.id.value else IDFor(ops, k))
            && NameFor(all, k) ==
                 (if IsFor(op, k) && DeltaName(op.call).Some? then DeltaName(op.call).value else NameFor(ops, k))
  {
    assert (ops + [op])[..|ops|] == ops;
  }

  lemma TextStep(env: Env, st: State, ops: seq<Op>, delta: string)
    requires Inv(st) && Holds(st, ops) && AcceptText(env, st, delta).ok
    ensures Holds(AcceptText(env, st, delta).st, ops + [TextOp(delta)])
  {
    var op := TextOp(delta);
    var st' := AcceptText(env, st, delta).st;
    hide Inv, AcceptText, HasText, TextOf, ArgumentsFor, IDFor, NameFor, Mentions, SlotKey;
    TextStepSlots(env, st, delta);
    if !HasText(ops) { NoText(ops); }
    TextLayout(ops, delta);
    HasTextSnoc(ops, op);
    FoldSnoc(ops, op, 0);
    forall k
      ensures k in st'.tools <==> Mentions(ops + [op], k)
      ensures k in st'.tools ==> HoldsTool(st'.tools[k], ops + [op], k)
    {
      MentionsSnoc(ops, op, k);
      FoldSnoc(ops, op, k);
    }
  }

  lemma TextLayout(ops: seq<Op>, delta: string)
    ensures Layout(ops + [TextOp(delta)]) == Layout(ops) + (if HasText(ops) then [] else [TextKey])
  {
    FoldSnoc(ops, TextOp(delta), 0);
  }

  lemma {:induction false} NoText(ops: seq<Op>)
    requires !HasText(ops)
    ensures TextOf(ops) == ""
    decreases |ops|
  {
    if ops != [] {
      assert ops[|ops| - 1] in ops;
      NoText(ops[..|ops| - 1]);
    }
  }

  /** A text delta adds at most the message slot. */
  lemma TextStepSlots(env: Env, st: State, delta: string)
    requires AcceptText(env, st, delta).ok
    ensures var st' := AcceptText(env, st, delta).st;
            && st'.tools == st.tools && st'.text.Some?
            && st'.text.value.text == (if st.text.Some? then st.text.value.text else "") + delta
            && |st'.output| == |st.output| + (if st.text.None? then 1 else 0)
            && (forall i | 0 <= i < |st.output| :: SlotKey(st', i) == SlotKey(st, i))
            && (st.text.None? ==> SlotKey(st', |st.output|) == TextKey)
  {
  }

  /** What a successful tool delta leaves in the tool it names. */
  function Told(tool: ToolState, call: ToolDelta): ToolState {
    var id := if call.id.Some? then call.id.value else tool.callID;
    var name := if DeltaName(call).Some? then DeltaName(call).value else tool.name;
    tool.(callID := id, name := name, arguments := tool.arguments + DeltaArguments(call))
  }

  lemma RecordResult(st: State, call: ToolDelta)
    requires Record(st, call).ok
    ensures var tool := if call.index in st.tools then st.tools[call.index] else BLANK_TOOL;
            && Record(st, call).st.tools == st.tools[call.index := Told(tool, call)]
            && Record(st, call).st.output == st.output
            && Record(st, call).st.text == st.text
  {
    hide RecordFunction, RecordID;
    var found := WithTool(st, call.index);
    if call.id.None? {
      RecordFunctionResult(found, call);
    } else {
      RecordIDResult(found, call);
      RecordFunctionResult(RecordID(found, call).st, call);
    }
  }

  lemma RecordIDResult(st: State, call: ToolDelta)
    requires call.index in st.tools && call.id.Some? && RecordID(st, call).ok
    ensures RecordID(st, call).st.tools == st.tools[call.index := st.tools[call.index].(callID := call.id.value)]
    ensures RecordID(st, call).st.output == st.output && RecordID(st, call).st.text == st.text
  {
  }

  lemma RecordFunctionResult(st: State, call: ToolDelta)
    requires call.index in st.tools && RecordFunction(st, call).ok
    ensures RecordFunction(st, call).st.tools == st.tools[call.index := Told(st.tools[call.index], call.(id := None))]
    ensures RecordFunction(st, call).st.output == st.output && RecordFunction(st, call).st.text == st.text
  {
  }

  function ToldBy(st: State, call: ToolDelta): ToolState {
    Told(if call.index in st.tools then st.tools[call.index] else BLANK_TOOL, call)
  }

  predicate Opens(tool: ToolState) {
    !tool.started && tool.callID != "" && tool.name != ""
  }

  /** The tools and slots after a successful tool delta. */
  ghost predicate ToolResult(st: State, st': State, call: ToolDelta) {
    var k, told := call.index, ToldBy(st, call);
    && st'.text == st.text
    && k in st'.tools
    && st'.tools == st.tools[k := st'.tools[k]]
    && st'.tools[k] == told.(started := told.started || Opens(told), itemID := st'.tools[k].itemID,
                             outputIndex := st'.tools[k].outputIndex)
    && st'.output == st.output +
         (if Opens(told) then [CallItem(st'.tools[k].itemID, InProgress, told.callID, told.name, "")] else [])
  }

  lemma AcceptToolResult(env: Env, st: State, call: ToolDelta)
    requires AcceptTool(env, st, call).ok
    ensures ToolResult(st, AcceptTool(env, st, call).st, call)
  {
    RecordResult(st, call);
    var recorded := Record(st, call).st;
    var told := ToldBy(st, call);
    hide Record, Told;
    assert recorded.tools[call.index] == told;
    if Opens(told) {
      var ready := OpenTool(env, recorded, call.index).st;
      SendFrame(env, ready, call.index, told.arguments);
      assert ready.tools == st.tools[call.index := ready.tools[call.index]];
      hide EmitArguments, OpenTool;
    } else {
      SendFrame(env, recorded, call.index, DeltaArguments(call));
      assert st.output + [] == st.output;
      hide EmitArguments, OpenTool;
    }
  }

  lemma SendFrame(env: Env, st: State, k: int, delta: string)
    ensures var r := EmitArguments(env, st, k, delta).st;
            r.tools == st.tools && r.output == st.output && r.text == st.text && r.callIDs == st.callIDs
  {
  }

  lemma ToolStep(env: Env, st: State, ops: seq<Op>, call: ToolDelta)
    requires Inv(st) && st.started && ValidToolDelta(call) && Holds(st, ops) && AcceptTool(env, st, call).ok
    ensures Holds(AcceptTool(env, st, call).st, ops + [ToolOp(call)])
  {
    hide AcceptTool, Inv, HoldsTool, SlotKey, Layout, IDFor, NameFor, TextOf, ArgumentsFor, Mentions, HasText, Extends;
    var op := ToolOp(call);
    var k := call.index;
    var st' := AcceptTool(env, st, call).st;
    AcceptToolResult(env, st, call);
    AcceptToolKeeps(env, st, call);
    ToolStepTools(st, st', ops, call);
    ToolStepSlots(st, st', ops, call);
    HasTextSnoc(ops, op);
    FoldSnoc(ops, op, k);
  }

  lemma ToolStepTools(st: State, st': State, ops: seq<Op>, call: ToolDelta)
    requires Holds(st, ops) && ToolResult(st, st', call) && Inv(st) && ValidToolDelta(call)
    ensures forall j :: j in st'.tools <==> Mentions(ops + [ToolOp(call)], j)
    ensures forall j | j in st'.tools :: HoldsTool(st'.tools[j], ops + [ToolOp(call)], j)
  {
    var op := ToolOp(call);
    hide Layout, HasText, SlotsInv;
    forall j
      ensures j in st'.tools <==> Mentions(ops + [op], j)
      ensures j in st'.tools ==> HoldsTool(st'.tools[j], ops + [op], j)
    {
      MentionsSnoc(ops, op, j);
      FoldSnoc(ops, op, j);
      if !Mentions(ops, j) { Unmentioned(ops, j); }
    }
  }

  lemma {:induction false} Unmentioned(ops: seq<Op>, k: int)
    requires !Mentions(ops, k)
    ensures IDFor(ops, k) == "" && NameFor(ops, k) == "" && ArgumentsFor(ops, k) == ""
    decreases |ops|
  {
    if ops != [] {
      assert ops[|ops| - 1] in ops;
      Unmentioned(ops[..|ops| - 1], k);
    }
  }

  lemma ToolStepSlots(st: State, st': State, ops: seq<Op>, call: ToolDelta)
    requires Holds(st, ops) && ToolResult(st, st', call) && Inv(st) && Inv(st')
    requires forall j | j in st'.tools :: HoldsTool(st'.tools[j], ops + [ToolOp(call)], j)
    ensures |st'.output| == |Layout(ops + [ToolOp(call)])|
    ensures forall i | 0 <= i < |st'.output| :: SlotKey(st', i) == Layout(ops + [ToolOp(call)])[i]
  {
    hide Inv, SlotKey, IDFor, NameFor, ArgumentsFor, Mentions, HasText;
    var op := ToolOp(call);
    var k := call.index;
    if k !in st.tools { Unmentioned(ops, k); }
    assert HoldsTool(st'.tools[k], ops + [op], k);
    assert Identified(ops, k) <==> k in st.tools && st.tools[k].started;
    SlotKeysStay(st, st', call);
    LayoutStep(ops, call);
    assert Opens(ToldBy(st, call)) <==> !Identified(ops, k) && Identified(ops + [op], k);
    hide HoldsTool, Identified;
  }

  lemma LayoutStep(ops: seq<Op>, call: ToolDelta)
    ensures Layout(ops + [ToolOp(call)]) ==
            Layout(ops) + (if !Identified(ops, call.index) && Identified(ops + [ToolOp(call)], call.index)
                           then [ToolKey(call.index)] else [])
  {
    FoldSnoc(ops, ToolOp(call), call.index);
  }

  lemma SlotKeysStay(st: State, st': State, call: ToolDelta)
    requires ToolResult(st, st', call) && Inv(st) && Inv(st')
    ensures forall i | 0 <= i < |st.output| :: SlotKey(st', i) == SlotKey(st, i)
    ensures |st'.output| > |st.output| ==> SlotKey(st', |st.output|) == ToolKey(call.index)
  {
    forall i | 0 <= i < |st.output|
      ensures SlotKey(st', i) == SlotKey(st, i)
    {
      if st.output[i].CallItem? {
        assert IsToolSlot(st, i) && IsToolSlot(st', i);
        var j := st.callIDs[st.output[i].callID];
        assert st.tools[j].callID == st.output[i].callID && st.tools[j].started;
        assert j in st'.tools && st'.tools[j].started;
        assert OwnsSlot(st, j) && OwnsSlot(st', j);
      }
    }
  }

  lemma {:induction false} OpsHold(env: Env, st: State, base: seq<Op>, ops: seq<Op>)
    requires Inv(st) && st.started && ValidOps(ops) && Holds(st, base) && AcceptOps(env, st, ops).ok
    ensures Holds(AcceptOps(env, st, ops).st, base + ops)
    decreases |ops|
  {
    hide Holds, Inv, AcceptText, AcceptTool, Extends, ValidToolDelta;
    if ops == [] {
      assert base + ops == base;
    } else {
      var n := |ops| - 1;
      var before := AcceptOps(env, st, ops[..n]).st;
      OpsHold(env, st, base, ops[..n]);
      AcceptOpsKeeps(env, st, ops[..n]);
      ExtendsStarted(st, before);
      assert base + ops == base + ops[..n] + [ops[n]];
      OpHolds(env, before, base + ops[..n], ops[n]);
    }
  }

  lemma OpHolds(env: Env, st: State, ops: seq<Op>, op: Op)
    requires Inv(st) && st.started && ValidOp(op)
    requires Holds(st, ops) && AcceptOp(env, st, op).ok
    ensures Holds(AcceptOp(env, st, op).st, ops + [op])
  {
    hide Holds, Inv, AcceptText, AcceptTool;
    match op
    case TextOp(delta) => TextStep(env, st, ops, delta);
    case ToolOp(call) => ToolStep(env, st, ops, call);
  }

  /** Nothing but the usage, the tools, the text and the slots changes. */
  ghost predicate SameEnvelope(a: State, b: State) {
    a.createdAt == b.createdAt && a.usage == b.usage && a.model == b.model && a.parallel == b.parallel
    && a.started == b.started && a.terminal == b.terminal && a.responseID == b.responseID
  }

  lemma RecordEnvelope(st: State, call: ToolDelta)
    ensures SameEnvelope(st, Record(st, call).st)
  {
    hide RecordFunction, RecordID, WithTool;
    if !(call.index !in st.tools && |st.tools| >= MAX_PARALLEL_CALLS) {
      WithToolEnvelope(st, call.index);
      var found := WithTool(st, call.index);
      RecordFunctionEnvelope(found, call);
      if call.id.Some? {
        RecordIDEnvelope(found, call);
        if call.index in RecordID(found, call).st.tools { RecordFunctionEnvelope(RecordID(found, call).st, call); }
      }
    }
  }

  lemma WithToolEnvelope(st: State, k: int)
    ensures SameEnvelope(st, WithTool(st, k)) && k in WithTool(st, k).tools
  {
  }

  lemma RecordFunctionEnvelope(st: State, call: ToolDelta)
    requires call.index in st.tools
    ensures SameEnvelope(st, RecordFunction(st, call).st)
  {
  }

  lemma RecordIDEnvelope(st: State, call: ToolDelta)
    requires call.index in st.tools && call.id.Some?
    ensures SameEnvelope(st, RecordID(st, call).st)
  {
  }

  lemma ToolEnvelope(env: Env, st: State, call: ToolDelta)
    ensures SameEnvelope(st, AcceptTool(env, st, call).st)
  {
    hide Record, EmitArguments, OpenTool;
    RecordEnvelope(st, call);
    var recorded := Record(st, call).st;
    if call.index in recorded.tools {
      var tool := recorded.tools[call.index];
      OpenToolEnvelope(env, recorded, call.index);
      EmitArgumentsEnvelope(env, recorded, call.index, DeltaArguments(call));
      EmitArgumentsEnvelope(env, OpenTool(env, recorded, call.index).st, call.index, tool.arguments);
    }
  }

  lemma OpenToolEnvelope(env: Env, st: State, k: int)
    requires k in st.tools
    ensures SameEnvelope(st, OpenTool(env, st, k).st)
  {
  }

  lemma EmitArgumentsEnvelope(env: Env, st: State, k: int, delta: string)
    ensures SameEnvelope(st, EmitArguments(env, st, k, delta).st)
  {
  }

  lemma TextEnvelope(env: Env, st: State, delta: string)
    ensures SameEnvelope(st, AcceptText(env, st, delta).st)
  {
    OpenTextEnvelope(env, st);
    hide OpenText;
  }

  lemma OpenTextEnvelope(env: Env, st: State)
    ensures SameEnvelope(st, OpenText(env, st).st)
  {
  }

  lemma OpEnvelope(env: Env, st: State, op: Op)
    ensures SameEnvelope(st, AcceptOp(env, st, op).st)
  {
    hide AcceptTool, AcceptText;
    match op
    case TextOp(delta) => TextEnvelope(env, st, delta);
    case ToolOp(call) => ToolEnvelope(env, st, call);
  }

  lemma {:induction false} OpsEnvelope(env: Env, st: State, ops: seq<Op>)
    ensures SameEnvelope(st, AcceptOps(env, st, ops).st)
    decreases |ops|
  {
    if ops != [] {
      OpsEnvelope(env, st, ops[..|ops| - 1]);
      OpEnvelope(env, AcceptOps(env, st, ops[..|ops| - 1]).st, ops[|ops| - 1]);
      hide AcceptOp;
    }
  }

  /** What the stream knows after accepting these chunks. */
  ghost predicate Knows(st: State, model: string, parallel: bool, chunks: seq<Chunk>) {
    && Inv(st) && st.model == model && st.parallel == parallel && !st.terminal
    && (st.started <==> chunks != [])
    && Holds(st, AllOps(chunks))
    && (chunks != [] ==> st.createdAt == chunks[0].created && chunks[0].model == model && chunks[0].created >= 0
                         && st.usage == LastUsage(chunks))
    && (chunks == [] ==> st.usage.None?)
  }

  lemma WithUsageHolds(st: State, usage: Option<Usage>, ops: seq<Op>)
    requires Holds(st, ops)
    ensures Holds(WithUsage(st, usage), ops)
  {
    assert forall i | 0 <= i < |st.output| :: SlotKey(WithUsage(st, usage), i) == SlotKey(st, i);
  }

  lemma StartHolds(env: Env, st: State, created: int)
    requires Inv(st) && !st.started && Holds(st, []) && Start(env, st, created).ok
    ensures var st' := Start(env, st, created).st;
            && Holds(st', []) && st'.started && st'.createdAt == created && st'.usage == st.usage
            && st'.model == st.model && st'.parallel == st.parallel && !st'.terminal && Inv(st')
  {
    StartKeeps(env, st, created);
  }

  lemma ChunkKnows(env: Env, st: State, model: string, parallel: bool, chunks: seq<Chunk>, chunk: Chunk)
    requires Knows(st, model, parallel, chunks) && Accept(env, st, chunk).ok
    ensures Knows(Accept(env, st, chunk).st, model, parallel, chunks + [chunk])
  {
    hide Inv, Holds, Start, AcceptOps, Extends, LastUsage, AllOps, ChunkOps;
    AcceptKeeps(env, st, chunk);
    var ready := if st.started then st else Start(env, st, chunk.created).st;
    if !st.started {
      EmptyRun();
      StartHolds(env, st, chunk.created);
    }
    var used := WithUsage(ready, chunk.usage);
    UsageKeeps(ready, chunk.usage);
    WithUsageHolds(ready, chunk.usage, AllOps(chunks));
    ChunkOpsValid(chunk, model);
    OpsHold(env, used, AllOps(chunks), ChunkOps(chunk));
    OpsEnvelope(env, used, ChunkOps(chunk));
    RunSnoc(chunks, chunk);
  }

  lemma EmptyRun()
    ensures AllOps([]) == [] && LastUsage([]).None?
  {
  }

  lemma RunSnoc(chunks: seq<Chunk>, chunk: Chunk)
    ensures AllOps(chunks + [chunk]) == AllOps(chunks) + ChunkOps(chunk)
    ensures LastUsage(chunks + [chunk]) == (if chunk.usage.Some? then chunk.usage else LastUsage(chunks))
  {
    assert (chunks + [chunk])[..|chunks|] == chunks;
  }

  lemma NewKnows(model: string, parallel: bool)
    ensures Knows(NewStream(model, parallel), model, parallel, [])
  {
    EmptyRun();
  }

  lemma {:induction false} RunKnows(env: Env, model: string, parallel: bool, chunks: seq<Chunk>)
    requires AcceptAll(env, NewStream(model, parallel), chunks).ok
    ensures Knows(AcceptAll(env, NewStream(model, parallel), chunks).st, model, parallel, chunks)
    decreases |chunks|
  {
    hide Knows, Accept, NewStream;
    if chunks == [] {
      NewKnows(model, parallel);
    } else {
      var n := |chunks| - 1;
      assert chunks == chunks[..n] + [chunks[n]];
      RunKnows(env, model, parallel, chunks[..n]);
      ChunkKnows(env, AcceptAll(env, NewStream(model, parallel), chunks[..n]).st, model, parallel, chunks[..n],
        chunks[n]);
    }
  }

  // ----- the refinement -----

  function EraseID(item: Item): Item {
    item.(id := "")
  }

  function Messages(items: seq<Item>): seq<Item>
    decreases |items|
  {
    if items == [] then [] else
    Messages(items[..|items| - 1]) + (if items[|items| - 1].MessageItem? then [EraseID(items[|items| - 1])] else [])
  }

  function Calls(items: seq<Item>): seq<Item>
    decreases |items|
  {
    if items == [] then [] else
    Calls(items[..|items| - 1]) + (if items[|items| - 1].CallItem? then [EraseID(items[|items| - 1])] else [])
  }

  /** The items without their ids and with the text item moved to the front. */
  function TextFirst(items: seq<Item>): seq<Item> {
    Messages(items) + Calls(items)
  }

  /** The same response up to item and response ids and the place of the text. */
  ghost predicate SameMeaning(a: Response, b: Response) {
    && a.createdAt == b.createdAt && a.status == b.status && a.error == b.error && a.model == b.model
    && a.parallel == b.parallel && a.usage == b.usage && TextFirst(a.output) == TextFirst(b.output)
  }

  function MeantMessages(ops: seq<Op>): seq<Item> {
    if HasText(ops) then [MessageItem("", Completed, [TextOf(ops)])] else []
  }

  function MeantCalls(calls: seq<ToolCall>): seq<Item>
    decreases |calls|
  {
    if calls == [] then [] else
    var call := calls[|calls| - 1];
    MeantCalls(calls[..|calls| - 1]) + [CallItem("", Completed, call.id, call.name, call.arguments)]
  }

  lemma FilterSnoc(items: seq<Item>, item: Item)
    ensures Messages(items + [item]) == Messages(items) + (if item.MessageItem? then [EraseID(item)] else [])
    ensures Calls(items + [item]) == Calls(items) + (if item.CallItem? then [EraseID(item)] else [])
  {
    assert (items + [item])[..|items|] == items;
  }

  /** The finished item in slot i is what the deltas mean for that slot. */
  lemma ClosedItem(st: State, ops: seq<Op>, i: nat)
    requires Inv(st) && Holds(st, ops) && i < |st.output|
    ensures var item := SlotItem(ClosedView(st, |st.output|)[i]);
            match Layout(ops)[i]
            case TextKey =>
              item == MessageItem(item.id, Completed, [TextOf(ops)]) && st.text.Some? && st.text.value.outputIndex == i
            case ToolKey(k) =>
              item == CallItem(item.id, Completed, IDFor(ops, k), NameFor(ops, k), ArgumentsFor(ops, k))
  {
    assert SlotKey(st, i) == Layout(ops)[i];
    if st.output[i].CallItem? {
      var k := st.callIDs[st.output[i].callID];
      assert IsToolSlot(st, i) && ToolAt(st, i).started && ToolAt(st, i).outputIndex == i;
      assert OwnsSlot(st, k) && HoldsTool(st.tools[k], ops, k);
    }
  }

  lemma MeantSnoc(ops: seq<Op>, keys: seq<Key>, key: Key)
    ensures MeantCalls(FoldedCalls(ops, ToolKeys(keys + [key]))) ==
            MeantCalls(FoldedCalls(ops, ToolKeys(keys))) +
            (if key.ToolKey?
             then [CallItem("", Completed, IDFor(ops, key.k), NameFor(ops, key.k), ArgumentsFor(ops, key.k))] else [])
  {
    assert (keys + [key])[..|keys|] == keys;
    if key.ToolKey? {
      var ks := ToolKeys(keys);
      assert ToolKeys(keys + [key]) == ks + [key.k];
      assert (ks + [key.k])[..|ks|] == ks;
      var calls := FoldedCalls(ops, ks);
      var call := ToolCall(IDFor(ops, key.k), NameFor(ops, key.k), ArgumentsFor(ops, key.k));
      assert FoldedCalls(ops, ks + [key.k]) == calls + [call];
      assert (calls + [call])[..|calls|] == calls;
    } else {
      assert ToolKeys(keys + [key]) == ToolKeys(keys);
    }
  }

  function FinishedItems(st: State): (items: seq<Item>)
    ensures |items| == |st.output|
  {
    Items(ClosedView(st, |st.output|))
  }

  /** The finished items, slot by slot, are what the layout means. */
  ghost predicate Finished(items: seq<Item>, ops: seq<Op>) {
    && |items| == |Layout(ops)|
    && forall i | 0 <= i < |items| ::
         match Layout(ops)[i]
         case TextKey => EraseID(items[i]) == MessageItem("", Completed, [TextOf(ops)])
         case ToolKey(k) =>
           EraseID(items[i]) == CallItem("", Completed, IDFor(ops, k), NameFor(ops, k), ArgumentsFor(ops, k))
  }

  lemma StateFinished(st: State, ops: seq<Op>)
    requires Inv(st) && Holds(st, ops)
    ensures Finished(FinishedItems(st), ops)
  {
    hide SlotItem, Layout, IDFor, NameFor, ArgumentsFor, TextOf;
    forall i | 0 <= i < |st.output| {
      ClosedItem(st, ops, i);
    }
  }

  lemma {:induction false} FinishedCalls(items: seq<Item>, ops: seq<Op>, n: nat)
    requires Finished(items, ops) && n <= |items|
    ensures Calls(items[..n]) == MeantCalls(FoldedCalls(ops, ToolKeys(Layout(ops)[..n])))
  {
    hide IDFor, NameFor, ArgumentsFor, TextOf, Layout, MeantCalls, Calls, FoldedCalls, ToolKeys, Messages;
    if n == 0 {
      NothingMeant(ops);
    } else {
      FinishedCalls(items, ops, n - 1);
      assert items[..n] == items[..n - 1] + [items[n - 1]];
      FilterSnoc(items[..n - 1], items[n - 1]);
      assert Layout(ops)[..n] == Layout(ops)[..n - 1] + [Layout(ops)[n - 1]];
      MeantSnoc(ops, Layout(ops)[..n - 1], Layout(ops)[n - 1]);
    }
  }

  lemma {:induction false} FinishedMessages(items: seq<Item>, ops: seq<Op>, n: nat)
    requires Finished(items, ops) && n <= |items|
    ensures Messages(items[..n]) ==
            (if TextKey in Layout(ops)[..n] then [MessageItem("", Completed, [TextOf(ops)])] else [])
  {
    hide IDFor, NameFor, ArgumentsFor, TextOf, Calls, Messages, HasText, Identified;
    if n == 0 {
      NothingMeant(ops);
    } else {
      FinishedMessages(items, ops, n - 1);
      assert items[..n] == items[..n - 1] + [items[n - 1]];
      FilterSnoc(items[..n - 1], items[n - 1]);
      assert Layout(ops)[..n] == Layout(ops)[..n - 1] + [Layout(ops)[n - 1]];
      if Layout(ops)[n - 1] == TextKey { OneTextKey(ops, n - 1); }
    }
  }

  /** The text appears exactly once when there is a text delta, and never otherwise. */
  lemma {:induction false} TextKeyOnce(ops: seq<Op>)
    ensures TextKey in Layout(ops) <==> HasText(ops)
    ensures forall i, j | 0 <= i < j < |Layout(ops)| :: Layout(ops)[i] != TextKey || Layout(ops)[j] != TextKey
    decreases |ops|
  {
    if ops != [] {
      hide Identified;
      var n := |ops| - 1;
      TextKeyOnce(ops[..n]);
      HasTextSnoc(ops[..n], ops[n]);
      assert ops == ops[..n] + [ops[n]];
    }
  }

  lemma OneTextKey(ops: seq<Op>, n: nat)
    requires n < |Layout(ops)| && Layout(ops)[n] == TextKey
    ensures TextKey !in Layout(ops)[..n]
  {
    TextKeyOnce(ops);
  }

  lemma NothingMeant(ops: seq<Op>)
    ensures MeantCalls(FoldedCalls(ops, ToolKeys([]))) == [] && Messages([]) == [] && Calls([]) == []
  {
  }

  lemma FinishedOutput(st: State, ops: seq<Op>)
    requires Inv(st) && Holds(st, ops)
    ensures TextFirst(FinishedItems(st)) == MeantMessages(ops) + MeantCalls(FoldedCalls(ops, StartOrder(ops)))
  {
    var items := FinishedItems(st);
    StateFinished(st, ops);
    hide Inv, Holds, FinishedItems, Calls, Messages, MeantCalls, Layout;
    FinishedCalls(items, ops, |items|);
    FinishedMessages(items, ops, |items|);
    TextKeyOnce(ops);
    assert items[..|items|] == items && Layout(ops)[..|items|] == Layout(ops);
  }

  lemma {:induction false} ProjectedCalls(ids: IDSource, from: nat, calls: seq<ToolCall>)
    requires CallItems(ids, from, calls).Some?
    ensures Messages(CallItems(ids, from, calls).value) == []
    ensures Calls(CallItems(ids, from, calls).value) == MeantCalls(calls)
    decreases |calls|
  {
    if calls != [] {
      var n := |calls| - 1;
      ProjectedCalls(ids, from, calls[..n]);
      FilterSnoc(CallItems(ids, from, calls[..n]).value,
        CallItem(ids(from + n, FcID).value, Completed, calls[n].id, calls[n].name, calls[n].arguments));
    }
  }

  lemma {:induction false} FilterConcat(a: seq<Item>, b: seq<Item>)
    ensures Messages(a + b) == Messages(a) + Messages(b) && Calls(a + b) == Calls(a) + Calls(b)
    decreases |b|
  {
    if b == [] {
      assert a + b == a;
    } else {
      assert a + b == a + b[..|b| - 1] + [b[|b| - 1]];
      FilterConcat(a, b[..|b| - 1]);
      FilterSnoc(a + b[..|b| - 1], b[|b| - 1]);
      FilterSnoc(b[..|b| - 1], b[|b| - 1]);
      assert b == b[..|b| - 1] + [b[|b| - 1]];
    }
  }

  lemma ProjectShape(completion: Completion, parallel: bool, ids: IDSource)
    requires Project(completion, parallel, ids).Ok?
    ensures ValidCompletion(completion)
    ensures var message := completion.choices[0];
            var text := ResponseText(message.content);
            var head := Head(ids, text);
            && (text.Some? ==> ids(1, MsgID).Some?)
            && CallItems(ids, 1 + |head|, message.toolCalls).Some?
            && Project(completion, parallel, ids).value ==
                 Response(ids(0, RespID).value, completion.created, Completed, None, completion.model,
                          head + CallItems(ids, 1 + |head|, message.toolCalls).value, parallel, completion.usage)
  {
  }

  lemma ErasedHead(ids: IDSource, text: Option<string>)
    requires text.Some? ==> ids(1, MsgID).Some?
    ensures Messages(Head(ids, text)) == (if text.Some? then [MessageItem("", Completed, [text.value])] else [])
    ensures Calls(Head(ids, text)) == []
  {
  }

  /** What the projection of a folded run looks like. */
  lemma ProjectedOutput(completion: Completion, text: Option<string>, parallel: bool, ids: IDSource)
    requires Project(completion, parallel, ids).Ok? && ResponseText(completion.choices[0].content) == text
    ensures TextFirst(Project(completion, parallel, ids).value.output) ==
            (if text.Some? then [MessageItem("", Completed, [text.value])] else []) +
            MeantCalls(completion.choices[0].toolCalls)
  {
    hide Project, MeantCalls, CallItems, Messages, Calls, ResponseText, Head;
    ProjectShape(completion, parallel, ids);
    var head := Head(ids, text);
    var tail := CallItems(ids, 1 + |head|, completion.choices[0].toolCalls).value;
    ProjectedCalls(ids, 1 + |head|, completion.choices[0].toolCalls);
    FilterConcat(head, tail);
    ErasedHead(ids, text);
  }

  lemma {:induction false} TextFirstLength(items: seq<Item>)
    ensures |TextFirst(items)| == |items|
    decreases |items|
  {
    if items != [] { TextFirstLength(items[..|items| - 1]); }
  }

  lemma ProjectNonEmpty(completion: Completion, parallel: bool, ids: IDSource)
    requires Project(completion, parallel, ids).Ok?
    ensures Project(completion, parallel, ids).value.output != []
  {
  }

  /** The state in which a run of accepted chunks leaves the stream. */
  function Accepted(env: Env, model: string, parallel: bool, chunks: seq<Chunk>): State {
    AcceptAll(env, NewStream(model, parallel), chunks).st
  }

  /** The response in the final event of a successful run. */
  function CompletedResponse(env: Env, model: string, parallel: bool, chunks: seq<Chunk>): Response {
    Snapshot(Complete(env, Accepted(env, model, parallel, chunks)).st, Completed)
  }

  ghost predicate Succeeds(env: Env, model: string, parallel: bool, chunks: seq<Chunk>) {
    AcceptAll(env, NewStream(model, parallel), chunks).ok && Complete(env, Accepted(env, model, parallel, chunks)).ok
  }

  lemma CompletedEnvelope(env: Env, st: State)
    ensures SameEnvelope(st, Complete(env, st).st.(terminal := st.terminal))
  {
    CompleteTextEnvelope(env, st);
    CompleteToolsEnvelope(env, CompleteText(env, st).st, ToolsBySlot(st, |st.output|));
    hide CompleteText, CompleteTools;
  }

  lemma CompleteTextEnvelope(env: Env, st: State)
    ensures SameEnvelope(st, CompleteText(env, st).st)
  {
  }

  lemma {:induction false} CompleteToolsEnvelope(env: Env, st: State, tools: seq<ToolState>)
    ensures SameEnvelope(st, CompleteTools(env, st, tools).st)
    decreases |tools|
  {
    if tools != [] { CompleteToolsEnvelope(env, st, tools[..|tools| - 1]); }
  }

  lemma SuccessNeedsChunks(env: Env, model: string, parallel: bool, chunks: seq<Chunk>)
    requires Succeeds(env, model, parallel, chunks)
    ensures chunks != [] && Accepted(env, model, parallel, chunks).started
    ensures InStep(Accepted(env, model, parallel, chunks))
  {
    hide AcceptAll, Complete, Awaiting, InStep;
    RunKnows(env, model, parallel, chunks);
    if !Accepted(env, model, parallel, chunks).started {
      CompleteUnstarted(env, Accepted(env, model, parallel, chunks));
    }
    AcceptedRunIsInStep(env, model, parallel, chunks);
  }

  /** The completed response of every successful run, read off the deltas. */
  lemma CompletedResponseMeaning(env: Env, model: string, parallel: bool, chunks: seq<Chunk>)
    requires Succeeds(env, model, parallel, chunks)
    ensures var r, ops := CompletedResponse(env, model, parallel, chunks), AllOps(chunks);
            && chunks != [] && chunks[0].model == model && chunks[0].created >= 0
            && r.createdAt == chunks[0].created && r.status == Completed && r.error.None? && r.model == model
            && r.parallel == parallel && r.usage == LastUsage(chunks)
            && |r.output| == |Layout(ops)|
            && TextFirst(r.output) == MeantMessages(ops) + MeantCalls(FoldedCalls(ops, StartOrder(ops)))
  {
    hide AcceptAll, Complete, InStep, Holds, TextFirst, LastUsage, AllOps, Layout, MeantMessages, MeantCalls,
         FoldedCalls, Inv;
    var st := Accepted(env, model, parallel, chunks);
    SuccessNeedsChunks(env, model, parallel, chunks);
    RunKnows(env, model, parallel, chunks);
    CompleteFollows(env, st);
    CompletedEnvelope(env, st);
    FinishedOutput(st, AllOps(chunks));
    HoldsLength(st, AllOps(chunks));
  }

  lemma HoldsLength(st: State, ops: seq<Op>)
    requires Holds(st, ops)
    ensures |st.output| == |Layout(ops)|
  {
  }

  /** Streaming refines the projection of the whole completion. A successful run
      with output means the same as ProjectResponse of the folded chunks; one
      without output is exactly what ProjectResponse refuses as empty. The only
      other ways for the projection to fail are an empty model name, which the
      stream does not look at, and an id source that leaves one of its draws
      unanswered. */
  lemma StreamRefinesProjection(env: Env, model: string, parallel: bool, chunks: seq<Chunk>, ids: IDSource)
    requires Succeeds(env, model, parallel, chunks)
    ensures chunks != []
    ensures var r := CompletedResponse(env, model, parallel, chunks);
            match Project(Folded(chunks), parallel, ids)
            case Ok(p) => r.output != [] && SameMeaning(p, r)
            case Err(InvalidCompletion) => model == ""
            case Err(EmptyCompletion) => r.output == []
            case Err(NoID) =>
              var message := Folded(chunks).choices[0];
              !AnswersAll(ids, ResponseText(message.content), |message.toolCalls|)
  {
    CompletedResponseMeaning(env, model, parallel, chunks);
    var r, folded := CompletedResponse(env, model, parallel, chunks), Folded(chunks);
    hide AcceptAll, Complete, MeantCalls, FoldedCalls, AllOps, Layout, StartOrder, HasText, TextOf, LastUsage,
         TextFirst, Project, CompletedResponse, AnswersAll, ResponseText;
    ProjectFailsIff(folded, parallel, ids);
    match Project(folded, parallel, ids)
    case Ok(_) => ProjectionMeans(folded, r, parallel, ids);
    case Err(EmptyCompletion) =>
      NothingMeant([]);
      TextFirstLength(r.output);
    case Err(_) =>
  }

  lemma ProjectionMeans(completion: Completion, r: Response, parallel: bool, ids: IDSource)
    requires Project(completion, parallel, ids).Ok?
    requires r == Response(r.id, completion.created, Completed, None, completion.model, r.output, parallel,
             completion.usage)
    requires var text := ResponseText(completion.choices[0].content);
             TextFirst(r.output) == (if text.Some? then [MessageItem("", Completed, [text.value])] else []) +
                                    MeantCalls(completion.choices[0].toolCalls)
    ensures SameMeaning(Project(completion, parallel, ids).value, r) && r.output != []
  {
    ProjectedOutput(completion, ResponseText(completion.choices[0].content), parallel, ids);
    ProjectShape(completion, parallel, ids);
    ProjectNonEmpty(completion, parallel, ids);
    hide Project, TextFirst, MeantCalls, CallItems;
    TextFirstLength(Project(completion, parallel, ids).value.output);
    TextFirstLength(r.output);
  }
}
