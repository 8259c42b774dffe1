/** The Responses streaming projector as a state machine over values: what each
    call of internal/openaicompat/responses_stream.go does to the stream's
    fields and which events it tries to emit. The class in StreamClass.dfy is
    proved to do exactly this; the theorems are about these functions. */
module StreamModel {
  import opened Prelude
  import opened Limits
  import Utf8

  datatype Usage = Usage(input: int, output: int, total: int)

  datatype Status = InProgress | Completed | Failed

  datatype Item =
    | MessageItem(id: string, status: Status, content: seq<string>)
    | CallItem(id: string, status: Status, callID: string, name: string, arguments: string)

  datatype Response = Response(
    id: string, createdAt: int, status: Status, error: Option<string>, model: string,
    output: seq<Item>, parallel: bool, usage: Option<Usage>)

  datatype EventBody =
    | CreatedEvent(response: Response)
    | InProgressEvent(response: Response)
    | ItemAdded(index: int, item: Item)
    | PartAdded(index: int, itemID: string)
    | TextDelta(index: int, itemID: string, delta: string)
    | TextDone(index: int, itemID: string, text: string)
    | PartDone(index: int, itemID: string, text: string)
    | ArgumentsDelta(index: int, itemID: string, delta: string)
    | ArgumentsDone(index: int, itemID: string, arguments: string)
    | ItemDone(index: int, item: Item)
    | CompletedEvent(response: Response)
    | FailedEvent(response: Response)

  datatype Event = Event(sequence: int, body: EventBody)

  datatype FunctionDelta = FunctionDelta(name: Option<string>, arguments: Option<string>)

  datatype ToolDelta = ToolDelta(index: int, id: Option<string>, typ: Option<string>, fn: Option<FunctionDelta>)

  datatype Choice = Choice(index: int, content: Option<string>, toolCalls: seq<ToolDelta>)

  datatype Chunk = Chunk(created: int, model: string, choices: seq<Choice>, usage: Option<Usage>)

  datatype TextState = TextState(itemID: string, outputIndex: int, text: string)

  datatype ToolState = ToolState(
    itemID: string, outputIndex: int, callID: string, name: string, arguments: string, started: bool)

  datatype IDPrefix = RespID | MsgID | FcID

  /** What the stream is given from outside: the id source, asked for its n-th
      id, and the emit callback, which delivers the event with a given sequence
      number or fails. */
  datatype Env = Env(ids: (nat, IDPrefix) -> Option<string>, delivers: int -> bool)

  /** The fields of ResponsesStream, the number of ids drawn, and the log of all
      events handed to the emit callback, whether or not it failed. */
  datatype State = State(
    model: string, parallel: bool, responseID: string, createdAt: int, sequence: int,
    started: bool, terminal: bool, output: seq<Item>, text: Option<TextState>,
    tools: map<int, ToolState>, callIDs: map<string, int>, usage: Option<Usage>,
    drawn: nat, events: seq<Event>)

  datatype Step = Step(st: State, ok: bool)

  function NewStream(model: string, parallel: bool): State {
    State(model, parallel, "", 0, 0, false, false, [], None, map[], map[], None, 0, [])
  }

  // ----- validation -----

  predicate ValidToolDelta(call: ToolDelta) {
    && 0 <= call.index < MAX_PARALLEL_CALLS
    && (call.typ.Some? ==> call.typ.value == "function")
    && (call.id.Some? ==> ValidCallID(call.id.value))
    && (call.fn.Some? && call.fn.value.name.Some? ==> ValidFunctionName(call.fn.value.name.value))
    && (call.fn.Some? && call.fn.value.arguments.Some? ==>
          Utf8.Valid(call.fn.value.arguments.value) &&
          |call.fn.value.arguments.value| <= MAX_ARGUMENTS_BYTES)
  }

  predicate ValidChunk(chunk: Chunk, model: string) {
    && chunk.model == model && chunk.created >= 0 && |chunk.choices| <= 1
    && (|chunk.choices| == 1 ==>
          chunk.choices[0].index == 0 &&
          forall call | call in chunk.choices[0].toolCalls :: ValidToolDelta(call))
  }

  // ----- emitting -----

  function Snapshot(st: State, status: Status): Response {
    Response(st.responseID, st.createdAt, status, None, st.model, st.output, st.parallel, st.usage)
  }

  function Emit(env: Env, st: State, body: EventBody): Step {
    var n := st.sequence + 1;
    Step(st.(sequence := n, events := st.events + [Event(n, body)]), env.delivers(n))
  }

  // ----- Accept -----

  function Start(env: Env, st: State, created: int): Step {
    var id := env.ids(st.drawn, RespID);
    var st1 := st.(drawn := st.drawn + 1);
    if id.None? then Step(st1, false) else
    Announce(env, st1.(responseID := id.value, createdAt := created, started := true))
  }

  function Announce(env: Env, st: State): Step {
    var first := Emit(env, st, CreatedEvent(Snapshot(st, InProgress)));
    if !first.ok then first else
    Emit(env, first.st, InProgressEvent(Snapshot(first.st, InProgress)))
  }

  function OpenText(env: Env, st: State): Step {
    var id := env.ids(st.drawn, MsgID);
    var st1 := st.(drawn := st.drawn + 1);
    if id.None? then Step(st1, false) else
    var index := |st.output|;
    var item := MessageItem(id.value, InProgress, []);
    var st2 := st1.(text := Some(TextState(id.value, index, "")), output := st.output + [item]);
    var added := Emit(env, st2, ItemAdded(index, item));
    if !added.ok then added else
    Emit(env, added.st, PartAdded(index, id.value))
  }

  function AcceptText(env: Env, st: State, delta: string): Step {
    var buffered := if st.text.Some? then |st.text.value.text| else 0;
    if |delta| > MAX_TEXT_CONTENT_BYTES - buffered then Step(st, false) else
    var ready := if st.text.Some? then Step(st, true) else OpenText(env, st);
    if !ready.ok || ready.st.text.None? then Step(ready.st, false) else
    var text := ready.st.text.value;
    Emit(env, ready.st.(text := Some(text.(text := text.text + delta))),
         TextDelta(text.outputIndex, text.itemID, delta))
  }

  function DeltaName(call: ToolDelta): Option<string> {
    if call.fn.Some? then call.fn.value.name else None
  }

  function DeltaArguments(call: ToolDelta): string {
    if call.fn.Some? && call.fn.value.arguments.Some? then call.fn.value.arguments.value else ""
  }

  const BLANK_TOOL := ToolState("", -1, "", "", "", false)

  function WithTool(st: State, k: int): State {
    if k in st.tools then st else st.(tools := st.tools[k := BLANK_TOOL])
  }

  /** The first half of acceptTool: find or create the tool's state and record
      its call id, name and argument bytes. Nothing is emitted. */
  function Record(st: State, call: ToolDelta): Step {
    if call.index !in st.tools && |st.tools| >= MAX_PARALLEL_CALLS then Step(st, false) else
    var found := WithTool(st, call.index);
    if call.id.None? then RecordFunction(found, call) else
    var known := RecordID(found, call);
    if !known.ok || call.index !in known.st.tools then Step(known.st, false) else
    RecordFunction(known.st, call)
  }

  function RecordID(st: State, call: ToolDelta): Step
    requires call.index in st.tools && call.id.Some?
  {
    var k, id := call.index, call.id.value;
    var tool := st.tools[k];
    if (tool.callID != "" && tool.callID != id) || (id in st.callIDs && st.callIDs[id] != k) then Step(st, false)
    else Step(st.(tools := st.tools[k := tool.(callID := id)], callIDs := st.callIDs[id := k]), true)
  }

  function RecordFunction(st: State, call: ToolDelta): Step
    requires call.index in st.tools
  {
    var tool := st.tools[call.index];
    var name := DeltaName(call);
    if call.typ.Some? && call.typ.value != "function" then Step(st, false)
    else if name.Some? && tool.name != "" && tool.name != name.value then Step(st, false) else
    var named := if name.Some? then tool.(name := name.value) else tool;
    if |DeltaArguments(call)| > MAX_ARGUMENTS_BYTES - |tool.arguments| then
      Step(st.(tools := st.tools[call.index := named]), false)
    else
      Step(st.(tools := st.tools[call.index := named.(arguments := tool.arguments + DeltaArguments(call))]), true)
  }

  function PlaceTool(st: State, k: int, id: string): State
    requires k in st.tools
  {
    var tool := st.tools[k];
    st.(drawn := st.drawn + 1,
        tools := st.tools[k := tool.(itemID := id, outputIndex := |st.output|, started := true)],
        output := st.output + [CallItem(id, InProgress, tool.callID, tool.name, "")])
  }

  function OpenTool(env: Env, st: State, k: int): Step
    requires k in st.tools
  {
    var id := env.ids(st.drawn, FcID);
    if id.None? then Step(st.(drawn := st.drawn + 1), false) else
    Emit(env, PlaceTool(st, k, id.value),
         ItemAdded(|st.output|, CallItem(id.value, InProgress, st.tools[k].callID, st.tools[k].name, "")))
  }

  /** acceptTool. */
  function AcceptTool(env: Env, st: State, call: ToolDelta): Step {
    var recorded := Record(st, call);
    if !recorded.ok || call.index !in recorded.st.tools then Step(recorded.st, false) else
    var tool := recorded.st.tools[call.index];
    if !tool.started && tool.callID != "" && tool.name != "" then
      var ready := OpenTool(env, recorded.st, call.index);
      if !ready.ok then ready else EmitArguments(env, ready.st, call.index, tool.arguments)
    else EmitArguments(env, recorded.st, call.index, DeltaArguments(call))
  }

  function EmitArguments(env: Env, st: State, k: int, delta: string): Step {
    if k in st.tools && st.tools[k].started && delta != "" then
      Emit(env, st, ArgumentsDelta(st.tools[k].outputIndex, st.tools[k].itemID, delta))
    else Step(st, true)
  }

  datatype Op = TextOp(delta: string) | ToolOp(call: ToolDelta)

  function ToolOps(calls: seq<ToolDelta>): (ops: seq<Op>)
    ensures |ops| == |calls| && forall i | 0 <= i < |calls| :: ops[i] == ToolOp(calls[i])
  {
    seq(|calls|, i requires 0 <= i < |calls| => ToolOp(calls[i]))
  }

  /** The deltas a chunk carries, in the order Accept handles them. */
  function ChunkOps(chunk: Chunk): seq<Op> {
    if chunk.choices == [] then [] else
    (if chunk.choices[0].content.Some? then [TextOp(chunk.choices[0].content.value)] else []) +
    ToolOps(chunk.choices[0].toolCalls)
  }

  function AcceptOp(env: Env, st: State, op: Op): Step {
    match op
    case TextOp(delta) => AcceptText(env, st, delta)
    case ToolOp(call) => AcceptTool(env, st, call)
  }

  /** Apply deltas in order and stop at the first that fails. */
  function AcceptOps(env: Env, st: State, ops: seq<Op>): Step
    decreases |ops|
  {
    if ops == [] then Step(st, true) else
    var before := AcceptOps(env, st, ops[..|ops| - 1]);
    if !before.ok then before else AcceptOp(env, before.st, ops[|ops| - 1])
  }

  function WithUsage(st: State, usage: Option<Usage>): State {
    if usage.Some? then st.(usage := usage) else st
  }

  function Accept(env: Env, st: State, chunk: Chunk): Step {
    if st.terminal || !ValidChunk(chunk, st.model) then Step(st, false) else
    var begun := if st.started then Step(st, true) else Start(env, st, chunk.created);
    if !begun.ok then begun else
    AcceptOps(env, WithUsage(begun.st, chunk.usage), ChunkOps(chunk))
  }

  // ----- Complete and Failed -----

  function CompleteText(env: Env, st: State): Step {
    if st.text.None? then Step(st, true) else
    var text := st.text.value;
    var index := text.outputIndex;
    var first := Emit(env, st, TextDone(index, text.itemID, text.text));
    if !first.ok then first else
    var second := Emit(env, first.st, PartDone(index, text.itemID, text.text));
    if !second.ok then second else
    var item := MessageItem(text.itemID, Completed, [text.text]);
    CompleteSlot(env, second.st, index, item)
  }

  function CompleteSlot(env: Env, st: State, index: int, item: Item): Step {
    Emit(env, st.(output := Replace(st.output, index, item)), ItemDone(index, item))
  }

  function Replace<T>(s: seq<T>, i: int, x: T): (r: seq<T>)
    ensures |r| == |s|
  {
    if 0 <= i < |s| then s[i := x] else s
  }

  function CompleteTool(env: Env, st: State, tool: ToolState): Step {
    var index := tool.outputIndex;
    var first := Emit(env, st, ArgumentsDone(index, tool.itemID, tool.arguments));
    if !first.ok then first else
    var item := CallItem(tool.itemID, Completed, tool.callID, tool.name, tool.arguments);
    CompleteSlot(env, first.st, index, item)
  }

  function CompleteTools(env: Env, st: State, tools: seq<ToolState>): Step
    decreases |tools|
  {
    if tools == [] then Step(st, true) else
    var before := CompleteTools(env, st, tools[..|tools| - 1]);
    if !before.ok then before else CompleteTool(env, before.st, tools[|tools| - 1])
  }

  /** The started tool that owns output slot i, if a tool does. */
  predicate IsToolSlot(st: State, i: int) {
    && 0 <= i < |st.output| && st.output[i].CallItem?
    && st.output[i].callID in st.callIDs && st.callIDs[st.output[i].callID] in st.tools
  }

  function ToolAt(st: State, i: int): ToolState
    requires IsToolSlot(st, i)
  {
    st.tools[st.callIDs[st.output[i].callID]]
  }

  /** The started tools of the first n output slots, by output index. */
  function ToolsBySlot(st: State, n: nat): seq<ToolState> {
    if n == 0 then [] else
    ToolsBySlot(st, n - 1) + (if IsToolSlot(st, n - 1) then [ToolAt(st, n - 1)] else [])
  }

  predicate AllToolsStarted(st: State) {
    forall k | k in st.tools :: st.tools[k].started
  }

  function Complete(env: Env, st: State): Step {
    if !st.started || st.terminal then Step(st, false) else
    var texted := CompleteText(env, st);
    if !texted.ok || !AllToolsStarted(st) then Step(texted.st, false) else
    var tooled := CompleteTools(env, texted.st, ToolsBySlot(st, |st.output|));
    if !tooled.ok then tooled else
    Emit(env, tooled.st.(terminal := true), CompletedEvent(Snapshot(tooled.st, Completed)))
  }

  function Fail(env: Env, st: State, code: string): Step {
    if !st.started || st.terminal then Step(st, false) else
    Emit(env, st.(terminal := true), FailedEvent(Snapshot(st, Failed).(error := Some(code))))
  }

  // ----- the handler's run -----

  const UPSTREAM_UNAVAILABLE := "gateway_upstream_unavailable"

  function AcceptAll(env: Env, st: State, chunks: seq<Chunk>): Step
    decreases |chunks|
  {
    if chunks == [] then Step(st, true) else
    var before := AcceptAll(env, st, chunks[..|chunks| - 1]);
    if !before.ok then before else Accept(env, before.st, chunks[|chunks| - 1])
  }

  function Abort(env: Env, st: State): State {
    if st.started then Fail(env, st, UPSTREAM_UNAVAILABLE).st else st
  }

  /** gatewayResponsesStream: accept chunks until one fails or the upstream ends
      (`broken` when it ends with an error), then complete, and report a failure
      when anything went wrong after the stream had started. */
  function Drive(env: Env, st: State, chunks: seq<Chunk>, broken: bool): State {
    var accepted := AcceptAll(env, st, chunks);
    if !accepted.ok || broken then Abort(env, accepted.st) else
    var completed := Complete(env, accepted.st);
    if completed.ok then completed.st else Abort(env, completed.st)
  }
}
