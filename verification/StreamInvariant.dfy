/** What every call keeps, whether it succeeds or fails: output slots are owned
    one-to-one by the text item and the started tools, tool indexes never share
    a call id, buffers stay within their limits, and identities never change. */
module StreamInvariant {
  import opened Prelude
  import opened Limits
  import opened StreamModel

  ghost predicate ToolsInv(st: State) {
    && (forall k | k in st.tools ::
          && 0 <= k < MAX_PARALLEL_CALLS
          && |st.tools[k].arguments| <= MAX_ARGUMENTS_BYTES
          && (st.tools[k].started ==> st.tools[k].callID != "" && st.tools[k].name != "")
          && (!st.tools[k].started ==> st.tools[k].outputIndex == -1)
          && (st.tools[k].callID != "" ==> st.tools[k].callID in st.callIDs && st.callIDs[st.tools[k].callID] == k))
    && (forall id | id in st.callIDs :: id != "" && st.callIDs[id] in st.tools && st.tools[st.callIDs[id]].callID == id)
  }

  /** Every owner has its slot, and every slot has its owner. */
  ghost predicate SlotsInv(st: State) {
    && (st.text.Some? ==>
          && 0 <= st.text.value.outputIndex < |st.output|
          && st.output[st.text.value.outputIndex].MessageItem?
          && st.output[st.text.value.outputIndex].id == st.text.value.itemID
          && |st.text.value.text| <= MAX_TEXT_CONTENT_BYTES)
    && (forall k | k in st.tools && st.tools[k].started :: OwnsSlot(st, k))
    && (forall i | 0 <= i < |st.output| ::
          if st.output[i].MessageItem? then st.text.Some? && st.text.value.outputIndex == i
          else IsToolSlot(st, i) && ToolAt(st, i).started && ToolAt(st, i).outputIndex == i)
  }

  ghost predicate OwnsSlot(st: State, k: int)
    requires k in st.tools
  {
    var tool := st.tools[k];
    && 0 <= tool.outputIndex < |st.output|
    && st.output[tool.outputIndex].CallItem?
    && st.output[tool.outputIndex].id == tool.itemID
    && st.output[tool.outputIndex].callID == tool.callID
    && st.output[tool.outputIndex].name == tool.name
  }

  ghost predicate LogInv(st: State) {
    && st.sequence == |st.events|
    && (forall i | 0 <= i < |st.events| :: st.events[i].sequence == i + 1)
    && (!st.started ==> !st.terminal && st.text.None? && st.tools == map[] && st.callIDs == map[]
                        && st.output == [] && st.events == [])
  }

  ghost predicate Inv(st: State) {
    ToolsInv(st) && SlotsInv(st) && LogInv(st)
  }

  /** Ids, names and slots once set are never changed, and buffers and the event
      log only grow. */
  ghost predicate Extends(a: State, b: State) {
    && a.model == b.model && a.parallel == b.parallel && a.events <= b.events && |a.output| <= |b.output|
    && (a.started ==> b.started && a.responseID == b.responseID && a.createdAt == b.createdAt)
    && (a.terminal ==> b.terminal)
    && (forall i | 0 <= i < |a.output| :: SameIdentity(a.output[i], b.output[i]))
    && (a.text.Some? ==> b.text.Some? && a.text.value.itemID == b.text.value.itemID
                         && a.text.value.outputIndex == b.text.value.outputIndex
                         && a.text.value.text <= b.text.value.text)
    && (forall k | k in a.tools :: k in b.tools && ToolExtends(a.tools[k], b.tools[k]))
  }

  ghost predicate SameIdentity(x: Item, y: Item) {
    && x.id == y.id && x.MessageItem? == y.MessageItem?
    && (x.CallItem? && y.CallItem? ==> x.callID == y.callID && x.name == y.name)
  }

  ghost predicate ToolExtends(a: ToolState, b: ToolState) {
    && (a.callID != "" ==> b.callID == a.callID)
    && (a.name != "" ==> b.name == a.name)
    && (a.started ==> b.started && b.itemID == a.itemID && b.outputIndex == a.outputIndex)
    && a.arguments <= b.arguments
  }

  lemma ExtendsTransitive(a: State, b: State, c: State)
    requires Extends(a, b) && Extends(b, c)
    ensures Extends(a, c)
  {
    forall k | k in a.tools
      ensures k in c.tools && ToolExtends(a.tools[k], c.tools[k])
    {
      assert k in b.tools && ToolExtends(a.tools[k], b.tools[k]);
    }
  }

  /** A state that differs only in what the slots and tools do not depend on. */
  lemma SameSlotsKeep(st: State, st': State)
    requires Inv(st) && st.started && LogInv(st') && st'.started
    requires st'.tools == st.tools && st'.callIDs == st.callIDs && st'.text == st.text && st'.output == st.output
    requires st'.model == st.model && st'.parallel == st.parallel && st.events <= st'.events
    requires st'.responseID == st.responseID && st'.createdAt == st.createdAt && (st.terminal ==> st'.terminal)
    ensures Inv(st') && Extends(st, st')
  {
    assert forall i | 0 <= i < |st.output| :: IsToolSlot(st', i) == IsToolSlot(st, i);
    assert forall k | k in st.tools :: OwnsSlot(st', k) == OwnsSlot(st, k);
  }

  lemma ExtendsSelf(st: State)
    ensures Extends(st, st)
  {
  }

  lemma EmitKeeps(env: Env, st: State, body: EventBody)
    requires Inv(st) && st.started
    ensures Inv(Emit(env, st, body).st) && Extends(st, Emit(env, st, body).st)
  {
    hide ToolsInv, SlotsInv, Extends;
    SameSlotsKeep(st, Emit(env, st, body).st);
  }

  lemma UnstartedDrawKeeps(st: State)
    requires Inv(st) && !st.started
    ensures Inv(st.(drawn := st.drawn + 1)) && Extends(st, st.(drawn := st.drawn + 1))
    ensures Extends(st, st)
  {
  }

  lemma BeginKeeps(st: State, id: string, created: int)
    requires Inv(st) && !st.started
    ensures var st' := st.(drawn := st.drawn + 1, responseID := id, createdAt := created, started := true);
            Inv(st') && Extends(st, st')
  {
  }

  lemma StartKeeps(env: Env, st: State, created: int)
    requires Inv(st) && !st.started
    ensures Inv(Start(env, st, created).st) && Extends(st, Start(env, st, created).st)
    ensures Start(env, st, created).ok ==> Start(env, st, created).st.started
  {
    hide ToolsInv, SlotsInv, LogInv, Extends;
    var id := env.ids(st.drawn, RespID);
    if id.Some? {
      var st2 := st.(drawn := st.drawn + 1, responseID := id.value, createdAt := created, started := true);
      BeginKeeps(st, id.value, created);
      EmitKeeps(env, st2, CreatedEvent(Snapshot(st2, InProgress)));
      var first := Emit(env, st2, CreatedEvent(Snapshot(st2, InProgress)));
      ExtendsTransitive(st, st2, first.st);
      EmitKeeps(env, first.st, InProgressEvent(Snapshot(first.st, InProgress)));
      ExtendsTransitive(st, first.st, Emit(env, first.st, InProgressEvent(Snapshot(first.st, InProgress))).st);
    } else {
      UnstartedDrawKeeps(st);
    }
  }

  /** A state that differs only in bookkeeping the invariant does not read. */
  lemma DrawKeeps(st: State)
    requires Inv(st) && st.started
    ensures Inv(st.(drawn := st.drawn + 1)) && Extends(st, st.(drawn := st.drawn + 1))
  {
    hide ToolsInv, SlotsInv, Extends;
    SameSlotsKeep(st, st.(drawn := st.drawn + 1));
  }

  lemma UsageKeeps(st: State, usage: Option<Usage>)
    requires Inv(st) && st.started
    ensures Inv(WithUsage(st, usage)) && Extends(st, WithUsage(st, usage)) && WithUsage(st, usage).started
  {
    hide ToolsInv, SlotsInv, Extends;
    SameSlotsKeep(st, WithUsage(st, usage));
  }

  lemma PlaceTextKeeps(st: State, id: string)
    requires Inv(st) && st.started && st.text.None?
    ensures var st' := st.(text := Some(TextState(id, |st.output|, "")),
                           output := st.output + [MessageItem(id, InProgress, [])], drawn := st.drawn + 1);
            Inv(st') && Extends(st, st')
  {
    var st' := st.(text := Some(TextState(id, |st.output|, "")),
                   output := st.output + [MessageItem(id, InProgress, [])], drawn := st.drawn + 1);
    assert forall i | 0 <= i < |st.output| :: IsToolSlot(st', i) == IsToolSlot(st, i);
    assert forall k | k in st.tools :: OwnsSlot(st', k) == OwnsSlot(st, k);
  }

  lemma OpenTextKeeps(env: Env, st: State)
    requires Inv(st) && st.started && st.text.None?
    ensures Inv(OpenText(env, st).st) && Extends(st, OpenText(env, st).st)
    ensures OpenText(env, st).ok ==> OpenText(env, st).st.text.Some? && OpenText(env, st).st.text.value.text == ""
    ensures OpenText(env, st).st.started
  {
    hide ToolsInv, SlotsInv, LogInv, Extends;
    var id := env.ids(st.drawn, MsgID);
    if id.None? {
      DrawKeeps(st);
    } else {
      var index := |st.output|;
      var item := MessageItem(id.value, InProgress, []);
      var st2 := st.(drawn := st.drawn + 1, text := Some(TextState(id.value, index, "")), output := st.output + [item]);
      PlaceTextKeeps(st, id.value);
      EmitKeeps(env, st2, ItemAdded(index, item));
      var added := Emit(env, st2, ItemAdded(index, item));
      EmitKeeps(env, added.st, PartAdded(index, id.value));
      ExtendsTransitive(st, st2, added.st);
      ExtendsTransitive(st, added.st, Emit(env, added.st, PartAdded(index, id.value)).st);
    }
  }

  lemma WriteTextKeeps(st: State, delta: string)
    requires Inv(st) && st.started && st.text.Some?
    requires |st.text.value.text| + |delta| <= MAX_TEXT_CONTENT_BYTES
    ensures var st' := st.(text := Some(st.text.value.(text := st.text.value.text + delta)));
            Inv(st') && Extends(st, st')
  {
    var st' := st.(text := Some(st.text.value.(text := st.text.value.text + delta)));
    assert forall i | 0 <= i < |st.output| :: IsToolSlot(st', i) == IsToolSlot(st, i);
    assert forall k | k in st.tools :: OwnsSlot(st', k) == OwnsSlot(st, k);
  }

  lemma AcceptTextKeeps(env: Env, st: State, delta: string)
    requires Inv(st) && st.started
    ensures Inv(AcceptText(env, st, delta).st) && Extends(st, AcceptText(env, st, delta).st)
  {
    hide ToolsInv, SlotsInv, LogInv, Extends, OpenText;
    ExtendsSelf(st);
    var buffered := if st.text.Some? then |st.text.value.text| else 0;
    if |delta| <= MAX_TEXT_CONTENT_BYTES - buffered {
      var ready := if st.text.Some? then Step(st, true) else OpenText(env, st);
      if st.text.None? { OpenTextKeeps(env, st); }
      if ready.ok {
        var text := ready.st.text.value;
        var written := ready.st.(text := Some(text.(text := text.text + delta)));
        WriteTextKeeps(ready.st, delta);
        var body := TextDelta(text.outputIndex, text.itemID, delta);
        EmitKeeps(env, written, body);
        ExtendsTransitive(st, ready.st, written);
        ExtendsTransitive(st, written, Emit(env, written, body).st);
      }
    }
  }

  // ----- tools -----

  /** Sixty-four indexes cannot hold a sixty-fifth tool. */
  lemma ToolsFit(st: State, k: int)
    requires ToolsInv(st) && 0 <= k < MAX_PARALLEL_CALLS && k !in st.tools
    ensures |st.tools| < MAX_PARALLEL_CALLS
  {
    IndexesFit(st.tools.Keys + {k}, MAX_PARALLEL_CALLS);
  }

  lemma IndexesFit(keys: set<int>, n: nat)
    requires forall k | k in keys :: 0 <= k < n
    ensures |keys| <= n
  {
    SubsetSize(keys, Indexes(n));
  }

  /** The tool indexes below n. */
  function Indexes(n: nat): (s: set<int>)
    ensures |s| == n && forall i :: i in s <==> 0 <= i < n
  {
    if n == 0 then {} else Indexes(n - 1) + {n - 1}
  }

  lemma {:induction false} SubsetSize<T>(a: set<T>, b: set<T>)
    requires a <= b
    ensures |a| <= |b|
  {
    if a != {} {
      var x :| x in a;
      SubsetSize(a - {x}, b - {x});
    }
  }

  /** The guard on the number of tool states never fires on a validated index. */
  lemma ToolLimitUnreachable(st: State, call: ToolDelta)
    requires Inv(st) && ValidToolDelta(call)
    ensures call.index in st.tools || |st.tools| < MAX_PARALLEL_CALLS
  {
    if call.index !in st.tools { ToolsFit(st, call.index); }
  }

  /** Writing back a tool that keeps its slot and whatever it already knew. */
  ghost predicate Rewrites(st: State, k: int, tool: ToolState, callIDs: map<string, int>) {
    && 0 <= k < MAX_PARALLEL_CALLS
    && (k in st.tools ==> ToolExtends(st.tools[k], tool) && tool.started == st.tools[k].started
                          && (tool.started ==> tool.callID == st.tools[k].callID && tool.name == st.tools[k].name))
    && (k !in st.tools ==> !tool.started)
    && (!tool.started ==> tool.outputIndex == -1)
    && |tool.arguments| <= MAX_ARGUMENTS_BYTES
    && (if tool.callID == "" then callIDs == st.callIDs
        else callIDs == st.callIDs[tool.callID := k] && (tool.callID in st.callIDs ==> st.callIDs[tool.callID] == k))
  }

  function SetTool(st: State, k: int, tool: ToolState, callIDs: map<string, int>): State {
    st.(tools := st.tools[k := tool], callIDs := callIDs)
  }

  lemma SetToolKeepsTools(st: State, k: int, tool: ToolState, callIDs: map<string, int>)
    requires ToolsInv(st) && Rewrites(st, k, tool, callIDs)
    ensures ToolsInv(SetTool(st, k, tool, callIDs))
  {
  }

  lemma SetToolKeepsSlots(st: State, k: int, tool: ToolState, callIDs: map<string, int>)
    requires ToolsInv(st) && SlotsInv(st) && Rewrites(st, k, tool, callIDs)
    ensures SlotsInv(SetTool(st, k, tool, callIDs))
  {
    var st' := SetTool(st, k, tool, callIDs);
    forall i | 0 <= i < |st.output| && st.output[i].CallItem?
      ensures IsToolSlot(st', i) && ToolAt(st', i).started && ToolAt(st', i).outputIndex == i
    {
      assert IsToolSlot(st, i) && ToolAt(st, i).started && ToolAt(st, i).outputIndex == i;
      assert OwnsSlot(st, st.callIDs[st.output[i].callID]);
    }
    forall j | j in st'.tools && st'.tools[j].started
      ensures OwnsSlot(st', j)
    {
      assert j in st.tools && st.tools[j].started && OwnsSlot(st, j);
    }
  }

  lemma SetToolKeeps(st: State, k: int, tool: ToolState, callIDs: map<string, int>)
    requires Inv(st) && st.started && Rewrites(st, k, tool, callIDs)
    ensures Inv(SetTool(st, k, tool, callIDs)) && Extends(st, SetTool(st, k, tool, callIDs))
  {
    SetToolKeepsTools(st, k, tool, callIDs);
    SetToolKeepsSlots(st, k, tool, callIDs);
    hide ToolsInv, SlotsInv;
  }

  lemma IndexFits(call: ToolDelta)
    requires ValidToolDelta(call)
    ensures 0 <= call.index < MAX_PARALLEL_CALLS
  {
  }

  lemma RecordKeeps(st: State, call: ToolDelta)
    requires Inv(st) && st.started && ValidToolDelta(call)
    ensures Recorded(st, call, Record(st, call))
  {
    hide ToolsInv, SlotsInv, LogInv, Extends, ValidToolDelta;
    ToolLimitUnreachable(st, call);
    IndexFits(call);
    var st1 := WithTool(st, call.index);
    WithToolKeeps(st, call.index);
    if call.id.None? {
      RecordFunctionKeeps(st1, call);
      RecordedTransitive(st, st1, call, RecordFunction(st1, call));
    } else {
      RecordIDKeeps(st1, call);
      if RecordID(st1, call).ok {
        var st2 := RecordID(st1, call).st;
        RecordFunctionKeeps(st2, call);
        RecordedTransitive(st1, st2, call, RecordFunction(st2, call));
        RecordedTransitive(st, st1, call, RecordFunction(st2, call));
      }
    }
  }

  lemma KnownAfterRecord(st: State, call: ToolDelta)
    requires Record(st, call).ok
    ensures call.index in Record(st, call).st.tools
  {
  }

  ghost predicate Recorded(st: State, call: ToolDelta, r: Step) {
    Inv(r.st) && Extends(st, r.st) && call.index in r.st.tools && r.st.started && r.st.output == st.output
  }

  lemma RecordedTransitive(a: State, b: State, call: ToolDelta, r: Step)
    requires Extends(a, b) && b.output == a.output && Recorded(b, call, r)
    ensures Recorded(a, call, r)
  {
    ExtendsTransitive(a, b, r.st);
  }

  lemma WithToolKeeps(st: State, k: int)
    requires Inv(st) && st.started && 0 <= k < MAX_PARALLEL_CALLS
    ensures Inv(WithTool(st, k)) && Extends(st, WithTool(st, k)) && WithTool(st, k).started
  {
    if k !in st.tools {
      SetToolKeeps(st, k, BLANK_TOOL, st.callIDs);
      assert WithTool(st, k) == SetTool(st, k, BLANK_TOOL, st.callIDs);
    } else {
      assert Extends(st, st);
    }
  }

  lemma RecordIDKeeps(st: State, call: ToolDelta)
    requires Inv(st) && st.started && ValidToolDelta(call) && call.index in st.tools && call.id.Some?
    ensures Recorded(st, call, RecordID(st, call))
  {
    if RecordID(st, call).ok {
      SetToolKeeps(st, call.index, st.tools[call.index].(callID := call.id.value),
        st.callIDs[call.id.value := call.index]);
    }
  }

  /** Naming a tool and adding to its arguments keeps what is known of it. */
  lemma NamedRewrites(st: State, k: int, name: string, arguments: string)
    requires ToolsInv(st) && k in st.tools && (st.tools[k].name == "" || st.tools[k].name == name)
    requires st.tools[k].arguments <= arguments && |arguments| <= MAX_ARGUMENTS_BYTES
    ensures Rewrites(st, k, st.tools[k].(name := name, arguments := arguments), st.callIDs)
  {
    if st.tools[k].callID != "" { SameToolIDs(st, k); }
  }

  lemma ArgumentsFit(st: State, k: int)
    requires ToolsInv(st) && k in st.tools
    ensures |st.tools[k].arguments| <= MAX_ARGUMENTS_BYTES
  {
  }

  lemma RecordFunctionKeeps(st: State, call: ToolDelta)
    requires Inv(st) && st.started && ValidToolDelta(call) && call.index in st.tools
    ensures Recorded(st, call, RecordFunction(st, call))
  {
    hide ToolsInv, SlotsInv, LogInv, Extends, Rewrites, ValidToolDelta;
    ExtendsSelf(st);
    var k := call.index;
    var tool := st.tools[k];
    var name := DeltaName(call);
    if !(name.Some? && tool.name != "" && tool.name != name.value) {
      var named := if name.Some? then name.value else tool.name;
      ArgumentsFit(st, k);
      NamedRewrites(st, k, named, tool.arguments);
      SetToolKeeps(st, k, tool.(name := named), st.callIDs);
      if |DeltaArguments(call)| <= MAX_ARGUMENTS_BYTES - |tool.arguments| {
        var arguments := tool.arguments + DeltaArguments(call);
        NamedRewrites(st, k, named, arguments);
        SetToolKeeps(st, k, tool.(name := named, arguments := arguments), st.callIDs);
      }
    }
  }

  lemma SameToolIDs(st: State, k: int)
    requires ToolsInv(st) && k in st.tools && st.tools[k].callID != ""
    ensures st.callIDs == st.callIDs[st.tools[k].callID := k]
  {
  }

  lemma PlaceToolKeeps(st: State, k: int, id: string)
    requires Inv(st) && st.started && k in st.tools && !st.tools[k].started
    requires st.tools[k].callID != "" && st.tools[k].name != ""
    ensures Inv(PlaceTool(st, k, id)) && Extends(st, PlaceTool(st, k, id))
  {
    var st' := PlaceTool(st, k, id);
    var tool := st.tools[k];
    assert st.callIDs[tool.callID] == k;
    forall i | 0 <= i < |st'.output| && st'.output[i].CallItem?
      ensures IsToolSlot(st', i) && ToolAt(st', i).started && ToolAt(st', i).outputIndex == i
    {
      if i < |st.output| {
        assert IsToolSlot(st, i) && ToolAt(st, i).started && ToolAt(st, i).outputIndex == i;
      }
    }
    forall j | j in st'.tools && st'.tools[j].started
      ensures OwnsSlot(st', j)
    {
      if j != k { assert OwnsSlot(st, j); }
    }
  }

  lemma OpenToolKeeps(env: Env, st: State, k: int)
    requires Inv(st) && st.started && k in st.tools && !st.tools[k].started
    requires st.tools[k].callID != "" && st.tools[k].name != ""
    ensures Inv(OpenTool(env, st, k).st) && Extends(st, OpenTool(env, st, k).st) && OpenTool(env, st, k).st.started
  {
    hide ToolsInv, SlotsInv, LogInv, Extends;
    var id := env.ids(st.drawn, FcID);
    if id.None? {
      DrawKeeps(st);
    } else {
      var placed := PlaceTool(st, k, id.value);
      PlaceToolKeeps(st, k, id.value);
      var body := ItemAdded(|st.output|, placed.output[|st.output|]);
      EmitKeeps(env, placed, body);
      ExtendsTransitive(st, placed, Emit(env, placed, body).st);
    }
  }

  lemma EmitArgumentsKeeps(env: Env, st: State, k: int, delta: string)
    requires Inv(st) && st.started
    ensures Inv(EmitArguments(env, st, k, delta).st) && Extends(st, EmitArguments(env, st, k, delta).st)
  {
    if k in st.tools && st.tools[k].started && delta != "" {
      EmitKeeps(env, st, ArgumentsDelta(st.tools[k].outputIndex, st.tools[k].itemID, delta));
    }
  }

  lemma AcceptToolKeeps(env: Env, st: State, call: ToolDelta)
    requires Inv(st) && st.started && ValidToolDelta(call)
    ensures Inv(AcceptTool(env, st, call).st) && Extends(st, AcceptTool(env, st, call).st)
  {
    RecordKeeps(st, call);
    var recorded := Record(st, call);
    hide ToolsInv, SlotsInv, LogInv, Extends, Record;
    if recorded.ok {
      var tool := recorded.st.tools[call.index];
      if !tool.started && tool.callID != "" && tool.name != "" {
        OpenToolKeeps(env, recorded.st, call.index);
        var ready := OpenTool(env, recorded.st, call.index);
        EmitArgumentsKeeps(env, ready.st, call.index, tool.arguments);
        ExtendsTransitive(st, recorded.st, ready.st);
        ExtendsTransitive(st, ready.st, EmitArguments(env, ready.st, call.index, tool.arguments).st);
      } else {
        EmitArgumentsKeeps(env, recorded.st, call.index, DeltaArguments(call));
        ExtendsTransitive(st, recorded.st, EmitArguments(env, recorded.st, call.index, DeltaArguments(call)).st);
      }
    }
  }

  predicate ValidOp(op: Op) {
    op.ToolOp? ==> ValidToolDelta(op.call)
  }

  predicate ValidOps(ops: seq<Op>) {
    forall op | op in ops :: ValidOp(op)
  }

  lemma ChunkOpsValid(chunk: Chunk, model: string)
    requires ValidChunk(chunk, model)
    ensures ValidOps(ChunkOps(chunk))
  {
  }

  lemma ExtendsStarted(a: State, b: State)
    requires Extends(a, b) && a.started
    ensures b.started
  {
  }

  lemma {:induction false} AcceptOpsKeeps(env: Env, st: State, ops: seq<Op>)
    requires Inv(st) && st.started && ValidOps(ops)
    ensures Inv(AcceptOps(env, st, ops).st) && Extends(st, AcceptOps(env, st, ops).st)
    decreases |ops|
  {
    hide Inv, Extends, AcceptText, AcceptTool, ValidToolDelta;
    ExtendsSelf(st);
    if ops != [] {
      var before := AcceptOps(env, st, ops[..|ops| - 1]);
      var op := ops[|ops| - 1];
      AcceptOpsKeeps(env, st, ops[..|ops| - 1]);
      ExtendsStarted(st, before.st);
      assert ValidOp(op);
      if before.ok {
        match op {
          case TextOp(delta) => AcceptTextKeeps(env, before.st, delta);
          case ToolOp(call) => AcceptToolKeeps(env, before.st, call);
        }
        ExtendsTransitive(st, before.st, AcceptOp(env, before.st, op).st);
      }
    }
  }

  lemma AcceptKeeps(env: Env, st: State, chunk: Chunk)
    requires Inv(st)
    ensures Inv(Accept(env, st, chunk).st) && Extends(st, Accept(env, st, chunk).st)
  {
    ExtendsSelf(st);
    if !st.terminal && ValidChunk(chunk, st.model) {
      var ready := if st.started then Step(st, true) else Start(env, st, chunk.created);
      if !st.started { StartKeeps(env, st, chunk.created); }
      hide Inv, Extends, Start, AcceptOps;
      if ready.ok {
        var used := WithUsage(ready.st, chunk.usage);
        UsageKeeps(ready.st, chunk.usage);
        AcceptOpsKeeps(env, used, ChunkOps(chunk));
        ExtendsTransitive(st, ready.st, used);
        ExtendsTransitive(st, used, AcceptOps(env, used, ChunkOps(chunk)).st);
      }
    }
  }

  // ----- Complete and Failed -----

  lemma ReplaceKeepsSlots(st: State, i: int, item: Item)
    requires SlotsInv(st) && 0 <= i < |st.output| && SameIdentity(st.output[i], item)
    ensures SlotsInv(st.(output := Replace(st.output, i, item)))
  {
    var st' := st.(output := Replace(st.output, i, item));
    forall j | 0 <= j < |st.output| && st.output[j].CallItem?
      ensures IsToolSlot(st', j) && ToolAt(st', j) == ToolAt(st, j)
    {
      assert IsToolSlot(st, j);
    }
    assert forall k | k in st.tools && st.tools[k].started :: OwnsSlot(st, k) && OwnsSlot(st', k);
  }

  lemma ReplaceKeeps(st: State, i: int, item: Item)
    requires Inv(st) && st.started && 0 <= i < |st.output| && SameIdentity(st.output[i], item)
    ensures var st' := st.(output := Replace(st.output, i, item)); Inv(st') && Extends(st, st')
  {
    hide SlotsInv;
    ReplaceKeepsSlots(st, i, item);
  }

  lemma FinishItemKeeps(env: Env, st: State, i: int, item: Item)
    requires Inv(st) && st.started && 0 <= i < |st.output| && SameIdentity(st.output[i], item)
    ensures var done := Emit(env, st.(output := Replace(st.output, i, item)), ItemDone(i, item)).st;
            Inv(done) && Extends(st, done)
  {
    var replaced := st.(output := Replace(st.output, i, item));
    ReplaceKeeps(st, i, item);
    hide Inv, Extends;
    EmitKeeps(env, replaced, ItemDone(i, item));
    ExtendsTransitive(st, replaced, Emit(env, replaced, ItemDone(i, item)).st);
  }

  lemma CompleteTextKeeps(env: Env, st: State)
    requires Inv(st) && st.started
    ensures Inv(CompleteText(env, st).st) && Extends(st, CompleteText(env, st).st)
  {
    ExtendsSelf(st);
    if st.text.Some? {
      var text := st.text.value;
      var item := MessageItem(text.itemID, Completed, [text.text]);
      assert 0 <= text.outputIndex < |st.output| && SameIdentity(st.output[text.outputIndex], item);
      hide ToolsInv, SlotsInv, LogInv, Extends;
      var first := Emit(env, st, TextDone(text.outputIndex, text.itemID, text.text));
      EmitKeeps(env, st, TextDone(text.outputIndex, text.itemID, text.text));
      var second := Emit(env, first.st, PartDone(text.outputIndex, text.itemID, text.text));
      EmitKeeps(env, first.st, PartDone(text.outputIndex, text.itemID, text.text));
      ExtendsTransitive(st, first.st, second.st);
      FinishItemKeeps(env, second.st, text.outputIndex, item);
      ExtendsTransitive(st, second.st, CompleteSlot(env, second.st, text.outputIndex, item).st);
    }
  }

  /** tool is a started tool of st. */
  ghost predicate IsStarted(st: State, tool: ToolState) {
    exists k | k in st.tools :: st.tools[k] == tool && tool.started
  }

  lemma CompleteToolKeeps(env: Env, st: State, tool: ToolState)
    requires Inv(st) && st.started && IsStarted(st, tool)
    ensures Inv(CompleteTool(env, st, tool).st) && Extends(st, CompleteTool(env, st, tool).st)
  {
    var item := CallItem(tool.itemID, Completed, tool.callID, tool.name, tool.arguments);
    assert 0 <= tool.outputIndex < |st.output| && SameIdentity(st.output[tool.outputIndex], item) by {
      var k :| k in st.tools && st.tools[k] == tool && tool.started;
      assert OwnsSlot(st, k);
    }
    hide ToolsInv, SlotsInv, LogInv, Extends;
    var first := Emit(env, st, ArgumentsDone(tool.outputIndex, tool.itemID, tool.arguments));
    EmitKeeps(env, st, ArgumentsDone(tool.outputIndex, tool.itemID, tool.arguments));
    FinishItemKeeps(env, first.st, tool.outputIndex, item);
    ExtendsTransitive(st, first.st, CompleteSlot(env, first.st, tool.outputIndex, item).st);
  }

  lemma {:induction false} CompleteToolsKeeps(env: Env, st: State, tools: seq<ToolState>)
    requires Inv(st) && st.started && forall tool | tool in tools :: IsStarted(st, tool)
    ensures var r := CompleteTools(env, st, tools).st;
            Inv(r) && Extends(st, r) && r.tools == st.tools && r.terminal == st.terminal && r.text == st.text
    decreases |tools|
  {
    ExtendsSelf(st);
    if tools != [] {
      var before := CompleteTools(env, st, tools[..|tools| - 1]);
      var tool := tools[|tools| - 1];
      CompleteToolsKeeps(env, st, tools[..|tools| - 1]);
      ExtendsStarted(st, before.st);
      assert IsStarted(st, tool) && IsStarted(before.st, tool);
      hide Inv, Extends, IsStarted;
      if before.ok {
        CompleteToolKeeps(env, before.st, tool);
        ExtendsTransitive(st, before.st, CompleteTool(env, before.st, tool).st);
      }
    }
  }

  lemma {:induction false} ToolsBySlotStarted(st: State, n: nat)
    requires Inv(st) && n <= |st.output|
    ensures forall tool | tool in ToolsBySlot(st, n) :: IsStarted(st, tool)
  {
    if n > 0 {
      ToolsBySlotStarted(st, n - 1);
      if IsToolSlot(st, n - 1) {
        var k := st.callIDs[st.output[n - 1].callID];
        assert st.tools[k] == ToolAt(st, n - 1) && st.tools[k].started;
      }
    }
  }

  lemma CompleteTextFrame(env: Env, st: State)
    ensures var r := CompleteText(env, st).st;
            r.tools == st.tools && r.terminal == st.terminal && r.text == st.text && r.started == st.started
            && |r.output| == |st.output| && r.callIDs == st.callIDs
  {
  }

  lemma CompleteKeeps(env: Env, st: State)
    requires Inv(st)
    ensures Inv(Complete(env, st).st) && Extends(st, Complete(env, st).st)
  {
    ExtendsSelf(st);
    if st.started && !st.terminal {
      var texted := CompleteText(env, st);
      CompleteTextKeeps(env, st);
      CompleteTextFrame(env, st);
      var tools := ToolsBySlot(st, |st.output|);
      ToolsBySlotStarted(st, |st.output|);
      assert forall tool | tool in tools :: IsStarted(st, tool) && IsStarted(texted.st, tool);
      hide ToolsInv, SlotsInv, LogInv, Extends, IsStarted, ToolsBySlot, CompleteText;
      if texted.ok && AllToolsStarted(st) {
        var tooled := CompleteTools(env, texted.st, tools);
        CompleteToolsKeeps(env, texted.st, tools);
        ExtendsTransitive(st, texted.st, tooled.st);
        ExtendsStarted(st, tooled.st);
        if tooled.ok {
          FinalKeeps(env, tooled.st, CompletedEvent(Snapshot(tooled.st, Completed)));
          ExtendsTransitive(st, tooled.st,
                            Emit(env, tooled.st.(terminal := true), CompletedEvent(Snapshot(tooled.st, Completed))).st);
        }
      }
    }
  }

  lemma FinalKeeps(env: Env, st: State, body: EventBody)
    requires Inv(st) && st.started && !st.terminal
    ensures var last := Emit(env, st.(terminal := true), body).st; Inv(last) && Extends(st, last)
  {
    var st' := st.(terminal := true);
    assert forall i | 0 <= i < |st.output| :: IsToolSlot(st', i) == IsToolSlot(st, i);
    assert forall k | k in st.tools :: OwnsSlot(st', k) == OwnsSlot(st, k);
    EmitKeeps(env, st', body);
    ExtendsTransitive(st, st', Emit(env, st', body).st);
  }

  lemma FailKeeps(env: Env, st: State, code: string)
    requires Inv(st)
    ensures Inv(Fail(env, st, code).st) && Extends(st, Fail(env, st, code).st)
  {
    ExtendsSelf(st);
    if st.started && !st.terminal {
      FinalKeeps(env, st, FailedEvent(Snapshot(st, Failed).(error := Some(code))));
    }
  }

  // ----- any caller -----

  datatype Call = AcceptCall(chunk: Chunk) | CompleteCall | FailCall(code: string)

  function Perform(env: Env, st: State, call: Call): Step {
    match call
    case AcceptCall(chunk) => Accept(env, st, chunk)
    case CompleteCall => Complete(env, st)
    case FailCall(code) => Fail(env, st, code)
  }

  /** Any calls in any order, carrying on after failures. */
  function PerformAll(env: Env, st: State, calls: seq<Call>): State
    decreases |calls|
  {
    if calls == [] then st else Perform(env, PerformAll(env, st, calls[..|calls| - 1]), calls[|calls| - 1]).st
  }

  lemma PerformKeeps(env: Env, st: State, call: Call)
    requires Inv(st)
    ensures Inv(Perform(env, st, call).st) && Extends(st, Perform(env, st, call).st)
  {
    match call
    case AcceptCall(chunk) => AcceptKeeps(env, st, chunk);
    case CompleteCall => CompleteKeeps(env, st);
    case FailCall(code) => FailKeeps(env, st, code);
  }

  /** The invariant holds after every call of every run, failed calls included. */
  lemma {:induction false} EveryRunKeepsInvariant(env: Env, st: State, calls: seq<Call>)
    requires Inv(st)
    ensures Inv(PerformAll(env, st, calls))
    decreases |calls|
  {
    if calls != [] {
      EveryRunKeepsInvariant(env, st, calls[..|calls| - 1]);
      hide Inv, Perform;
      PerformKeeps(env, PerformAll(env, st, calls[..|calls| - 1]), calls[|calls| - 1]);
    }
  }

  /** Whatever is called later, ids, names, slots and emitted events stay. */
  lemma {:induction false} IdentitiesAreStable(env: Env, st: State, calls: seq<Call>, later: seq<Call>)
    requires Inv(st)
    ensures Extends(PerformAll(env, st, calls), PerformAll(env, st, calls + later))
    decreases |later|
  {
    hide Inv, Extends, Perform;
    ExtendsSelf(PerformAll(env, st, calls));
    if later == [] {
      assert calls + later == calls;
    } else {
      var all := calls + later;
      var before := PerformAll(env, st, all[..|all| - 1]);
      assert all[..|all| - 1] == calls + later[..|later| - 1];
      IdentitiesAreStable(env, st, calls, later[..|later| - 1]);
      EveryRunKeepsInvariant(env, st, all[..|all| - 1]);
      PerformKeeps(env, before, all[|all| - 1]);
      ExtendsTransitive(PerformAll(env, st, calls), before, PerformAll(env, st, all));
    }
  }

  lemma NewStreamInvariant(model: string, parallel: bool)
    ensures Inv(NewStream(model, parallel))
  {
  }

  /** No two items own one output slot, and no two tools one call id. */
  lemma SlotsAreABijection(st: State, j: int, k: int)
    requires Inv(st) && j in st.tools && k in st.tools && j != k
    ensures st.tools[j].callID != "" ==> st.tools[j].callID != st.tools[k].callID
    ensures st.tools[j].started && st.tools[k].started ==> st.tools[j].outputIndex != st.tools[k].outputIndex
    ensures st.tools[j].started && st.text.Some? ==> st.tools[j].outputIndex != st.text.value.outputIndex
  {
    if st.tools[j].started { assert OwnsSlot(st, j); }
    if st.tools[k].started { assert OwnsSlot(st, k); }
  }

  // ----- slots and owners, counted -----

  /** The started tools, and -1 for the text item. */
  ghost function Owners(st: State): set<int> {
    (set k | k in st.tools && st.tools[k].started) + (if st.text.Some? then {-1} else {})
  }

  ghost function SlotOf(st: State, owner: int): int {
    if owner in st.tools then st.tools[owner].outputIndex else if st.text.Some? then st.text.value.outputIndex else 0
  }

  ghost predicate Owned(st: State, i: int) {
    exists o :: o in Owners(st) && SlotOf(st, o) == i
  }

  ghost function OwnerOf(st: State, i: int): (owner: int)
    requires Inv(st) && 0 <= i < |st.output|
    ensures owner in Owners(st) && SlotOf(st, owner) == i
  {
    if st.output[i].MessageItem? then -1 else ToolSlotOwner(st, i)
  }

  ghost function ToolSlotOwner(st: State, i: int): (owner: int)
    requires Inv(st) && 0 <= i < |st.output| && st.output[i].CallItem?
    ensures owner in st.tools && st.tools[owner].started && st.tools[owner].outputIndex == i
  {
    assert IsToolSlot(st, i);
    st.callIDs[st.output[i].callID]
  }

  lemma {:induction false} InjectionSize<K, V>(m: map<K, V>, s: set<V>)
    requires m.Values <= s && forall a, b | a in m && b in m && a != b :: m[a] != m[b]
    ensures |m.Keys| <= |s|
    decreases |m.Keys|
  {
    if m.Keys != {} {
      var k :| k in m.Keys;
      var rest := map a | a in m && a != k :: m[a];
      assert rest.Keys == m.Keys - {k};
      forall v | v in rest.Values ensures v in s - {m[k]} {
        var a :| a in rest && rest[a] == v;
        assert m[a] in m.Values;
      }
      assert m[k] in m.Values;
      InjectionSize(rest, s - {m[k]});
    }
  }

  /** There are as many output slots as items that own one. */
  lemma SlotsCountOwners(st: State)
    requires Inv(st)
    ensures |st.output| == |Owners(st)|
  {
    hide SlotOf, Owners, Inv;
    var slots := Indexes(|st.output|);
    var taken := map o | o in Owners(st) :: SlotOf(st, o);
    var owned := map i | i in slots :: OwnerOf(st, i);
    forall o, p | o in Owners(st) && p in Owners(st) && o != p ensures SlotOf(st, o) != SlotOf(st, p) {
      OwnSlots(st, o, p);
    }
    forall o | o in Owners(st) ensures SlotOf(st, o) in slots { OwnSlot(st, o); }
    assert taken.Keys == Owners(st) && owned.Keys == slots;
    InjectionSize(taken, slots);
    forall i, j | i in slots && j in slots && i != j ensures owned[i] != owned[j] {
      assert SlotOf(st, owned[i]) == i && SlotOf(st, owned[j]) == j;
    }
    InjectionSize(owned, Owners(st));
  }

  lemma OwnSlot(st: State, o: int)
    requires Inv(st) && o in Owners(st)
    ensures 0 <= SlotOf(st, o) < |st.output|
  {
    if o in st.tools { assert OwnsSlot(st, o); }
  }

  lemma OwnSlots(st: State, o: int, p: int)
    requires Inv(st) && o in Owners(st) && p in Owners(st) && o != p
    ensures SlotOf(st, o) != SlotOf(st, p)
  {
    if o in st.tools && p in st.tools {
      SlotsAreABijection(st, o, p);
    } else {
      if o in st.tools { assert OwnsSlot(st, o); }
      if p in st.tools { assert OwnsSlot(st, p); }
    }
  }

  /** After any calls on a new stream, failed ones included, output slots and items
      that own one correspond one to one. */
  lemma EveryRunMatchesSlotsAndOwners(env: Env, model: string, parallel: bool, calls: seq<Call>)
    ensures var st := PerformAll(env, NewStream(model, parallel), calls);
            && |st.output| == |Owners(st)|
            && (forall o | o in Owners(st) :: 0 <= SlotOf(st, o) < |st.output|)
            && (forall i | 0 <= i < |st.output| :: Owned(st, i))
            && (forall o, p | o in Owners(st) && p in Owners(st) && o != p :: SlotOf(st, o) != SlotOf(st, p))
  {
    hide Inv, Owners, SlotOf, PerformAll;
    NewStreamInvariant(model, parallel);
    EveryRunKeepsInvariant(env, NewStream(model, parallel), calls);
    var st := PerformAll(env, NewStream(model, parallel), calls);
    SlotsCountOwners(st);
    forall o | o in Owners(st) ensures 0 <= SlotOf(st, o) < |st.output| { OwnSlot(st, o); }
    forall o, p | o in Owners(st) && p in Owners(st) && o != p ensures SlotOf(st, o) != SlotOf(st, p) {
      OwnSlots(st, o, p);
    }
    forall i | 0 <= i < |st.output| ensures Owned(st, i) {
      var o := OwnerOf(st, i);
      assert o in Owners(st) && SlotOf(st, o) == i;
    }
  }
}
