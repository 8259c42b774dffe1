/** The stream object itself: the fields and methods of ResponsesStream, updated
    in place and proved to do what StreamModel says. */
module StreamClass {
  import opened Prelude
  import opened Limits
  import M = StreamModel
  import I = StreamInvariant

  type IDSource = (nat, M.IDPrefix) -> Option<string>

  /** The emit callback: whether the event with a given number is delivered. */
  type Emitter = int -> bool

  class ResponsesStream {
    const model: string
    const parallel: bool
    const ids: IDSource
    var responseID: string
    var createdAt: int
    var sequence: int
    var started: bool
    var terminal: bool
    var output: seq<M.Item>
    var text: Option<M.TextState>
    var tools: map<int, M.ToolState>
    var callIDs: map<string, int>
    var usage: Option<M.Usage>
    var drawn: nat
    ghost var events: seq<M.Event>

    ghost function Abs(): M.State
      reads this
    {
      M.State(model, parallel, responseID, createdAt, sequence, started, terminal, output, text, tools, callIDs, usage,
              drawn, events)
    }

    ghost predicate Valid()
      reads this
    {
      I.Inv(Abs())
    }

    constructor (model: string, parallel: bool, ids: IDSource)
      ensures Valid() && Abs() == M.NewStream(model, parallel) && this.ids == ids
    {
      this.model, this.parallel, this.ids := model, parallel, ids;
      responseID, createdAt, sequence, started, terminal := "", 0, 0, false, false;
      output, text, tools, callIDs, usage, drawn, events := [], None, map[], map[], None, 0, [];
    }

    ghost function EnvWith(emit: Emitter): M.Env {
      M.Env(ids, emit)
    }

    method DrawID(prefix: M.IDPrefix) returns (id: Option<string>)
      modifies this`drawn
      ensures id == ids(old(drawn), prefix) && drawn == old(drawn) + 1
    {
      id := ids(drawn, prefix);
      drawn := drawn + 1;
    }

    method Emit(body: M.EventBody, emit: Emitter) returns (ok: bool)
      modifies this`sequence, this`events
      ensures M.Step(Abs(), ok) == M.Emit(EnvWith(emit), old(Abs()), body)
    {
      sequence := sequence + 1;
      var event := M.Event(sequence, body);
      events := events + [event];
      ok := emit(event.sequence);
    }

    method Snapshot(status: M.Status) returns (response: M.Response)
      ensures response == M.Snapshot(Abs(), status)
    {
      response := M.Response(responseID, createdAt, status, None, model, output, parallel, usage);
    }

    /** The two opening events. */
    method Announce(emit: Emitter) returns (ok: bool)
      modifies this`sequence, this`events
      ensures M.Step(Abs(), ok) == M.Announce(EnvWith(emit), old(Abs()))
    {
      var response := Snapshot(M.InProgress);
      ok := Emit(M.CreatedEvent(response), emit);
      if !ok { return; }
      response := Snapshot(M.InProgress);
      ok := Emit(M.InProgressEvent(response), emit);
    }

    method Start(created: int, emit: Emitter) returns (ok: bool)
      modifies this
      ensures M.Step(Abs(), ok) == M.Start(EnvWith(emit), old(Abs()), created)
    {
      var id := DrawID(M.RespID);
      if id.None? { return false; }
      responseID, createdAt, started := id.value, created, true;
      ok := Announce(emit);
    }

    method AcceptText(delta: string, emit: Emitter) returns (ok: bool)
      modifies this
      ensures M.Step(Abs(), ok) == M.AcceptText(EnvWith(emit), old(Abs()), delta)
    {
      var buffered := if text.Some? then |text.value.text| else 0;
      if |delta| > MAX_TEXT_CONTENT_BYTES - buffered { return false; }
      if text.None? {
        var id := DrawID(M.MsgID);
        if id.None? { return false; }
        var index := |output|;
        text := Some(M.TextState(id.value, index, ""));
        var item := M.MessageItem(id.value, M.InProgress, []);
        output := output + [item];
        ok := Emit(M.ItemAdded(index, item), emit);
        if !ok { return; }
        ok := Emit(M.PartAdded(index, id.value), emit);
        if !ok { return; }
      }
      text := Some(text.value.(text := text.value.text + delta));
      ok := Emit(M.TextDelta(text.value.outputIndex, text.value.itemID, delta), emit);
    }

    /** The identity part of acceptTool. */
    method RecordID(call: M.ToolDelta) returns (ok: bool)
      requires call.index in tools && call.id.Some?
      modifies this
      ensures M.Step(Abs(), ok) == M.RecordID(old(Abs()), call)
    {
      var k, id := call.index, call.id.value;
      if tools[k].callID != "" && tools[k].callID != id { return false; }
      if id in callIDs && callIDs[id] != k { return false; }
      tools := tools[k := tools[k].(callID := id)];
      callIDs := callIDs[id := k];
      return true;
    }

    /** The name and argument part of acceptTool. */
    method RecordFunction(call: M.ToolDelta) returns (ok: bool)
      requires call.index in tools && |tools[call.index].arguments| <= MAX_ARGUMENTS_BYTES
      modifies this
      ensures M.Step(Abs(), ok) == M.RecordFunction(old(Abs()), call)
    {
      var k := call.index;
      if call.typ.Some? && call.typ.value != "function" { return false; }
      if call.fn.Some? {
        if call.fn.value.name.Some? {
          var name := call.fn.value.name.value;
          if tools[k].name != "" && tools[k].name != name { return false; }
          tools := tools[k := tools[k].(name := name)];
        }
        if call.fn.value.arguments.Some? {
          var delta := call.fn.value.arguments.value;
          if |delta| > MAX_ARGUMENTS_BYTES - |tools[k].arguments| { return false; }
          tools := tools[k := tools[k].(arguments := tools[k].arguments + delta)];
        }
      }
      assert old(tools[k]).arguments + "" == old(tools[k]).arguments;
      assert tools == old(tools)[k := tools[k]];
      return true;
    }

    method Record(call: M.ToolDelta) returns (ok: bool)
      requires Valid()
      modifies this
      ensures M.Step(Abs(), ok) == M.Record(old(Abs()), call)
    {
      hide M.RecordID, M.RecordFunction;
      var k := call.index;
      if k !in tools {
        if |tools| >= MAX_PARALLEL_CALLS { return false; }
        tools := tools[k := M.BLANK_TOOL];
      }
      assert |tools[k].arguments| <= MAX_ARGUMENTS_BYTES;
      assert Abs() == M.WithTool(old(Abs()), k);
      ghost var found := Abs();
      if call.id.Some? {
        ok := RecordID(call);
        if !ok { return; }
        KnownTool(found, call);
      }
      ok := RecordFunction(call);
    }

    method OpenTool(k: int, emit: Emitter) returns (ok: bool)
      requires k in tools
      modifies this
      ensures M.Step(Abs(), ok) == M.OpenTool(EnvWith(emit), old(Abs()), k)
    {
      var id := DrawID(M.FcID);
      if id.None? { return false; }
      var tool := tools[k];
      tools := tools[k := tool.(itemID := id.value, outputIndex := |output|, started := true)];
      var item := M.CallItem(id.value, M.InProgress, tool.callID, tool.name, "");
      output := output + [item];
      ok := Emit(M.ItemAdded(tools[k].outputIndex, item), emit);
    }

    method AcceptTool(call: M.ToolDelta, emit: Emitter) returns (ok: bool)
      requires Valid()
      modifies this
      ensures M.Step(Abs(), ok) == M.AcceptTool(EnvWith(emit), old(Abs()), call)
    {
      ghost var before := Abs();
      ok := Record(call);
      if !ok { return; }
      I.KnownAfterRecord(before, call);
      hide M.Record;
      var k := call.index;
      var argumentDelta := M.DeltaArguments(call);
      if !tools[k].started && tools[k].callID != "" && tools[k].name != "" {
        var arguments := tools[k].arguments;
        ok := OpenTool(k, emit);
        if !ok { return; }
        argumentDelta := arguments;
      }
      if k in tools && tools[k].started && argumentDelta != "" {
        ok := Emit(M.ArgumentsDelta(tools[k].outputIndex, tools[k].itemID, argumentDelta), emit);
        return;
      }
      return true;
    }

    method Accept(chunk: M.Chunk, emit: Option<Emitter>) returns (ok: bool)
      requires Valid()
      modifies this
      ensures Valid()
      ensures if emit.None? then !ok && Abs() == old(Abs())
              else M.Step(Abs(), ok) == M.Accept(EnvWith(emit.value), old(Abs()), chunk)
    {
      if terminal || emit.None? || !M.ValidChunk(chunk, model) { return false; }
      ghost var before, env := Abs(), EnvWith(emit.value);
      I.AcceptKeeps(env, before, chunk);
      hide I.Inv, M.Start, M.AcceptText, M.AcceptTool, M.ValidChunk;
      if !started {
        I.StartKeeps(env, before, chunk.created);
        ok := Start(chunk.created, emit.value);
        if !ok { return; }
      }
      I.UsageKeeps(Abs(), chunk.usage);
      if chunk.usage.Some? { usage := chunk.usage; }
      ok := AcceptDeltas(chunk, emit.value);
    }

    /** The loop over a chunk's tool calls. */
    method AcceptCalls(calls: seq<M.ToolDelta>, emit: Emitter) returns (ok: bool)
      requires Valid() && started && forall call | call in calls :: M.ValidToolDelta(call)
      modifies this
      ensures M.Step(Abs(), ok) == M.AcceptOps(EnvWith(emit), old(Abs()), M.ToolOps(calls))
    {
      hide I.Inv, M.AcceptTool, M.ValidToolDelta;
      ghost var before, env, ops := Abs(), EnvWith(emit), M.ToolOps(calls);
      for i := 0 to |calls|
        invariant Valid() && started
        invariant M.AcceptOps(env, before, ops[..i]) == M.Step(Abs(), true)
      {
        ghost var here := Abs();
        I.AcceptToolKeeps(env, here, calls[i]);
        ok := AcceptTool(calls[i], emit);
        OneMore(env, before, ops, i);
        if !ok { return; }
      }
      assert ops[..|calls|] == ops;
      return true;
    }

    /** The deltas of a validated chunk: its content, then its tool calls in order. */
    method AcceptDeltas(chunk: M.Chunk, emit: Emitter) returns (ok: bool)
      requires Valid() && started && M.ValidChunk(chunk, model)
      modifies this
      ensures M.Step(Abs(), ok) == M.AcceptOps(EnvWith(emit), old(Abs()), M.ChunkOps(chunk))
    {
      hide I.Inv, M.AcceptText, M.ValidToolDelta, I.Extends;
      if |chunk.choices| == 0 { return true; }
      var choice := chunk.choices[0];
      ghost var before, env, calls := Abs(), EnvWith(emit), M.ToolOps(choice.toolCalls);
      if choice.content.Some? {
        I.AcceptTextKeeps(env, before, choice.content.value);
        ContentFirst(env, before, choice.content.value, calls);
        ok := AcceptText(choice.content.value, emit);
        if !ok { return; }
        I.ExtendsStarted(before, Abs());
      } else {
        assert [] + calls == calls;
      }
      ok := AcceptCalls(choice.toolCalls, emit);
    }

    method CompleteText(emit: Emitter) returns (ok: bool)
      requires Valid()
      modifies this
      ensures M.Step(Abs(), ok) == M.CompleteText(EnvWith(emit), old(Abs()))
    {
      if text.None? { return true; }
      var index, value := text.value.outputIndex, text.value.text;
      ok := Emit(M.TextDone(index, text.value.itemID, value), emit);
      if !ok { return; }
      ok := Emit(M.PartDone(index, text.value.itemID, value), emit);
      if !ok { return; }
      var item := M.MessageItem(text.value.itemID, M.Completed, [value]);
      output := output[index := item];
      ok := Emit(M.ItemDone(index, item), emit);
    }

    method CompleteTool(tool: M.ToolState, emit: Emitter) returns (ok: bool)
      requires 0 <= tool.outputIndex < |output|
      modifies this`sequence, this`events, this`output
      ensures M.Step(Abs(), ok) == M.CompleteTool(EnvWith(emit), old(Abs()), tool)
    {
      var index := tool.outputIndex;
      ok := Emit(M.ArgumentsDone(index, tool.itemID, tool.arguments), emit);
      if !ok { return; }
      var item := M.CallItem(tool.itemID, M.Completed, tool.callID, tool.name, tool.arguments);
      output := output[index := item];
      ok := Emit(M.ItemDone(index, item), emit);
    }

    /** Every tool, in whatever order the map yields them, unless one has not started. */
    method CollectTools() returns (ok: bool, list: seq<M.ToolState>)
      requires M.AllToolsStarted(Abs()) ==> DistinctSlots(tools)
      ensures ok == M.AllToolsStarted(Abs())
      ensures ok ==> DistinctIndexes(list) && Lists(list, tools, tools.Keys)
    {
      list := [];
      var rest := tools.Keys;
      while rest != {}
        invariant rest <= tools.Keys
        invariant forall k | k in tools.Keys - rest :: tools[k].started
        invariant Lists(list, tools, tools.Keys - rest)
        invariant DistinctSlots(tools) ==> DistinctIndexes(list)
      {
        var k := AnyOf(rest);
        if !tools[k].started { return false, []; }
        ListOneMore(list, tools, tools.Keys - rest, k);
        list := list + [tools[k]];
        rest := rest - {k};
        assert tools.Keys - rest == tools.Keys - (rest + {k}) + {k};
      }
      assert tools.Keys - rest == tools.Keys;
      return true, list;
    }

    method Complete(emit: Option<Emitter>) returns (ok: bool)
      requires Valid()
      modifies this
      ensures Valid()
      ensures if emit.None? then !ok && Abs() == old(Abs())
              else M.Step(Abs(), ok) == M.Complete(EnvWith(emit.value), old(Abs()))
    {
      hide I.ToolsInv, I.SlotsInv, I.LogInv, M.CompleteText, M.CompleteTools, M.ToolsBySlot, I.Extends, Within,
           StrictlyOrdered;
      if !started || terminal || emit.None? { return false; }
      ghost var before, env := Abs(), EnvWith(emit.value);
      I.CompleteKeeps(env, before);
      I.CompleteTextFrame(env, before);
      ok := CompleteText(emit.value);
      if !ok { return; }
      ghost var texted := Abs();
      var list;
      if M.AllToolsStarted(before) { ToolsHaveDistinctSlots(before); }
      ok, list := CollectTools();
      if !ok { return; }
      ghost var collected := list;
      list := SortByOutputIndex(list);
      SortedToolsAreBySlot(before, collected, list);
      ok := CompleteAll(list, emit.value);
      if !ok { return; }
      var response := Snapshot(M.Completed);
      terminal := true;
      ok := Emit(M.CompletedEvent(response), emit.value);
    }

    method CompleteAll(list: seq<M.ToolState>, emit: Emitter) returns (ok: bool)
      requires forall tool | tool in list :: 0 <= tool.outputIndex < |output|
      modifies this`sequence, this`events, this`output
      ensures M.Step(Abs(), ok) == M.CompleteTools(EnvWith(emit), old(Abs()), list)
    {
      ghost var before, env := Abs(), EnvWith(emit);
      for i := 0 to |list|
        invariant |output| == old(|output|)
        invariant M.CompleteTools(env, before, list[..i]) == M.Step(Abs(), true)
      {
        ok := CompleteTool(list[i], emit);
        NextTool(env, before, list, i);
        if !ok { return; }
      }
      assert list[..|list|] == list;
      return true;
    }

    method Failed(code: string, emit: Option<Emitter>) returns (ok: bool)
      requires Valid()
      modifies this
      ensures Valid()
      ensures if emit.None? then !ok && Abs() == old(Abs())
              else M.Step(Abs(), ok) == M.Fail(EnvWith(emit.value), old(Abs()), code)
    {
      if !started || terminal || emit.None? { return false; }
      I.FailKeeps(EnvWith(emit.value), Abs(), code);
      var response := Snapshot(M.Failed);
      response := response.(error := Some(code));
      terminal := true;
      ok := Emit(M.FailedEvent(response), emit.value);
    }
  }

  lemma KnownTool(st: M.State, call: M.ToolDelta)
    requires call.index in st.tools && call.id.Some?
    ensures call.index in M.RecordID(st, call).st.tools
    ensures M.RecordID(st, call).st.tools[call.index].arguments == st.tools[call.index].arguments
  {
  }

  lemma ContentFirst(env: M.Env, st: M.State, delta: string, calls: seq<M.Op>)
    ensures var first := M.AcceptText(env, st, delta);
            M.AcceptOps(env, st, [M.TextOp(delta)] + calls) ==
            (if first.ok then M.AcceptOps(env, first.st, calls) else first)
  {
    assert M.AcceptOps(env, st, []) == M.Step(st, true);
    assert [M.TextOp(delta)][..0] == [];
    OpsConcat(env, st, [M.TextOp(delta)], calls);
    hide M.AcceptText;
  }

  /** Accepting a list and then another is accepting both in one go. */
  lemma {:induction false} OpsConcat(env: M.Env, st: M.State, a: seq<M.Op>, b: seq<M.Op>)
    ensures var first := M.AcceptOps(env, st, a);
            M.AcceptOps(env, st, a + b) == (if first.ok then M.AcceptOps(env, first.st, b) else first)
    decreases |b|
  {
    hide M.AcceptOp;
    if b == [] {
      assert a + b == a;
    } else {
      var n := |b| - 1;
      OpsConcat(env, st, a, b[..n]);
      assert (a + b)[..|a + b| - 1] == a + b[..n];
    }
  }

  /** The (i+1)-st delta after i were accepted; if it fails so does the list. */
  lemma OneMore(env: M.Env, st: M.State, ops: seq<M.Op>, i: nat)
    requires i < |ops| && M.AcceptOps(env, st, ops[..i]).ok
    ensures var step := M.AcceptOp(env, M.AcceptOps(env, st, ops[..i]).st, ops[i]);
            && M.AcceptOps(env, st, ops[..i + 1]) == step
            && (!step.ok ==> M.AcceptOps(env, st, ops) == step)
  {
    hide M.AcceptOp;
    assert ops[..i + 1][..i] == ops[..i];
    OpsConcat(env, st, ops[..i + 1], ops[i + 1..]);
    assert ops[..i + 1] + ops[i + 1..] == ops;
  }

  lemma NextTool(env: M.Env, st: M.State, list: seq<M.ToolState>, i: nat)
    requires i < |list| && M.CompleteTools(env, st, list[..i]).ok
    ensures var step := M.CompleteTool(env, M.CompleteTools(env, st, list[..i]).st, list[i]);
            && M.CompleteTools(env, st, list[..i + 1]) == step
            && (!step.ok ==> M.CompleteTools(env, st, list) == step)
  {
    hide M.CompleteTool;
    assert list[..i + 1][..i] == list[..i];
    if !M.CompleteTools(env, st, list[..i + 1]).ok { StaysIncomplete(env, st, list, i + 1); }
  }

  lemma {:induction false} StaysIncomplete(env: M.Env, st: M.State, list: seq<M.ToolState>, i: nat)
    requires i <= |list| && !M.CompleteTools(env, st, list[..i]).ok
    ensures M.CompleteTools(env, st, list) == M.CompleteTools(env, st, list[..i])
    decreases |list| - i
  {
    hide M.CompleteTool;
    if i == |list| {
      assert list[..i] == list;
    } else {
      assert list[..i + 1][..i] == list[..i];
      StaysIncomplete(env, st, list, i + 1);
    }
  }

  // ----- sorting by output index -----

  method AnyOf<T>(keys: set<T>) returns (k: T)
    requires keys != {}
    ensures k in keys
  {
    k :| k in keys;
  }

  ghost predicate DistinctSlots(tools: map<int, M.ToolState>) {
    forall j, k | j in tools && k in tools && j != k :: tools[j].outputIndex != tools[k].outputIndex
  }

  ghost predicate DistinctIndexes(list: seq<M.ToolState>) {
    forall i, j | 0 <= i < j < |list| :: list[i].outputIndex != list[j].outputIndex
  }

  /** list holds the tools with these keys and nothing else. */
  ghost predicate Lists(list: seq<M.ToolState>, tools: map<int, M.ToolState>, keys: set<int>)
    requires keys <= tools.Keys
  {
    (forall k | k in keys :: tools[k] in list) && (forall tool | tool in list :: IsListed(tools, keys, tool))
  }

  ghost predicate IsListed(tools: map<int, M.ToolState>, keys: set<int>, tool: M.ToolState)
    requires keys <= tools.Keys
  {
    exists k | k in keys :: tools[k] == tool
  }

  lemma ListOneMore(list: seq<M.ToolState>, tools: map<int, M.ToolState>, keys: set<int>, k: int)
    requires keys <= tools.Keys && Lists(list, tools, keys) && k in tools && k !in keys
    ensures Lists(list + [tools[k]], tools, keys + {k})
    ensures DistinctSlots(tools) && DistinctIndexes(list) ==> DistinctIndexes(list + [tools[k]])
  {
    var more := list + [tools[k]];
    forall j | j in keys + {k} ensures tools[j] in more {
      if j == k { assert more[|list|] == tools[k]; }
    }
    forall tool | tool in more ensures IsListed(tools, keys + {k}, tool) {
      if tool in list {
        var j :| j in keys && tools[j] == tool;
        assert j in keys + {k};
      }
    }
    if DistinctSlots(tools) && DistinctIndexes(list) {
      forall i | 0 <= i < |list| ensures list[i].outputIndex != tools[k].outputIndex {
        assert list[i] in list && IsListed(tools, keys, list[i]);
      }
    }
  }

  ghost predicate Within(a: seq<M.ToolState>, b: seq<M.ToolState>) {
    forall tool | tool in a :: tool in b
  }

  ghost predicate SameElements(a: seq<M.ToolState>, b: seq<M.ToolState>) {
    Within(a, b) && Within(b, a)
  }

  method SortByOutputIndex(list: seq<M.ToolState>) returns (sorted: seq<M.ToolState>)
    requires DistinctIndexes(list)
    ensures StrictlyOrdered(sorted) && SameElements(sorted, list)
  {
    sorted := [];
    for i := 0 to |list|
      invariant StrictlyOrdered(sorted) && SameElements(sorted, list[..i])
    {
      var j := |sorted|;
      while j > 0 && sorted[j - 1].outputIndex > list[i].outputIndex
        invariant 0 <= j <= |sorted|
        invariant forall m | j <= m < |sorted| :: sorted[m].outputIndex > list[i].outputIndex
      {
        j := j - 1;
      }
      InsertInOrder(sorted, list, i, j);
      sorted := sorted[..j] + [list[i]] + sorted[j..];
    }
    assert list[..|list|] == list;
  }

  lemma InsertInOrder(sorted: seq<M.ToolState>, list: seq<M.ToolState>, i: nat, j: nat)
    requires i < |list| && j <= |sorted| && DistinctIndexes(list)
    requires StrictlyOrdered(sorted) && SameElements(sorted, list[..i])
    requires j > 0 ==> sorted[j - 1].outputIndex <= list[i].outputIndex
    requires forall m | j <= m < |sorted| :: sorted[m].outputIndex > list[i].outputIndex
    ensures StrictlyOrdered(sorted[..j] + [list[i]] + sorted[j..])
    ensures SameElements(sorted[..j] + [list[i]] + sorted[j..], list[..i + 1])
  {
    var x, after := list[i], sorted[..j] + [list[i]] + sorted[j..];
    if j > 0 {
      assert sorted[j - 1] in list[..i];
      var m :| 0 <= m < i && list[m] == sorted[j - 1];
      assert sorted[j - 1].outputIndex < x.outputIndex;
    }
    InsertedElements(sorted, list, i, j);
  }

  lemma InsertedElements(sorted: seq<M.ToolState>, list: seq<M.ToolState>, i: nat, j: nat)
    requires i < |list| && j <= |sorted| && SameElements(sorted, list[..i])
    ensures SameElements(sorted[..j] + [list[i]] + sorted[j..], list[..i + 1])
  {
    var after := sorted[..j] + [list[i]] + sorted[j..];
    assert sorted == sorted[..j] + sorted[j..] && list[..i + 1] == list[..i] + [list[i]];
    forall tool | tool in sorted ensures tool in after {
      assert tool in sorted[..j] + sorted[j..];
    }
  }

  ghost predicate StrictlyOrdered(list: seq<M.ToolState>) {
    forall i, j | 0 <= i < j < |list| :: list[i].outputIndex < list[j].outputIndex
  }

  lemma LastIsGreatest(a: seq<M.ToolState>, x: M.ToolState)
    requires StrictlyOrdered(a) && x in a
    ensures x.outputIndex <= a[|a| - 1].outputIndex
    ensures x.outputIndex == a[|a| - 1].outputIndex ==> x == a[|a| - 1]
    ensures x in a[..|a| - 1] <==> x != a[|a| - 1]
  {
  }

  lemma {:induction false} StrictOrderIsUnique(a: seq<M.ToolState>, b: seq<M.ToolState>)
    requires StrictlyOrdered(a) && StrictlyOrdered(b) && SameElements(a, b)
    ensures a == b
    decreases |a|
  {
    hide Within, StrictlyOrdered;
    EndsAgree(a, b);
    if a != [] {
      ButLast(a, b);
      ButLast(b, a);
      OrderedPrefix(a);
      OrderedPrefix(b);
      StrictOrderIsUnique(a[..|a| - 1], b[..|b| - 1]);
      assert a == a[..|a| - 1] + [a[|a| - 1]] && b == b[..|b| - 1] + [b[|b| - 1]];
    }
  }

  lemma OrderedPrefix(a: seq<M.ToolState>)
    requires StrictlyOrdered(a) && a != []
    ensures StrictlyOrdered(a[..|a| - 1])
  {
  }

  lemma EndsAgree(a: seq<M.ToolState>, b: seq<M.ToolState>)
    requires StrictlyOrdered(a) && StrictlyOrdered(b) && SameElements(a, b)
    ensures (a == []) == (b == [])
    ensures a != [] && b != [] ==> a[|a| - 1] == b[|b| - 1]
  {
    assert |a| > 0 ==> a[0] in b;
    assert |b| > 0 ==> b[0] in a;
    if a != [] {
      var x, y := a[|a| - 1], b[|b| - 1];
      assert x in a && x in b && y in b && y in a;
      LastIsGreatest(a, y);
      LastIsGreatest(b, x);
    }
  }

  lemma ButLast(a: seq<M.ToolState>, b: seq<M.ToolState>)
    requires a != [] && b != [] && StrictlyOrdered(a) && StrictlyOrdered(b) && SameElements(a, b)
    requires a[|a| - 1] == b[|b| - 1]
    ensures Within(a[..|a| - 1], b[..|b| - 1])
  {
    var a', b' := a[..|a| - 1], b[..|b| - 1];
    forall tool | tool in a' ensures tool in b' {
      assert tool in a && tool in b;
      LastIsGreatest(a, tool);
      LastIsGreatest(b, tool);
    }
  }

  /** The tool of a slot is a started one that says so. */
  lemma SlotOwner(st: M.State, i: nat)
    requires I.Inv(st) && M.IsToolSlot(st, i)
    ensures M.ToolAt(st, i).started && M.ToolAt(st, i).outputIndex == i
    ensures IsListed(st.tools, st.tools.Keys, M.ToolAt(st, i))
  {
    var owner := st.callIDs[st.output[i].callID];
    assert owner in st.tools.Keys && st.tools[owner] == M.ToolAt(st, i);
  }

  /** A started tool is the tool of the slot it names. */
  lemma OwnerOfSlot(st: M.State, i: nat, k: int)
    requires I.Inv(st) && k in st.tools && st.tools[k].started && st.tools[k].outputIndex == i
    ensures M.IsToolSlot(st, i) && M.ToolAt(st, i) == st.tools[k]
  {
    assert I.OwnsSlot(st, k);
  }

  lemma NoOwnerBelow(st: M.State)
    requires I.Inv(st)
    ensures forall k | k in st.tools && st.tools[k].started :: st.tools[k].outputIndex >= 0
  {
    assert forall k | k in st.tools && st.tools[k].started :: I.OwnsSlot(st, k);
  }

  /** The tools of the first n slots are exactly the started ones that own them. */
  lemma {:induction false} BySlotInOrder(st: M.State, n: nat)
    requires I.Inv(st) && n <= |st.output|
    ensures var list := M.ToolsBySlot(st, n);
            && StrictlyOrdered(list)
            && (forall tool | tool in list ::
                  0 <= tool.outputIndex < n && IsListed(st.tools, st.tools.Keys, tool) && tool.started)
            && forall k | k in st.tools && st.tools[k].started && st.tools[k].outputIndex < n :: st.tools[k] in list
  {
    hide I.Inv, M.IsToolSlot, M.ToolAt;
    if n > 0 {
      var i := n - 1;
      BySlotInOrder(st, i);
      if M.IsToolSlot(st, i) { SlotOwner(st, i); }
      var list, before := M.ToolsBySlot(st, n), M.ToolsBySlot(st, i);
      forall k | k in st.tools && st.tools[k].started && st.tools[k].outputIndex < n
        ensures st.tools[k] in list
      {
        if st.tools[k].outputIndex == i {
          OwnerOfSlot(st, i, k);
          assert list[|before|] == st.tools[k];
        } else {
          assert st.tools[k] in before;
        }
      }
    } else {
      NoOwnerBelow(st);
    }
  }

  lemma ToolsHaveDistinctSlots(st: M.State)
    requires I.Inv(st) && M.AllToolsStarted(st)
    ensures DistinctSlots(st.tools)
  {
  }

  /** Collecting in any order and sorting gives the tools slot by slot. */
  lemma SortedToolsAreBySlot(st: M.State, collected: seq<M.ToolState>, list: seq<M.ToolState>)
    requires I.Inv(st) && M.AllToolsStarted(st) && StrictlyOrdered(list)
    requires Lists(collected, st.tools, st.tools.Keys) && SameElements(list, collected)
    ensures list == M.ToolsBySlot(st, |st.output|)
    ensures forall tool | tool in list :: 0 <= tool.outputIndex < |st.output|
  {
    var slots := M.ToolsBySlot(st, |st.output|);
    BySlotInOrder(st, |st.output|);
    forall tool | tool in list ensures tool in slots {
      assert tool in collected && IsListed(st.tools, st.tools.Keys, tool);
      var k :| k in st.tools && st.tools[k] == tool;
      assert I.OwnsSlot(st, k);
    }
    forall tool | tool in slots ensures tool in list {
      var k :| k in st.tools && st.tools[k] == tool;
    }
    StrictOrderIsUnique(list, slots);
  }

  // ----- the handler -----

  lemma {:induction false} RefusedStays(env: M.Env, st: M.State, chunks: seq<M.Chunk>, n: nat)
    requires n <= |chunks| && !M.AcceptAll(env, st, chunks[..n]).ok
    ensures M.AcceptAll(env, st, chunks) == M.AcceptAll(env, st, chunks[..n])
    decreases |chunks| - n
  {
    hide M.Accept;
    if n == |chunks| {
      assert chunks[..n] == chunks;
    } else {
      assert chunks[..n + 1][..n] == chunks[..n];
      RefusedStays(env, st, chunks, n + 1);
    }
  }

  /** gatewayResponsesStream on the chunks the upstream sends; `broken` says that the
      upstream ended with an error. */
  method HandleStream(model: string, parallel: bool, ids: IDSource, chunks: seq<M.Chunk>, broken: bool, emit: Emitter)
    returns (stream: ResponsesStream)
    ensures fresh(stream) && stream.Valid()
    ensures stream.Abs() == M.Drive(M.Env(ids, emit), M.NewStream(model, parallel), chunks, broken)
  {
    hide I.Inv, M.Accept, M.Complete, M.Fail;
    stream := new ResponsesStream(model, parallel, ids);
    ghost var env, start := M.Env(ids, emit), M.NewStream(model, parallel);
    var ok := true;
    for i := 0 to |chunks|
      invariant fresh(stream) && stream.Valid() && stream.ids == ids && ok
      invariant M.AcceptAll(env, start, chunks[..i]) == M.Step(stream.Abs(), true)
    {
      assert chunks[..i + 1][..i] == chunks[..i];
      ok := stream.Accept(chunks[i], Some(emit));
      if !ok {
        RefusedStays(env, start, chunks, i + 1);
        break;
      }
    }
    if ok { assert chunks[..|chunks|] == chunks; }
    if !ok || broken {
      if stream.started { var _ := stream.Failed("gateway_upstream_unavailable", Some(emit)); }
      return;
    }
    var completed := stream.Complete(Some(emit));
    if !completed && stream.started { var _ := stream.Failed("gateway_upstream_unavailable", Some(emit)); }
  }
}
