/** How a run of the handler ends: with `completed` only when every chunk was taken and
    the upstream ended well, otherwise with the upstream failure and the items so far. */
module StreamOutcome {
  import opened Prelude
  import opened Limits
  import opened StreamModel
  import opened StreamInvariant
  import opened StreamTrace
  import opened StreamProject
  import opened StreamFold
  import opened StreamRechunk

  // ----- what is sent before the end -----

  /** Events that finish nothing; arguments are sent only when there are some. */
  predicate IsProgress(body: EventBody) {
    body.CreatedEvent? || body.InProgressEvent? || body.ItemAdded? || body.PartAdded? || body.TextDelta? ||
    (body.ArgumentsDelta? && body.delta != "")
  }

  predicate OnlyProgress(events: seq<Event>) {
    forall e | e in events :: IsProgress(e.body)
  }

  lemma EmitProgress(env: Env, st: State, body: EventBody)
    requires OnlyProgress(st.events) && IsProgress(body)
    ensures OnlyProgress(Emit(env, st, body).st.events)
  {
  }

  lemma StartProgress(env: Env, st: State, created: int)
    requires OnlyProgress(st.events)
    ensures OnlyProgress(Start(env, st, created).st.events)
  {
    hide OnlyProgress;
    var id := env.ids(st.drawn, RespID);
    if id.Some? {
      var begun := st.(drawn := st.drawn + 1, responseID := id.value, createdAt := created, started := true);
      EmitProgress(env, begun, CreatedEvent(Snapshot(begun, InProgress)));
      var first := Emit(env, begun, CreatedEvent(Snapshot(begun, InProgress)));
      EmitProgress(env, first.st, InProgressEvent(Snapshot(first.st, InProgress)));
    }
  }

  lemma TextProgress(env: Env, st: State, delta: string)
    requires OnlyProgress(st.events)
    ensures OnlyProgress(AcceptText(env, st, delta).st.events)
  {
    hide OnlyProgress, OpenText;
    OpenTextProgress(env, st);
    var ready := if st.text.Some? then Step(st, true) else OpenText(env, st);
    if ready.ok && ready.st.text.Some? {
      var text := ready.st.text.value;
      EmitProgress(env, ready.st.(text := Some(text.(text := text.text + delta))),
        TextDelta(text.outputIndex, text.itemID, delta));
    }
  }

  lemma OpenTextProgress(env: Env, st: State)
    requires OnlyProgress(st.events)
    ensures OnlyProgress(OpenText(env, st).st.events)
  {
    hide OnlyProgress;
    var id := env.ids(st.drawn, MsgID);
    if id.Some? {
      var index, item := |st.output|, MessageItem(id.value, InProgress, []);
      var placed := st.(drawn := st.drawn + 1, text := Some(TextState(id.value, index, "")),
                        output := st.output + [item]);
      EmitProgress(env, placed, ItemAdded(index, item));
      EmitProgress(env, Emit(env, placed, ItemAdded(index, item)).st, PartAdded(index, id.value));
    }
  }

  lemma PartsSilent(st: State, call: ToolDelta)
    requires call.index in st.tools
    ensures RecordFunction(st, call).st.events == st.events
    ensures call.id.Some? ==> RecordID(st, call).st.events == st.events
  {
  }

  lemma RecordSilent(st: State, call: ToolDelta)
    ensures Record(st, call).st.events == st.events
  {
    hide RecordFunction, RecordID;
    var found := WithTool(st, call.index);
    PartsSilent(found, call);
    if call.id.Some? && call.index in RecordID(found, call).st.tools {
      PartsSilent(RecordID(found, call).st, call);
    }
  }

  lemma SendProgress(env: Env, st: State, k: int, delta: string)
    requires OnlyProgress(st.events)
    ensures OnlyProgress(EmitArguments(env, st, k, delta).st.events)
  {
    hide OnlyProgress;
    if k in st.tools && st.tools[k].started && delta != "" {
      EmitProgress(env, st, ArgumentsDelta(st.tools[k].outputIndex, st.tools[k].itemID, delta));
    }
  }

  lemma OpenToolProgress(env: Env, st: State, k: int)
    requires OnlyProgress(st.events) && k in st.tools
    ensures OnlyProgress(OpenTool(env, st, k).st.events)
  {
    hide OnlyProgress;
    var id := env.ids(st.drawn, FcID);
    if id.Some? {
      EmitProgress(env, PlaceTool(st, k, id.value),
        ItemAdded(|st.output|, CallItem(id.value, InProgress, st.tools[k].callID, st.tools[k].name, "")));
    }
  }

  lemma ToolProgress(env: Env, st: State, call: ToolDelta)
    requires OnlyProgress(st.events)
    ensures OnlyProgress(AcceptTool(env, st, call).st.events)
  {
    hide OnlyProgress, Record, OpenTool, EmitArguments;
    RecordSilent(st, call);
    var recorded := Record(st, call);
    if recorded.ok && call.index in recorded.st.tools {
      var tool := recorded.st.tools[call.index];
      OpenToolProgress(env, recorded.st, call.index);
      SendProgress(env, OpenTool(env, recorded.st, call.index).st, call.index, tool.arguments);
      SendProgress(env, recorded.st, call.index, DeltaArguments(call));
    }
  }

  lemma {:induction false} OpsProgress(env: Env, st: State, ops: seq<Op>)
    requires OnlyProgress(st.events)
    ensures OnlyProgress(AcceptOps(env, st, ops).st.events)
    decreases |ops|
  {
    hide OnlyProgress, AcceptText, AcceptTool;
    if ops != [] {
      OpsProgress(env, st, ops[..|ops| - 1]);
      var before := AcceptOps(env, st, ops[..|ops| - 1]);
      match ops[|ops| - 1]
      case TextOp(delta) => TextProgress(env, before.st, delta);
      case ToolOp(call) => ToolProgress(env, before.st, call);
    }
  }

  lemma ChunkProgress(env: Env, st: State, chunk: Chunk)
    requires OnlyProgress(st.events)
    ensures OnlyProgress(Accept(env, st, chunk).st.events)
  {
    hide OnlyProgress, Start, AcceptOps, ValidChunk;
    StartProgress(env, st, chunk.created);
    var begun := if st.started then Step(st, true) else Start(env, st, chunk.created);
    OpsProgress(env, WithUsage(begun.st, chunk.usage), ChunkOps(chunk));
  }

  /** Accepting chunks, whatever happens, sends no done event and no terminal event, and
      the stream keeps the model and the flag it was made with. */
  lemma {:induction false} ChunksProgress(env: Env, model: string, parallel: bool, chunks: seq<Chunk>)
    ensures var st := AcceptAll(env, NewStream(model, parallel), chunks).st;
            OnlyProgress(st.events) && st.model == model && st.parallel == parallel && Inv(st)
    decreases |chunks|
  {
    hide OnlyProgress, Accept, Inv;
    if chunks == [] {
      NewProgress(model, parallel);
    } else {
      var n := |chunks| - 1;
      ChunksProgress(env, model, parallel, chunks[..n]);
      var before := AcceptAll(env, NewStream(model, parallel), chunks[..n]);
      ChunkProgress(env, before.st, chunks[n]);
      AcceptKeeps(env, before.st, chunks[n]);
    }
  }

  lemma NewProgress(model: string, parallel: bool)
    ensures OnlyProgress(NewStream(model, parallel).events) && Inv(NewStream(model, parallel))
  {
  }

  // ----- how it begins -----

  /** The response both opening events carry. */
  function Opening(env: Env, model: string, parallel: bool, created: int): Response
    requires env.ids(0, RespID).Some?
  {
    Response(env.ids(0, RespID).value, created, InProgress, None, model, [], parallel, None)
  }

  /** The events begin with the opening pair, as far as it was sent. */
  ghost predicate Opened(env: Env, model: string, parallel: bool, chunks: seq<Chunk>, events: seq<Event>) {
    && chunks != [] && env.ids(0, RespID).Some? && events != []
    && events[0] == Event(1, CreatedEvent(Opening(env, model, parallel, chunks[0].created)))
    && (|events| > 1 ==> events[1] == Event(2, InProgressEvent(Opening(env, model, parallel, chunks[0].created))))
  }

  lemma FirstChunkOpens(env: Env, model: string, parallel: bool, chunk: Chunk)
    requires Accept(env, NewStream(model, parallel), chunk).st.started
    ensures Opened(env, model, parallel, [chunk], Accept(env, NewStream(model, parallel), chunk).st.events)
  {
    hide AcceptOps;
    var st := NewStream(model, parallel);
    var begun := Start(env, st, chunk.created);
    if begun.ok {
      StartKeeps(env, st, chunk.created);
      UsageKeeps(begun.st, chunk.usage);
      if ValidChunk(chunk, model) { ChunkOpsValid(chunk, model); }
      AcceptOpsKeeps(env, WithUsage(begun.st, chunk.usage), ChunkOps(chunk));
    }
  }

  lemma {:induction false} ChunksOpen(env: Env, model: string, parallel: bool, chunks: seq<Chunk>)
    requires AcceptAll(env, NewStream(model, parallel), chunks).st.started
    ensures Opened(env, model, parallel, chunks, AcceptAll(env, NewStream(model, parallel), chunks).st.events)
    decreases |chunks|
  {
    hide Accept, Inv, Knows, Opened;
    var n := |chunks| - 1;
    if n == 0 {
      assert chunks == [chunks[0]] && chunks[..0] == [];
      FirstChunkOpens(env, model, parallel, chunks[0]);
    } else if n > 0 {
      var before := AcceptAll(env, NewStream(model, parallel), chunks[..n]);
      if before.ok { RunKnowsStarted(env, model, parallel, chunks[..n]); }
      ChunksOpen(env, model, parallel, chunks[..n]);
      if before.ok {
        BothOpeningsSent(env, model, parallel, chunks[..n]);
        ChunksProgress(env, model, parallel, chunks[..n]);
        AcceptKeeps(env, before.st, chunks[n]);
        OpenedMore(env, model, parallel, chunks, n, before.st, Accept(env, before.st, chunks[n]).st);
      } else {
        OpenedSame(env, model, parallel, chunks, n, before.st.events);
      }
    }
  }

  lemma OpenedSame(env: Env, model: string, parallel: bool, chunks: seq<Chunk>, n: nat, events: seq<Event>)
    requires 0 < n <= |chunks| && Opened(env, model, parallel, chunks[..n], events)
    ensures Opened(env, model, parallel, chunks, events)
  {
  }

  lemma OpenedMore(env: Env, model: string, parallel: bool, chunks: seq<Chunk>, n: nat, st: State, st': State)
    requires 0 < n <= |chunks| && Opened(env, model, parallel, chunks[..n], st.events) && |st.events| >= 2
    requires Extends(st, st')
    ensures Opened(env, model, parallel, chunks, st'.events)
  {
    assert st'.events[0] == st.events[0] && st'.events[1] == st.events[1];
  }

  lemma BothOpeningsSent(env: Env, model: string, parallel: bool, chunks: seq<Chunk>)
    requires AcceptAll(env, NewStream(model, parallel), chunks).ok
    requires AcceptAll(env, NewStream(model, parallel), chunks).st.started
    ensures |AcceptAll(env, NewStream(model, parallel), chunks).st.events| >= 2
  {
    hide AcceptAll, Inv, View, Replay, Items;
    AcceptedRunIsInStep(env, model, parallel, chunks);
  }

  lemma RunKnowsStarted(env: Env, model: string, parallel: bool, chunks: seq<Chunk>)
    requires AcceptAll(env, NewStream(model, parallel), chunks).ok && chunks != []
    ensures AcceptAll(env, NewStream(model, parallel), chunks).st.started
  {
    hide AcceptAll, Inv, Holds;
    RunKnows(env, model, parallel, chunks);
  }

  // ----- a run that is cut short -----

  /** The response of the failure event, field by field. */
  function UpstreamFailure(st: State, model: string, parallel: bool): Response {
    Response(st.responseID, st.createdAt, Failed, Some("gateway_upstream_unavailable"), model, st.output, parallel,
             st.usage)
  }

  lemma AbortSays(env: Env, st: State)
    requires st.started && !st.terminal && st.sequence == |st.events|
    ensures var final := Abort(env, st);
            && final.events == st.events +
                 [Event(|st.events| + 1, FailedEvent(UpstreamFailure(st, st.model, st.parallel)))]
            && final == st.(terminal := true, sequence := st.sequence + 1, events := final.events)
  {
  }

  /** The state after the accepted chunks, and after the one that was refused. */
  lemma AcceptedSoFar(env: Env, model: string, parallel: bool, chunks: seq<Chunk>)
    ensures var st := AcceptAll(env, NewStream(model, parallel), chunks).st;
            if st.started then !st.terminal && st.sequence == |st.events| && CanStillFail(st) else st.events == []
  {
    hide Inv, Receive, AcceptAll, View, InStep, Items, Replay;
    NewProgress(model, parallel);
    AcceptAllFollows(env, NewStream(model, parallel), chunks);
  }

  /** When the upstream breaks off, or a chunk is refused or cannot be delivered, a
      started stream ends at once: after the progress events one failure that says the
      upstream is unavailable and holds the items and the usage so far. Nothing is
      finished, and nothing at all is sent on a stream that had not started. */
  lemma CutShortRunFails(env: Env, model: string, parallel: bool, chunks: seq<Chunk>, broken: bool)
    requires broken || !AcceptAll(env, NewStream(model, parallel), chunks).ok
    ensures var st := AcceptAll(env, NewStream(model, parallel), chunks).st;
            var final := Drive(env, NewStream(model, parallel), chunks, broken);
            && OnlyProgress(st.events)
            && final.events == st.events + (if st.started then
                 [Event(|st.events| + 1, FailedEvent(UpstreamFailure(st, model, parallel)))] else [])
            && (!st.started ==> final.events == [])
            && UpstreamFailure(final, model, parallel) == UpstreamFailure(st, model, parallel)
  {
    hide OnlyProgress, AcceptAll, Complete, Inv;
    ChunksProgress(env, model, parallel, chunks);
    AcceptedSoFar(env, model, parallel, chunks);
    var st := AcceptAll(env, NewStream(model, parallel), chunks).st;
    if st.started { AbortSays(env, st); }
  }

  // ----- a run that says completed -----

  /** The response says all that the chunks say. */
  ghost predicate SaysAll(r: Response, model: string, parallel: bool, chunks: seq<Chunk>) {
    && chunks != [] && r.createdAt == chunks[0].created && r.status == Completed && r.error.None? && r.model == model
    && r.parallel == parallel && r.usage == LastUsage(chunks) && |r.output| == |Layout(AllOps(chunks))|
    && TextFirst(r.output) ==
         MeantMessages(AllOps(chunks)) + MeantCalls(FoldedCalls(AllOps(chunks), StartOrder(AllOps(chunks))))
  }

  /** When Complete reaches its last event, that event says all that the chunks say. */
  lemma TerminalSaysAll(env: Env, model: string, parallel: bool, chunks: seq<Chunk>)
    requires AcceptAll(env, NewStream(model, parallel), chunks).ok
    requires Complete(env, Accepted(env, model, parallel, chunks)).st.terminal
    ensures var st := Complete(env, Accepted(env, model, parallel, chunks)).st;
            && st.events != [] && st.events[|st.events| - 1].body.CompletedEvent?
            && SaysAll(st.events[|st.events| - 1].body.response, model, parallel, chunks)
  {
    hide AcceptAll, Complete, InStep, Holds, TextFirst, LastUsage, AllOps, Layout, MeantMessages, MeantCalls,
         FoldedCalls, Inv, Awaiting;
    var st := Accepted(env, model, parallel, chunks);
    RunKnows(env, model, parallel, chunks);
    if !st.started { CompleteUnstarted(env, st); }
    AcceptedRunIsInStep(env, model, parallel, chunks);
    CompleteFollows(env, st);
    CompletedEnvelope(env, st);
    FinishedOutput(st, AllOps(chunks));
    HoldsLength(st, AllOps(chunks));
  }

  lemma NotTerminated(st: State)
    requires CanStillFail(st)
    ensures forall e | e in st.events :: !IsTerminal(e.body)
  {
    hide Inv, Items, Receive, Replay;
    forall p | 0 <= p < |st.events| ensures !IsTerminal(st.events[p].body) {
      if p + 1 < |st.events| {
        TerminalIsLast(st.events, p);
      } else {
        ReplayCounts(st.events, 0);
      }
    }
  }

  /** A terminal event is the last one of its run. */
  lemma EndIsLast(env: Env, model: string, parallel: bool, chunks: seq<Chunk>, broken: bool, p: nat)
    requires p < |Drive(env, NewStream(model, parallel), chunks, broken).events|
    requires IsTerminal(Drive(env, NewStream(model, parallel), chunks, broken).events[p].body)
    ensures p == |Drive(env, NewStream(model, parallel), chunks, broken).events| - 1
  {
    hide Drive, Receive, Replay;
    EveryRunFollowsGrammar(env, model, parallel, chunks, broken);
    var events := Drive(env, NewStream(model, parallel), chunks, broken).events;
    if p + 1 < |events| { TerminalIsLast(events, p); }
  }

  /** What comes after Complete: its own last event, or the failure. */
  lemma AfterComplete(env: Env, model: string, parallel: bool, chunks: seq<Chunk>)
    requires AcceptAll(env, NewStream(model, parallel), chunks).ok
    ensures var st := Complete(env, Accepted(env, model, parallel, chunks)).st;
            var final := Drive(env, NewStream(model, parallel), chunks, false);
            && (st.terminal ==> final == st)
            && (st.started && !st.terminal ==>
                  && (forall e | e in st.events :: !IsTerminal(e.body)) && st.model == model && st.parallel == parallel
                  && final.events == st.events +
                       [Event(|st.events| + 1, FailedEvent(UpstreamFailure(st, model, parallel)))])
            && (!st.started ==> final.events == [])
            && UpstreamFailure(final, model, parallel) == UpstreamFailure(st, model, parallel)
  {
    hide AcceptAll, Complete, Inv, InStep, Receive, Replay, View, Items, Awaiting, AcceptTracked, Snapshot;
    var accepted := Accepted(env, model, parallel, chunks);
    AcceptedSoFar(env, model, parallel, chunks);
    ChunksProgress(env, model, parallel, chunks);
    if accepted.started {
      AcceptedRunIsInStep(env, model, parallel, chunks);
      CompleteFollows(env, accepted);
      CompletedEnvelope(env, accepted);
      var st := Complete(env, accepted).st;
      if st.terminal {
        TerminalAborts(env, st);
      } else {
        NotTerminated(st);
        AbortSays(env, st);
      }
    } else {
      CompleteUnstarted(env, accepted);
    }
  }

  lemma TerminalAborts(env: Env, st: State)
    requires st.terminal
    ensures Abort(env, st) == st
  {
  }

  /** `completed` is sent only when the upstream ended well and every chunk, with every
      delta in it, was taken; and then it says all that they said. */
  lemma CompletedMeansWhole(env: Env, model: string, parallel: bool, chunks: seq<Chunk>, broken: bool, p: nat)
    requires p < |Drive(env, NewStream(model, parallel), chunks, broken).events|
    requires Drive(env, NewStream(model, parallel), chunks, broken).events[p].body.CompletedEvent?
    ensures !broken && AcceptAll(env, NewStream(model, parallel), chunks).ok
    ensures SaysAll(Drive(env, NewStream(model, parallel), chunks, broken).events[p].body.response, model, parallel,
                    chunks)
  {
    hide AcceptAll, Complete, Drive, SaysAll;
    EndIsLast(env, model, parallel, chunks, broken, p);
    if broken || !AcceptAll(env, NewStream(model, parallel), chunks).ok {
      CutShortRunFails(env, model, parallel, chunks, broken);
    } else {
      AfterComplete(env, model, parallel, chunks);
      if Complete(env, Accepted(env, model, parallel, chunks)).st.terminal {
        TerminalSaysAll(env, model, parallel, chunks);
      }
    }
  }

  /** Every failure event is the upstream failure with the fields the stream ended in. */
  lemma FailureSaysUnavailable(env: Env, model: string, parallel: bool, chunks: seq<Chunk>, broken: bool, p: nat)
    requires p < |Drive(env, NewStream(model, parallel), chunks, broken).events|
    requires Drive(env, NewStream(model, parallel), chunks, broken).events[p].body.FailedEvent?
    ensures var final := Drive(env, NewStream(model, parallel), chunks, broken);
            final.events[p].body.response == UpstreamFailure(final, model, parallel)
  {
    hide AcceptAll, Complete, OnlyProgress, Inv, Drive, SaysAll, UpstreamFailure;
    EndIsLast(env, model, parallel, chunks, broken, p);
    if broken || !AcceptAll(env, NewStream(model, parallel), chunks).ok {
      CutShortRunFails(env, model, parallel, chunks, broken);
    } else {
      AfterComplete(env, model, parallel, chunks);
      var completed := Complete(env, Accepted(env, model, parallel, chunks)).st;
      if completed.terminal { TerminalSaysAll(env, model, parallel, chunks); }
    }
  }

  /** With working callbacks a run ends in `completed` exactly when the upstream ended
      well, something was sent, all of it is acceptable, and every tool that was
      mentioned got an id and a name. Otherwise it ends in the upstream failure, unless
      the first chunk was refused already. */
  lemma ReliableRunEnds(env: Env, model: string, parallel: bool, chunks: seq<Chunk>, broken: bool)
    requires Reliable(env)
    ensures var final := Drive(env, NewStream(model, parallel), chunks, broken);
            && ((final.events != [] && final.events[|final.events| - 1].body.CompletedEvent?) <==>
                  && !broken && chunks != [] && ValidRun(chunks, model) && Acceptable(AllOps(chunks))
                  && forall k | Mentions(AllOps(chunks), k) :: Identified(AllOps(chunks), k))
            && (final.events != [] ==> IsTerminal(final.events[|final.events| - 1].body))
  {
    hide AcceptAll, Complete, Drive, SaysAll, Acceptable, ValidRun, Mentions, Identified, AllOps, Replay, Receive;
    var final := Drive(env, NewStream(model, parallel), chunks, broken);
    EveryRunFollowsGrammar(env, model, parallel, chunks, broken);
    if final.events != [] {
      ReplayCounts(final.events, 0);
      if final.events[|final.events| - 1].body.CompletedEvent? {
        CompletedMeansWhole(env, model, parallel, chunks, broken, |final.events| - 1);
        CompletedRunSucceeded(env, model, parallel, chunks);
      }
    }
    SucceedsIff(env, model, parallel, chunks);
    if !broken && Succeeds(env, model, parallel, chunks) { SuccessfulRunSaysSo(env, model, parallel, chunks); }
  }

  lemma CompletedRunSucceeded(env: Env, model: string, parallel: bool, chunks: seq<Chunk>)
    requires Reliable(env) && AcceptAll(env, NewStream(model, parallel), chunks).ok
    requires var events := Drive(env, NewStream(model, parallel), chunks, false).events;
             events != [] && events[|events| - 1].body.CompletedEvent?
    ensures Succeeds(env, model, parallel, chunks)
  {
    hide AcceptAll, Drive, Inv, Complete, InStep;
    AfterComplete(env, model, parallel, chunks);
    var st := Accepted(env, model, parallel, chunks);
    AcceptedSoFar(env, model, parallel, chunks);
    if st.started {
      CompletedIff(env, st);
      ReachedTheEnd(env, st);
    } else {
      CompleteUnstarted(env, st);
    }
  }

  lemma ReachedTheEnd(env: Env, st: State)
    requires Complete(env, st).st.terminal && !st.terminal
    ensures st.started && AllToolsStarted(st)
  {
    CompleteTextEnvelope(env, st);
    CompleteToolsEnvelope(env, CompleteText(env, st).st, ToolsBySlot(st, |st.output|));
    hide CompleteText, CompleteTools;
  }

  lemma SuccessfulRunSaysSo(env: Env, model: string, parallel: bool, chunks: seq<Chunk>)
    requires Succeeds(env, model, parallel, chunks)
    ensures var events := Drive(env, NewStream(model, parallel), chunks, false).events;
            events != [] && events[|events| - 1].body.CompletedEvent?
  {
    hide AcceptAll, Complete, SaysAll, Inv;
    var st := Accepted(env, model, parallel, chunks);
    SuccessNeedsChunks(env, model, parallel, chunks);
    CompleteFollows(env, st);
    TerminalSaysAll(env, model, parallel, chunks);
  }

  // ----- the opening pair in the whole log -----

  lemma CompleteExtends(env: Env, st: State)
    requires Inv(st)
    ensures st.events <= Complete(env, st).st.events
  {
    hide Inv, Complete;
    CompleteKeeps(env, st);
  }

  /** A log that is not empty begins with `created`, and goes on with `in_progress` or
      with the failure; both openings carry the first chunk's time, no items, no error
      and no usage. */
  lemma RunOpens(env: Env, model: string, parallel: bool, chunks: seq<Chunk>, broken: bool)
    ensures var events := Drive(env, NewStream(model, parallel), chunks, broken).events;
            events != [] ==>
              && chunks != [] && env.ids(0, RespID).Some?
              && var response := Opening(env, model, parallel, chunks[0].created);
                 && events[0] == Event(1, CreatedEvent(response))
                 && (|events| > 1 ==> events[1] == Event(2, InProgressEvent(response)) || events[1].body.FailedEvent?)
  {
    hide AcceptAll, Complete, Inv, OnlyProgress, Opening, Drive;
    var start := NewStream(model, parallel);
    var st := AcceptAll(env, start, chunks).st;
    AcceptedSoFar(env, model, parallel, chunks);
    ChunksProgress(env, model, parallel, chunks);
    if broken || !AcceptAll(env, start, chunks).ok {
      CutShortRunFails(env, model, parallel, chunks, broken);
      if st.started { ChunksOpen(env, model, parallel, chunks); }
    } else {
      AfterComplete(env, model, parallel, chunks);
      CompleteExtends(env, st);
      if st.started {
        ChunksOpen(env, model, parallel, chunks);
        BothOpeningsSent(env, model, parallel, chunks);
        CompletedEnvelope(env, st);
      } else {
        CompleteUnstarted(env, st);
      }
    }
  }
}
