/** Which cuts are harmless. Text deltas may be cut anywhere; the argument deltas of a
    tool call are checked one by one, so a cut must not split a character. */
module StreamCuts {
  import opened Prelude
  import opened Limits
  import Utf8
  import opened StreamModel
  import opened StreamInvariant
  import opened StreamTrace
  import opened StreamProject
  import opened StreamFold
  import opened StreamRechunk

  // ----- a run validates delta by delta -----

  /** What validateResponseChunk asks of a chunk besides its tool deltas. */
  predicate EnvelopeOk(chunk: Chunk, model: string) {
    && chunk.model == model && chunk.created >= 0 && |chunk.choices| <= 1
    && (|chunk.choices| == 1 ==> chunk.choices[0].index == 0)
  }

  ghost predicate EnvelopesOk(chunks: seq<Chunk>, model: string) {
    forall chunk | chunk in chunks :: EnvelopeOk(chunk, model)
  }

  lemma ChunkValidIff(chunk: Chunk, model: string)
    ensures ValidChunk(chunk, model) <==> EnvelopeOk(chunk, model) && ValidOps(ChunkOps(chunk))
  {
    hide ValidToolDelta;
    if |chunk.choices| == 1 {
      var calls := chunk.choices[0].toolCalls;
      var head := if chunk.choices[0].content.Some? then [TextOp(chunk.choices[0].content.value)] else [];
      assert ChunkOps(chunk) == head + ToolOps(calls);
      forall call | call in calls ensures ToolOp(call) in ChunkOps(chunk) {
        var i :| 0 <= i < |calls| && calls[i] == call;
        assert ToolOps(calls)[i] == ToolOp(call) && ToolOps(calls)[i] in ToolOps(calls);
      }
    }
  }

  lemma ValidOpsConcat(a: seq<Op>, b: seq<Op>)
    ensures ValidOps(a + b) <==> ValidOps(a) && ValidOps(b)
  {
    hide ValidOp;
    assert forall op | op in a || op in b :: op in a + b;
  }

  lemma EnvelopesOkSnoc(chunks: seq<Chunk>, chunk: Chunk, model: string)
    ensures EnvelopesOk(chunks + [chunk], model) <==> EnvelopesOk(chunks, model) && EnvelopeOk(chunk, model)
  {
    hide EnvelopeOk;
    assert forall c | c in chunks :: c in chunks + [chunk];
    assert chunk in chunks + [chunk];
  }

  lemma {:induction false} ValidRunIff(chunks: seq<Chunk>, model: string)
    ensures ValidRun(chunks, model) <==> EnvelopesOk(chunks, model) && ValidOps(AllOps(chunks))
    decreases |chunks|
  {
    hide ValidChunk, EnvelopeOk, ValidOp, ChunkOps;
    if chunks != [] {
      var n := |chunks| - 1;
      assert chunks == chunks[..n] + [chunks[n]];
      ValidRunIff(chunks[..n], model);
      ValidRunSnoc(chunks[..n], chunks[n], model);
      EnvelopesOkSnoc(chunks[..n], chunks[n], model);
      RunSnoc(chunks[..n], chunks[n]);
      ValidOpsConcat(AllOps(chunks[..n]), ChunkOps(chunks[n]));
      ChunkValidIff(chunks[n], model);
    }
  }

  // ----- one cut -----

  /** The cut of a tool delta falls between two characters of its arguments. */
  predicate SplitsNoCharacter(whole: Op, first: Op) {
    whole.ToolOp? && first.ToolOp? ==> Utf8.Boundary(DeltaArguments(whole.call), |DeltaArguments(first.call)|)
  }

  predicate TypeOk(op: Op) {
    op.ToolOp? && op.call.typ.Some? ==> op.call.typ.value == "function"
  }

  /** The parts of ValidToolDelta that only look at the arguments. */
  predicate ArgumentsOk(arguments: string) {
    Utf8.Valid(arguments) && |arguments| <= 262144
  }

  lemma ToolDeltaParts(call: ToolDelta)
    ensures ValidToolDelta(call) <==>
            && 0 <= call.index < 64 && TypeOk(ToolOp(call)) && ArgumentsOk(DeltaArguments(call))
            && (call.id.Some? ==> ValidCallID(call.id.value))
            && (DeltaName(call).Some? ==> ValidFunctionName(DeltaName(call).value))
  {
    hide ValidCallID, ValidFunctionName;
    assert Utf8.Valid("");
  }

  /** The pieces of a validated delta validate exactly when the cut splits no character. */
  lemma PiecesValidIff(whole: Op, first: Op, second: Op)
    requires Pieces(whole, first, second) && ValidOp(whole) && TypeOk(first) && TypeOk(second)
    ensures ValidOp(first) && ValidOp(second) <==> SplitsNoCharacter(whole, first)
  {
    if whole.ToolOp? {
      hide ValidCallID, ValidFunctionName, ValidToolDelta, Utf8.Valid;
      ToolDeltaParts(whole.call);
      ToolDeltaParts(first.call);
      ToolDeltaParts(second.call);
      var arguments, i := DeltaArguments(whole.call), |DeltaArguments(first.call)|;
      assert arguments[..i] == DeltaArguments(first.call) && arguments[i..] == DeltaArguments(second.call);
      Utf8.ValidCut(arguments, i);
    }
  }

  lemma CutValidOps(less: seq<Op>, more: seq<Op>, at: nat, whole: Op, first: Op, second: Op)
    requires CutAt(less, more, at, whole, first, second)
    ensures ValidOps(less) <==> ValidOps(less[..at]) && ValidOp(whole) && ValidOps(less[at + 1..])
    ensures ValidOps(more) <==> ValidOps(less[..at]) && ValidOp(first) && ValidOp(second) && ValidOps(less[at + 1..])
  {
    hide ValidOp, Pieces;
    assert less == less[..at] + [whole] + less[at + 1..];
    ValidOpsConcat(less[..at] + [whole], less[at + 1..]);
    ValidOpsConcat(less[..at], [whole]);
    ValidOpsConcat(less[..at] + [first, second], less[at + 1..]);
    ValidOpsConcat(less[..at], [first, second]);
  }

  /** Cutting one delta of a run that succeeds, and regrouping the deltas into any
      well-formed chunks: the run still succeeds, with the same response, exactly when
      the cut splits no character of a tool's arguments. */
  lemma CutSucceedsIff(env: Env, model: string, parallel: bool, a: seq<Chunk>, b: seq<Chunk>, at: nat, whole: Op,
      first: Op, second: Op)
    requires Reliable(env) && a != [] && b != [] && Succeeds(env, model, parallel, a)
    requires a[0].created == b[0].created && LastUsage(a) == LastUsage(b) && EnvelopesOk(b, model)
    requires CutAt(AllOps(a), AllOps(b), at, whole, first, second) && TypeOk(first) && TypeOk(second)
    ensures Succeeds(env, model, parallel, b) <==> SplitsNoCharacter(whole, first)
    ensures Succeeds(env, model, parallel, b) ==>
              CompletedResponse(env, model, parallel, a) == CompletedResponse(env, model, parallel, b)
  {
    hide Succeeds, CompletedResponse, ValidRun, AllOps, ValidOps, ValidOp, LastUsage, Acceptable;
    var lists := [AllOps(a), AllOps(b)];
    assert CutOnce(lists[0], lists[1]);
    RechunkingDoesNotMatter(env, model, parallel, a, b, lists);
    SucceedsIff(env, model, parallel, a);
    ValidRunIff(a, model);
    ValidRunIff(b, model);
    CutValidOps(AllOps(a), AllOps(b), at, whole, first, second);
    PiecesValidIff(whole, first, second);
  }

  /** Undoing a cut is always harmless. */
  lemma JoinSucceeds(env: Env, model: string, parallel: bool, a: seq<Chunk>, b: seq<Chunk>, at: nat, whole: Op,
      first: Op, second: Op)
    requires Reliable(env) && a != [] && b != [] && Succeeds(env, model, parallel, b)
    requires a[0].created == b[0].created && LastUsage(a) == LastUsage(b) && EnvelopesOk(a, model)
    requires CutAt(AllOps(a), AllOps(b), at, whole, first, second) && TypeOk(whole)
    ensures Succeeds(env, model, parallel, a)
    ensures CompletedResponse(env, model, parallel, a) == CompletedResponse(env, model, parallel, b)
  {
    hide Succeeds, CompletedResponse, ValidRun, AllOps, ValidOps, ValidOp, LastUsage, Acceptable;
    var lists := [AllOps(a), AllOps(b)];
    assert CutOnce(lists[0], lists[1]);
    RechunkingDoesNotMatter(env, model, parallel, a, b, lists);
    SucceedsIff(env, model, parallel, b);
    ValidRunIff(a, model);
    ValidRunIff(b, model);
    CutValidOps(AllOps(a), AllOps(b), at, whole, first, second);
    CutSameDeltas(AllOps(a), AllOps(b));
    SameDeltasAcceptable(AllOps(a), AllOps(b));
    WholeFits(AllOps(a), at);
    JoinedIsOk(whole, first, second);
  }

  /** One delta's arguments are part of its tool's. */
  lemma {:induction false} WholeFits(ops: seq<Op>, at: nat)
    requires at < |ops| && Acceptable(ops)
    ensures ops[at].ToolOp? ==> |DeltaArguments(ops[at].call)| <= MAX_ARGUMENTS_BYTES
  {
    if ops[at].ToolOp? {
      var k := ops[at].call.index;
      ArgumentsPart(ops, at, k);
      assert |ArgumentsFor(ops, k)| <= MAX_ARGUMENTS_BYTES;
    }
  }

  lemma {:induction false} ArgumentsPart(ops: seq<Op>, at: nat, k: int)
    requires at < |ops| && IsFor(ops[at], k)
    ensures |DeltaArguments(ops[at].call)| <= |ArgumentsFor(ops, k)|
    decreases |ops|
  {
    if at < |ops| - 1 { ArgumentsPart(ops[..|ops| - 1], at, k); }
  }

  lemma JoinedIsOk(whole: Op, first: Op, second: Op)
    requires Pieces(whole, first, second) && ValidOp(first) && ValidOp(second) && TypeOk(whole)
    requires whole.ToolOp? ==> |DeltaArguments(whole.call)| <= MAX_ARGUMENTS_BYTES
    ensures ValidOp(whole)
  {
    if whole.ToolOp? {
      hide ValidCallID, ValidFunctionName, ValidToolDelta, Utf8.Valid;
      ToolDeltaParts(whole.call);
      ToolDeltaParts(first.call);
      ToolDeltaParts(second.call);
      Utf8.ValidJoin(DeltaArguments(first.call), DeltaArguments(second.call));
    }
  }

  // ----- a run that does not survive a cut -----

  const E_ACUTE := [0xC3 as char, 0xA9 as char]

  function OneCall(id: Option<string>, name: Option<string>, arguments: string): ToolDelta {
    ToolDelta(0, id, None, Some(FunctionDelta(name, Some(arguments))))
  }

  function OneChunk(calls: seq<ToolDelta>): seq<Chunk> {
    [Chunk(0, "m", [Choice(0, None, calls)], None)]
  }

  const WHOLE := OneCall(Some("a"), Some("f"), E_ACUTE)
  const FIRST_HALF := OneCall(Some("a"), Some("f"), E_ACUTE[..1])
  const SECOND_HALF := OneCall(None, None, E_ACUTE[1..])

  /** A run of one call whose argument is one two-byte character succeeds whole and
      fails when the character is cut. */
  lemma CuttingACharacterIsRefused(env: Env, parallel: bool)
    requires Reliable(env)
    ensures Succeeds(env, "m", parallel, OneChunk([WHOLE]))
    ensures !Succeeds(env, "m", parallel, OneChunk([FIRST_HALF, SECOND_HALF]))
  {
    hide Succeeds, Acceptable, ValidRun, AllOps, CutAt, Pieces, LastUsage;
    var a, b := OneChunk([WHOLE]), OneChunk([FIRST_HALF, SECOND_HALF]);
    OneChunkRun([WHOLE]);
    OneChunkRun([FIRST_HALF, SECOND_HALF]);
    WholeSucceeds(env, parallel);
    TheCut();
    CutSucceedsIff(env, "m", parallel, a, b, 0, ToolOp(WHOLE), ToolOp(FIRST_HALF), ToolOp(SECOND_HALF));
  }

  lemma TheCut()
    ensures CutAt(ToolOps([WHOLE]), ToolOps([FIRST_HALF, SECOND_HALF]), 0,
                  ToolOp(WHOLE), ToolOp(FIRST_HALF), ToolOp(SECOND_HALF))
    ensures !SplitsNoCharacter(ToolOp(WHOLE), ToolOp(FIRST_HALF))
  {
    assert E_ACUTE[..1] + E_ACUTE[1..] == E_ACUTE;
  }

  lemma OneChunkRun(calls: seq<ToolDelta>)
    ensures AllOps(OneChunk(calls)) == ToolOps(calls) && LastUsage(OneChunk(calls)) == None
    ensures EnvelopesOk(OneChunk(calls), "m")
  {
    assert OneChunk(calls)[..0] == [] && [] + OneChunk(calls) == OneChunk(calls);
    RunSnoc([], OneChunk(calls)[0]);
    assert [] + ToolOps(calls) == ToolOps(calls);
  }

  lemma WholeSucceeds(env: Env, parallel: bool)
    requires Reliable(env)
    ensures Succeeds(env, "m", parallel, OneChunk([WHOLE]))
  {
    hide Succeeds, ValidRun, Acceptable, AllOps, LastUsage;
    var op := ToolOp(WHOLE);
    OneChunkRun([WHOLE]);
    assert ToolOps([WHOLE]) == [op];
    SingleIsAcceptable(op);
    WholeIsValid();
    ValidRunIff(OneChunk([WHOLE]), "m");
    SucceedsIff(env, "m", parallel, OneChunk([WHOLE]));
  }

  lemma SingleIsAcceptable(op: Op)
    requires op == ToolOp(WHOLE)
    ensures Acceptable([op]) && forall k | Mentions([op], k) :: Identified([op], k)
  {
    assert [] + [op] == [op];
    GivenSnoc([], op);
    forall k
      ensures |ArgumentsFor([op], k)| <= 2 && |TextOf([op])| == 0
      ensures Mentions([op], k) ==> Identified([op], k)
    {
      MeaningSnoc([], op, k);
    }
    assert |TextOf([op])| == 0 by { MeaningSnoc([], op, 0); }
  }

  lemma WholeIsValid()
    ensures ValidToolDelta(WHOLE)
  {
    assert Utf8.RuneSize(E_ACUTE, 0) == 2 && Utf8.ValidFrom(E_ACUTE, 2);
    assert Utf8.ValidFrom("a", 1) && Utf8.Valid("a");
  }
}
