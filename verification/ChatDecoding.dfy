/** What each message of a chat request is decoded to, said about its fields and in
    numbers: which are refused, with which error, and what becomes of the others. */
module ChatDecoding {
  import opened Prelude
  import opened Limits
  import opened Conversation
  import opened UpstreamRoundTrip
  import Utf8

  /** A text of at most a mebibyte. */
  predicate FitsText(text: string) {
    Utf8.Valid(text) && |text| <= 1048576
  }

  /** A message of the system, the developer or the user. Its calls are dropped; null for
      its content reads as the empty text; only a user may send parts. */
  predicate ReadsPlain(w: Wire, mediaOk: string -> bool, m: Message) {
    && w.reasoning == None && w.details == NoDetails
    && m.toolCalls == [] && m.toolCallID == w.toolCallID && m.reasoning == None
    && (|| (w.content == Null && m.content == Text(""))
        || (w.content.JsonText? && FitsText(w.content.text) && m.content == Text(w.content.text))
        || (w.role == "user" && w.content.JsonParts? && mediaOk(w.content.raw) && m.content == Parts(w.content.raw)))
    && (|| (w.role == "system" && m.role == System)
        || (w.role == "developer" && m.role == Developer)
        || (w.role == "user" && m.role == User))
  }

  /** A call of a function with at most 262144 bytes of arguments. */
  predicate ReadsCall(w: WireCall, call: ToolCall) {
    && w.typ == "function" && Utf8.Valid(w.arguments) && |w.arguments| <= 262144
    && call.id == w.id && call.name == w.name && call.arguments == w.arguments
  }

  /** A message of the assistant: null is no content, its calls are kept in order, and
      valid reasoning details are dropped. */
  predicate ReadsAssistant(w: Wire, m: Message) {
    && w.role == "assistant" && m.role == Assistant && w.details != BadDetails
    && (w.reasoning.Some? ==> FitsText(w.reasoning.value)) && m.reasoning == w.reasoning
    && m.toolCallID == w.toolCallID
    && |m.toolCalls| == |w.toolCalls| &&
         (forall k | 0 <= k < |w.toolCalls| :: ReadsCall(w.toolCalls[k], m.toolCalls[k]))
    && (|| (w.content == Null && m.content == NoContent)
        || (w.content.JsonText? && FitsText(w.content.text) && m.content == Text(w.content.text)))
  }

  /** The answer of a tool. */
  predicate ReadsTool(w: Wire, m: Message) {
    && w.role == "tool" && m.role == Tool && w.reasoning == None && w.details == NoDetails
    && m.toolCalls == [] && m.toolCallID == w.toolCallID && m.reasoning == None
    && (|| (w.content == Null && m.content == Text(""))
        || (w.content.JsonText? && FitsText(w.content.text) && m.content == Text(w.content.text)))
  }

  /** Too large, rather than invalid, is a tool's text over a mebibyte, and an assistant's
      message that is in order but for its calls, the first bad one of which is too long. */
  predicate TooLarge(w: Wire) {
    || (w.role == "tool" && w.reasoning == None && w.details == NoDetails && w.content.JsonText?
        && Utf8.Valid(w.content.text) && |w.content.text| > 1048576)
    || (w.role == "assistant" && w.details != BadDetails
        && (w.reasoning.Some? ==> FitsText(w.reasoning.value))
        && (w.content == Null || (w.content.JsonText? && FitsText(w.content.text)))
        && exists k | 0 <= k < |w.toolCalls| :: TooLongFirst(w.toolCalls, k))
  }

  predicate GoodCall(w: WireCall) {
    w.typ == "function" && Utf8.Valid(w.arguments) && |w.arguments| <= 262144
  }

  predicate TooLongFirst(calls: seq<WireCall>, k: nat)
    requires k < |calls|
  {
    && calls[k].typ == "function" && Utf8.Valid(calls[k].arguments) && |calls[k].arguments| > 262144
    && forall j | 0 <= j < k :: GoodCall(calls[j])
  }

  predicate CallsRead(calls: seq<WireCall>, out: seq<ToolCall>) {
    |out| == |calls| && forall k | 0 <= k < |calls| :: ReadsCall(calls[k], out[k])
  }

  lemma {:induction false} CallsVerdict(calls: seq<WireCall>)
    ensures DecodeCalls(calls).Ok? <==> forall k | 0 <= k < |calls| :: GoodCall(calls[k])
    ensures DecodeCalls(calls).Ok? ==> CallsRead(calls, DecodeCalls(calls).value)
    ensures DecodeCalls(calls) == Err(RequestTooLarge) <==> exists k | 0 <= k < |calls| :: TooLongFirst(calls, k)
    decreases |calls|
  {
    hide Utf8.ValidFrom;
    if calls != [] {
      var n := |calls| - 1;
      var front := calls[..n];
      CallsVerdict(front);
      assert forall k | 0 <= k < n :: front[k] == calls[k];
      FirstOfFront(calls);
      if DecodeCalls(front).Ok? { LastCall(calls); } else { FrontFails(calls); }
      hide DecodeCalls, TooLongFirst, GoodCall, CallsRead;
      forall k | 0 <= k < n && TooLongFirst(calls, k) ensures exists j | 0 <= j < n :: TooLongFirst(front, j) {
        assert TooLongFirst(front, k);
      }
      forall k | 0 <= k < n && TooLongFirst(front, k) ensures exists j | 0 <= j < |calls| :: TooLongFirst(calls, j) {
        assert TooLongFirst(calls, k);
      }
    }
  }

  lemma FirstOfFront(calls: seq<WireCall>)
    requires calls != []
    ensures forall k | 0 <= k < |calls| - 1 :: TooLongFirst(calls[..|calls| - 1], k) <==> TooLongFirst(calls, k)
  {
    hide GoodCall, Utf8.ValidFrom;
    var front := calls[..|calls| - 1];
    forall k | 0 <= k < |front| ensures TooLongFirst(front, k) <==> TooLongFirst(calls, k) {
      assert forall j | 0 <= j <= k :: front[j] == calls[j];
    }
  }

  lemma LastVerdict(calls: seq<WireCall>)
    requires calls != [] && DecodeCalls(calls[..|calls| - 1]).Ok?
    ensures var last := calls[|calls| - 1];
            DecodeCalls(calls) ==
            if !(last.typ == "function" && Utf8.Valid(last.arguments)) then Err(InvalidRequest)
            else if |last.arguments| > 262144 then Err(RequestTooLarge)
            else Ok(DecodeCalls(calls[..|calls| - 1]).value + [ToolCall(last.id, last.name, last.arguments)])
  {
    hide Utf8.Valid;
  }

  lemma ReadOneMore(calls: seq<WireCall>, before: seq<ToolCall>)
    requires calls != [] && CallsRead(calls[..|calls| - 1], before) && GoodCall(calls[|calls| - 1])
    ensures var last := calls[|calls| - 1];
            CallsRead(calls, before + [ToolCall(last.id, last.name, last.arguments)])
  {
    hide Utf8.Valid;
    var n := |calls| - 1;
    var out := before + [ToolCall(calls[n].id, calls[n].name, calls[n].arguments)];
    forall k | 0 <= k < n ensures ReadsCall(calls[k], out[k]) { assert ReadsCall(calls[..n][k], before[k]); }
  }

  lemma LastCall(calls: seq<WireCall>)
    requires calls != [] && DecodeCalls(calls[..|calls| - 1]).Ok?
    requires forall k | 0 <= k < |calls| - 1 :: GoodCall(calls[k])
    requires CallsRead(calls[..|calls| - 1], DecodeCalls(calls[..|calls| - 1]).value)
    ensures DecodeCalls(calls).Ok? <==> GoodCall(calls[|calls| - 1])
    ensures DecodeCalls(calls).Ok? ==> CallsRead(calls, DecodeCalls(calls).value)
    ensures DecodeCalls(calls) == Err(RequestTooLarge) <==> TooLongFirst(calls, |calls| - 1)
    ensures forall k | 0 <= k < |calls| - 1 :: !TooLongFirst(calls, k)
  {
    LastVerdict(calls);
    hide Utf8.Valid, DecodeCalls, CallsRead;
    if GoodCall(calls[|calls| - 1]) { ReadOneMore(calls, DecodeCalls(calls[..|calls| - 1]).value); }
  }

  lemma FrontFails(calls: seq<WireCall>)
    requires calls != [] && DecodeCalls(calls[..|calls| - 1]).Err?
    requires exists k | 0 <= k < |calls| - 1 :: !GoodCall(calls[k])
    ensures DecodeCalls(calls) == DecodeCalls(calls[..|calls| - 1])
    ensures !TooLongFirst(calls, |calls| - 1) && !(forall k | 0 <= k < |calls| :: GoodCall(calls[k]))
  {
    hide Utf8.ValidFrom, GoodCall;
  }

  lemma SameCalls(calls: seq<WireCall>, a: seq<ToolCall>, b: seq<ToolCall>)
    requires CallsRead(calls, a) && CallsRead(calls, b)
    ensures a == b
  {
    hide Utf8.Valid;
    forall k | 0 <= k < |calls| ensures a[k] == b[k] { assert ReadsCall(calls[k], a[k]) && ReadsCall(calls[k], b[k]); }
  }

  lemma ReadsCallsAre(calls: seq<WireCall>, out: seq<ToolCall>)
    ensures DecodeCalls(calls) == Ok(out) <==> CallsRead(calls, out)
  {
    CallsVerdict(calls);
    hide Utf8.ValidFrom, DecodeCalls;
    if CallsRead(calls, out) {
      forall k | 0 <= k < |calls| ensures GoodCall(calls[k]) { assert ReadsCall(calls[k], out[k]); }
      SameCalls(calls, DecodeCalls(calls).value, out);
    }
  }

  // ----- whole messages -----

  lemma RolesAre(name: string)
    ensures RoleOf(name) == System <==> name == "system"
    ensures RoleOf(name) == Developer <==> name == "developer"
    ensures RoleOf(name) == User <==> name == "user"
    ensures RoleOf(name) == Assistant <==> name == "assistant"
    ensures RoleOf(name) == Tool <==> name == "tool"
  {
  }

  /** A message is read exactly as these descriptions say, by the role it names. */
  lemma MessageIff(w: Wire, mediaOk: string -> bool, m: Message)
    ensures DecodeMessage(w, mediaOk) == Ok(m) <==> ReadsPlain(w, mediaOk, m) || ReadsAssistant(w, m) || ReadsTool(w, m)
  {
    hide RoleOf, Utf8.ValidFrom, DecodeCalls, ReadsCall;
    RolesAre(w.role);
    if RoleOf(w.role) == Assistant { ReadsCallsAre(w.toolCalls, m.toolCalls); }
  }

  /** And otherwise refused, as too large exactly when it is so described. */
  lemma TooLargeIff(w: Wire, mediaOk: string -> bool)
    ensures DecodeMessage(w, mediaOk) == Err(RequestTooLarge) <==> TooLarge(w)
  {
    hide RoleOf, Utf8.ValidFrom, DecodeCalls;
    RolesAre(w.role);
    CallsVerdict(w.toolCalls);
    hide TooLongFirst, GoodCall;
  }
}
