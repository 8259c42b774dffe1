/** Encoding a conversation's messages for the upstream and decoding them as a chat
    request: the two are inverse, up to reading developer messages as system ones. */
module UpstreamRoundTrip {
  import opened Prelude
  import opened Limits
  import opened Conversation
  import R = ResponsesInput
  import Utf8

  datatype Error = InvalidRequest | RequestTooLarge

  /** A JSON content value: absent, null, a string, an array of parts, or another shape. */
  datatype JsonContent = Missing | Null | JsonText(text: string) | JsonParts(raw: string) | OtherShape

  datatype WireCall = WireCall(id: string, typ: string, name: string, arguments: string)

  /** A message object of the chat API, as it is sent and as it is received.
      `details` stands for reasoning_details: absent, a valid array, or anything else. */
  datatype Wire = Wire(
    role: string, content: JsonContent, toolCalls: seq<WireCall>, toolCallID: string,
    reasoning: Option<string>, details: Details)

  datatype Details = NoDetails | ValidDetails | BadDetails

  function RoleName(role: Role): string {
    match role
    case System => "system"
    case Developer => "developer"
    case User => "user"
    case Assistant => "assistant"
    case Tool => "tool"
    case OtherRole(name) => name
  }

  function RoleOf(name: string): Role {
    if name == "system" then System
    else if name == "developer" then Developer
    else if name == "user" then User
    else if name == "assistant" then Assistant
    else if name == "tool" then Tool
    else OtherRole(name)
  }

  /** The content as a JSON value. */
  function Marshalled(c: Content): JsonContent {
    match c
    case NoContent => Null
    case Text(text) => JsonText(text)
    case Parts(raw) => JsonParts(raw)
  }

  function WireCalls(calls: seq<ToolCall>): (wire: seq<WireCall>)
    ensures |wire| == |calls|
  {
    seq(|calls|, i requires 0 <= i < |calls| => WireCall(calls[i].id, "function", calls[i].name, calls[i].arguments))
  }

  function EncodeMessage(m: Message): Wire {
    Wire(if m.role == Developer then "system" else RoleName(m.role), Marshalled(m.content), WireCalls(m.toolCalls),
         m.toolCallID, m.reasoning, NoDetails)
  }

  function EncodeMessages(ms: seq<Message>): (wire: seq<Wire>)
    ensures |wire| == |ms|
  {
    seq(|ms|, i requires 0 <= i < |ms| => EncodeMessage(ms[i]))
  }

  /** EncodeUpstream's message list: instructions, then messages, once they are valid. */
  function EncodeUpstream(instructions: seq<Message>, messages: seq<Message>): Option<seq<Wire>> {
    if !Accepts(instructions + messages) then None else Some(EncodeMessages(instructions + messages))
  }

  // ----- decoding -----

  /** decodeContent; `mediaOk` says whether an array of parts is acceptable. Where null
      is not allowed it still unmarshals into a string, as the empty one. */
  function DecodeContent(c: JsonContent, allowNull: bool, allowMedia: bool, maxBytes: nat,
      mediaOk: string -> bool): Option<Content> {
    match c
    case Null => Some(if allowNull then NoContent else Text(""))
    case JsonText(text) => if Utf8.Valid(text) && |text| <= maxBytes then Some(Text(text)) else None
    case JsonParts(raw) => if allowMedia && mediaOk(raw) then Some(Parts(raw)) else None
    case Missing => None
    case OtherShape => None
  }

  predicate WireCallOk(call: WireCall) {
    call.typ == "function" && Utf8.Valid(call.arguments)
  }

  /** The calls in order; the first bad or oversized one is the error. */
  function DecodeCalls(calls: seq<WireCall>): Result<seq<ToolCall>, Error> {
    if calls == [] then Ok([]) else
    var n := |calls| - 1;
    var before := DecodeCalls(calls[..n]);
    if before.Err? then before
    else if !WireCallOk(calls[n]) then Err(InvalidRequest)
    else if |calls[n].arguments| > MAX_ARGUMENTS_BYTES then Err(RequestTooLarge)
    else Ok(before.value + [ToolCall(calls[n].id, calls[n].name, calls[n].arguments)])
  }

  function DecodeText(w: Wire, role: Role, allowMedia: bool, mediaOk: string -> bool): Result<Message, Error> {
    var content := DecodeContent(w.content, false, allowMedia, MAX_TEXT_CONTENT_BYTES, mediaOk);
    if content.None? then Err(InvalidRequest) else Ok(Message(role, content.value, [], w.toolCallID, None))
  }

  function DecodeAssistant(w: Wire, mediaOk: string -> bool): Result<Message, Error> {
    var content := DecodeContent(w.content, true, false, MAX_TEXT_CONTENT_BYTES, mediaOk);
    if content.None? || !ReasoningOk(w.reasoning) then Err(InvalidRequest) else
    var calls := DecodeCalls(w.toolCalls);
    if calls.Err? then Err(calls.error)
      else Ok(Message(Assistant, content.value, calls.value, w.toolCallID, w.reasoning))
  }

  function DecodeTool(w: Wire, mediaOk: string -> bool): Result<Message, Error> {
    var content := DecodeContent(w.content, false, false, MAX_TOOL_OUTPUT_BYTES, mediaOk);
    if content.Some? then Ok(Message(Tool, content.value, [], w.toolCallID, None))
    else if w.content.JsonText? && Utf8.Valid(w.content.text) && |w.content.text| > MAX_TOOL_OUTPUT_BYTES
      then Err(RequestTooLarge)
    else Err(InvalidRequest)
  }

  /** decodeChatMessage. */
  function DecodeMessage(w: Wire, mediaOk: string -> bool): Result<Message, Error> {
    var role := RoleOf(w.role);
    if role != Assistant && w.reasoning.Some? then Err(InvalidRequest)
    else if w.details == BadDetails || (role != Assistant && w.details != NoDetails) then Err(InvalidRequest)
    else match role
      case System => DecodeText(w, role, false, mediaOk)
      case Developer => DecodeText(w, role, false, mediaOk)
      case User => DecodeText(w, role, true, mediaOk)
      case Assistant => DecodeAssistant(w, mediaOk)
      case Tool => DecodeTool(w, mediaOk)
      case OtherRole(_) => Err(InvalidRequest)
  }

  /** DecodeChat's loop over the messages. */
  function DecodeMessages(ws: seq<Wire>, mediaOk: string -> bool): Result<seq<Message>, Error> {
    if ws == [] then Ok([]) else
    var n := |ws| - 1;
    var before := DecodeMessages(ws[..n], mediaOk);
    if before.Err? then before else
    var m := DecodeMessage(ws[n], mediaOk);
    if m.Err? then Err(m.error) else Ok(before.value + [m.value])
  }

  // ----- the loops -----

  method DecodeCallsLoop(calls: seq<WireCall>) returns (result: Result<seq<ToolCall>, Error>)
    ensures result == DecodeCalls(calls)
  {
    var out: seq<ToolCall> := [];
    for k := 0 to |calls|
      invariant DecodeCalls(calls[..k]) == Ok(out)
    {
      var call := calls[k];
      assert calls[..k + 1][..k] == calls[..k];
      if call.typ != "function" || !Utf8.Valid(call.arguments) {
        CallErrorStays(calls, k + 1);
        return Err(InvalidRequest);
      }
      if |call.arguments| > MAX_ARGUMENTS_BYTES {
        CallErrorStays(calls, k + 1);
        return Err(RequestTooLarge);
      }
      out := out + [ToolCall(call.id, call.name, call.arguments)];
    }
    assert calls[..|calls|] == calls;
    return Ok(out);
  }

  lemma {:induction false} CallErrorStays(calls: seq<WireCall>, k: nat)
    requires k <= |calls| && DecodeCalls(calls[..k]).Err?
    ensures DecodeCalls(calls) == DecodeCalls(calls[..k])
    decreases |calls| - k
  {
    if k < |calls| {
      assert calls[..k + 1][..k] == calls[..k];
      CallErrorStays(calls, k + 1);
    } else {
      assert calls[..k] == calls;
    }
  }

  method DecodeMessagesLoop(ws: seq<Wire>, mediaOk: string -> bool) returns (result: Result<seq<Message>, Error>)
    ensures result == DecodeMessages(ws, mediaOk)
  {
    hide DecodeMessage;
    var messages: seq<Message> := [];
    for k := 0 to |ws|
      invariant DecodeMessages(ws[..k], mediaOk) == Ok(messages)
    {
      assert ws[..k + 1][..k] == ws[..k];
      var decoded := DecodeMessage(ws[k], mediaOk);
      if decoded.Err? {
        MessageErrorStays(ws, k + 1, mediaOk);
        return Err(decoded.error);
      }
      messages := messages + [decoded.value];
    }
    assert ws[..|ws|] == ws;
    return Ok(messages);
  }

  lemma {:induction false} MessageErrorStays(ws: seq<Wire>, k: nat, mediaOk: string -> bool)
    requires k <= |ws| && DecodeMessages(ws[..k], mediaOk).Err?
    ensures DecodeMessages(ws, mediaOk) == DecodeMessages(ws[..k], mediaOk)
    decreases |ws| - k
  {
    hide DecodeMessage;
    if k < |ws| {
      assert ws[..k + 1][..k] == ws[..k];
      MessageErrorStays(ws, k + 1, mediaOk);
    } else {
      assert ws[..k] == ws;
    }
  }

  /** EncodeUpstream's loops over messages and their calls. */
  method EncodeUpstreamMessages(instructions: seq<Message>, messages: seq<Message>) returns (wire: seq<Wire>, ok: bool)
    ensures ok == EncodeUpstream(instructions, messages).Some?
    ensures ok ==> wire == EncodeUpstream(instructions, messages).value
  {
    hide Accepts;
    wire := [];
    var all := instructions + messages;
    ok := Conversation.Validate(all);
    if !ok { return; }
    for k := 0 to |all|
      invariant wire == EncodeMessages(all)[..k]
    {
      var m := all[k];
      var role := RoleName(m.role);
      if m.role == Developer { role := RoleName(System); }
      var calls: seq<WireCall> := [];
      for c := 0 to |m.toolCalls|
        invariant calls == WireCalls(m.toolCalls)[..c]
      {
        var call := m.toolCalls[c];
        calls := calls + [WireCall(call.id, "function", call.name, call.arguments)];
      }
      assert WireCalls(m.toolCalls)[..|m.toolCalls|] == WireCalls(m.toolCalls);
      assert EncodeMessages(all)[k] == EncodeMessage(m);
      wire := wire + [Wire(role, Marshalled(m.content), calls, m.toolCallID, m.reasoning, NoDetails)];
    }
  }

  // ----- json.Marshal and json.Unmarshal in between -----

  /** What is left to encoding/json and the media checks: whether an array of parts is
      acceptable, and the compact form json.Marshal writes raw JSON in. */
  datatype Json = Json(mediaOk: string -> bool, compact: string -> string)

  /** Compacting changes no value. */
  ghost predicate JsonLaws(json: Json) {
    && (forall raw | json.mediaOk(raw) :: json.mediaOk(json.compact(raw)))
    && (forall raw :: json.compact(json.compact(raw)) == json.compact(raw))
  }

  function SentContent(c: JsonContent, json: Json): JsonContent {
    match c
    case JsonText(text) => JsonText(Utf8.Replaced(text))
    case JsonParts(raw) => JsonParts(json.compact(raw))
    case _ => c
  }

  function SentCall(call: WireCall): WireCall {
    WireCall(Utf8.Replaced(call.id), Utf8.Replaced(call.typ), Utf8.Replaced(call.name), Utf8.Replaced(call.arguments))
  }

  function SentCalls(calls: seq<WireCall>): (sent: seq<WireCall>)
    ensures |sent| == |calls|
  {
    seq(|calls|, i requires 0 <= i < |calls| => SentCall(calls[i]))
  }

  /** A message as it arrives: every text with invalid bytes replaced, raw JSON compacted. */
  function Sent(w: Wire, json: Json): Wire {
    Wire(Utf8.Replaced(w.role), SentContent(w.content, json), SentCalls(w.toolCalls), Utf8.Replaced(w.toolCallID),
         if w.reasoning.Some? then Some(Utf8.Replaced(w.reasoning.value)) else None, w.details)
  }

  function AllSent(ws: seq<Wire>, json: Json): (sent: seq<Wire>)
    ensures |sent| == |ws|
  {
    seq(|ws|, i requires 0 <= i < |ws| => Sent(ws[i], json))
  }

  lemma AsciiSurvives(s: string)
    requires forall c | c in s :: c as int < 0x80
    ensures Utf8.Valid(s) && Utf8.Replaced(s) == s
  {
    Utf8.AsciiFrom(s, 0);
    Utf8.ReplacedIsValid(s);
  }

  lemma FunctionSurvives()
    ensures Utf8.Replaced("function") == "function"
  {
    AsciiSurvives("function");
  }

  lemma CallSurvives(call: ToolCall)
    requires CallOk(call)
    ensures SentCall(WireCall(call.id, "function", call.name, call.arguments)) ==
            WireCall(call.id, "function", call.name, call.arguments)
  {
    hide Utf8.Replaced, Utf8.ValidFrom, ValidFunctionName;
    FunctionSurvives();
    FunctionNameIff(call.name);
    Utf8.ReplacedIsValid(call.name);
    Utf8.ReplacedIsValid(call.id);
    Utf8.ReplacedIsValid(call.arguments);
  }

  lemma CallsSurvive(calls: seq<ToolCall>)
    requires forall call | call in calls :: CallOk(call)
    ensures SentCalls(WireCalls(calls)) == WireCalls(calls)
  {
    hide CallOk, SentCall;
    forall i | 0 <= i < |calls| ensures SentCalls(WireCalls(calls))[i] == WireCalls(calls)[i] {
      CallSurvives(calls[i]);
    }
  }

  /** Of a valid message only the content and the answered id can change on the way. */
  lemma SentMessage(m: Message, json: Json)
    requires LocalOk(m)
    ensures Sent(EncodeMessage(m), json) ==
            EncodeMessage(m).(content := SentContent(Marshalled(m.content), json),
                              toolCallID := Utf8.Replaced(m.toolCallID))
  {
    hide CallOk, Utf8.Replaced, Utf8.Valid;
    AsciiSurvives(EncodeMessage(m).role);
    CallsSurvive(m.toolCalls);
    if m.reasoning.Some? { Utf8.ReplacedIsValid(m.reasoning.value); }
  }

  // ----- inversion -----

  /** A content that survives encoding, the way, and decoding, by role. */
  predicate ContentOk(m: Message, json: Json) {
    match m.content
    case NoContent => m.role == Assistant
    case Text(text) =>
      Utf8.Valid(text) && |text| <= 1048576
    case Parts(raw) => m.role == User && json.mediaOk(json.compact(raw))
  }

  predicate ContentsOk(ms: seq<Message>, json: Json) {
    forall m | m in ms :: ContentOk(m, json)
  }

  /** Its raw JSON, if it holds any, is compact already. */
  predicate Compact(m: Message, json: Json) {
    m.content.Parts? ==> json.compact(m.content.raw) == m.content.raw
  }

  function AsSystem(m: Message): Message {
    if m.role == Developer then m.(role := System) else m
  }

  function AllAsSystem(ms: seq<Message>): (r: seq<Message>)
    ensures |r| == |ms|
  {
    seq(|ms|, i requires 0 <= i < |ms| => AsSystem(ms[i]))
  }

  /** What the other side reads: developer as system, raw JSON compacted. */
  function Resent(m: Message, json: Json): Message {
    AsSystem(if m.content.Parts? then m.(content := Parts(json.compact(m.content.raw))) else m)
  }

  function AllResent(ms: seq<Message>, json: Json): (r: seq<Message>)
    ensures |r| == |ms|
  {
    seq(|ms|, i requires 0 <= i < |ms| => Resent(ms[i], json))
  }

  lemma {:induction false} CallsComeBack(calls: seq<ToolCall>)
    requires forall call | call in calls :: CallOk(call)
    ensures DecodeCalls(WireCalls(calls)) == Ok(calls)
    decreases |calls|
  {
    if calls != [] {
      var n := |calls| - 1;
      CallsComeBack(calls[..n]);
      assert WireCalls(calls)[..n] == WireCalls(calls[..n]);
      assert calls[n] in calls && calls == calls[..n] + [calls[n]];
    }
  }

  lemma RolesComeBack(m: Message)
    requires LocalOk(m)
    ensures RoleOf(EncodeMessage(m).role) == AsSystem(m).role
  {
  }

  /** Decoding what was sent for a valid message gives it back, a developer read as
      system, exactly when its content survives and its answered id is valid UTF-8. */
  lemma MessageComesBackIff(m: Message, json: Json)
    requires LocalOk(m)
    ensures DecodeMessage(Sent(EncodeMessage(m), json), json.mediaOk) == Ok(Resent(m, json)) <==>
            ContentOk(m, json) && Utf8.Valid(m.toolCallID)
  {
    hide RoleOf, RoleName, Utf8.ValidFrom, DecodeCalls, CallOk, Utf8.Replaced, Sent;
    SentMessage(m, json);
    RolesComeBack(m);
    Utf8.ReplacedIff(m.toolCallID);
    if m.content.Text? {
      Utf8.ReplacedIff(m.content.text);
      Utf8.ReplacedIsValid(m.content.text);
    }
    if m.role == Assistant { CallsComeBack(m.toolCalls); }
  }

  lemma LastsAgree<T>(a: seq<T>, x: T, b: seq<T>, y: T)
    ensures a + [x] == b + [y] <==> a == b && x == y
  {
    if a + [x] == b + [y] {
      assert a == (a + [x])[..|a|] && b == (b + [y])[..|b|];
      assert (a + [x])[|a|] == x && (b + [y])[|b|] == y;
    }
  }

  lemma SplitLast(ms: seq<Message>, n: nat, json: Json)
    requires |ms| == n + 1
    ensures AllSent(EncodeMessages(ms), json)[..n] == AllSent(EncodeMessages(ms[..n]), json)
    ensures AllResent(ms, json) == AllResent(ms[..n], json) + [Resent(ms[n], json)]
  {
    hide Sent, EncodeMessage, Resent;
    assert EncodeMessages(ms)[..n] == EncodeMessages(ms[..n]);
    forall i | 0 <= i < n
      ensures AllSent(EncodeMessages(ms), json)[i] == AllSent(EncodeMessages(ms[..n]), json)[i]
    {
      assert EncodeMessages(ms)[i] == EncodeMessages(ms[..n])[i];
    }
  }

  lemma {:induction false} MessagesComeBackIff(ms: seq<Message>, json: Json)
    requires AllLocal(ms) && forall m | m in ms :: Utf8.Valid(m.toolCallID)
    ensures DecodeMessages(AllSent(EncodeMessages(ms), json), json.mediaOk) == Ok(AllResent(ms, json)) <==>
            ContentsOk(ms, json)
    decreases |ms|
  {
    hide LocalOk, ContentOk, DecodeMessage, EncodeMessage, Sent, Resent, Utf8.Valid;
    if ms != [] {
      var n := |ms| - 1;
      assert ms[n] in ms && ms == ms[..n] + [ms[n]];
      MessagesComeBackIff(ms[..n], json);
      MessageComesBackIff(ms[n], json);
      SplitLast(ms, n, json);
      var before := DecodeMessages(AllSent(EncodeMessages(ms[..n]), json), json.mediaOk);
      var last := DecodeMessage(Sent(EncodeMessage(ms[n]), json), json.mediaOk);
      if before.Ok? && last.Ok? { LastsAgree(before.value, last.value, AllResent(ms[..n], json), Resent(ms[n], json)); }
      assert ContentsOk(ms, json) <==> ContentsOk(ms[..n], json) && ContentOk(ms[n], json);
    }
  }

  /** Every id a valid conversation answers is one it declared, and so a valid one. */
  lemma {:induction false} AnsweredIDsAreValid(ms: seq<Message>, declared: set<string>, open: set<string>)
    requires Run(ms, declared, open) && forall id | id in open :: ValidCallID(id)
    ensures forall m | m in ms :: Utf8.Valid(m.toolCallID)
    decreases |ms|
  {
    hide ValidFunctionName;
    if ms != [] {
      var m := ms[0];
      assert ms == [m] + ms[1..];
      if m.role == Assistant {
        var ids := IDs(m.toolCalls);
        forall id | id in SetOf(ids) ensures ValidCallID(id) {
          var i :| 0 <= i < |ids| && ids[i] == id;
          assert m.toolCalls[i] in m.toolCalls;
        }
        AnsweredIDsAreValid(ms[1..], declared + SetOf(ids), open + SetOf(ids));
      } else if m.role == Tool {
        AnsweredIDsAreValid(ms[1..], declared, open - {m.toolCallID});
      } else {
        AnsweredIDsAreValid(ms[1..], declared, open);
      }
    }
  }

  lemma AsSystemIsLocal(m: Message)
    ensures LocalOk(AsSystem(m)) == LocalOk(m)
    ensures AsSystem(m).toolCalls == m.toolCalls && AsSystem(m).toolCallID == m.toolCallID
    ensures (AsSystem(m).role == Assistant <==> m.role == Assistant) && (AsSystem(m).role == Tool <==> m.role == Tool)
    ensures EncodeMessage(AsSystem(m)) == EncodeMessage(m)
  {
  }

  lemma ResentIsLocal(m: Message, json: Json)
    ensures LocalOk(Resent(m, json)) == LocalOk(m)
    ensures Resent(m, json).toolCalls == m.toolCalls && Resent(m, json).toolCallID == m.toolCallID
    ensures Resent(m, json).role == AsSystem(m).role
    ensures JsonLaws(json) ==> Sent(EncodeMessage(Resent(m, json)), json) == Sent(EncodeMessage(m), json)
    ensures Resent(m, json) == AsSystem(m) <==> Compact(m, json)
  {
  }

  lemma {:induction false} RunResent(ms: seq<Message>, json: Json, declared: set<string>, open: set<string>)
    ensures Run(AllResent(ms, json), declared, open) == Run(ms, declared, open)
    decreases |ms|
  {
    hide LocalOk, Resent;
    if ms != [] {
      var m := ms[0];
      ResentIsLocal(m, json);
      AsSystemIsLocal(m);
      assert AllResent(ms, json)[1..] == AllResent(ms[1..], json) && AllResent(ms, json)[0] == Resent(m, json);
      RunResent(ms[1..], json, declared + SetOf(IDs(m.toolCalls)), open + SetOf(IDs(m.toolCalls)));
      RunResent(ms[1..], json, declared, open - {m.toolCallID});
      RunResent(ms[1..], json, declared, open);
    }
  }

  /** Decoding what is sent for an accepted conversation gives instructions then
      messages, with developer read as system and raw JSON compacted, exactly when
      every content survives. The result is then accepted again, and sending it again
      sends the same messages. */
  lemma EncodeDecodeInversionIff(instructions: seq<Message>, messages: seq<Message>, json: Json)
    requires Accepts(instructions + messages)
    ensures var wire := AllSent(EncodeUpstream(instructions, messages).value, json);
            var back := AllResent(instructions, json) + AllResent(messages, json);
            && (DecodeMessages(wire, json.mediaOk) == Ok(back) <==> ContentsOk(instructions + messages, json))
            && EncodeUpstream([], back).Some?
            && (JsonLaws(json) ==> AllSent(EncodeUpstream([], back).value, json) == wire)
  {
    hide Run, ContentOk, Resent, DecodeMessages, EncodeMessage, Sent, JsonLaws, Utf8.Valid;
    var ms := instructions + messages;
    RunIsLocal(ms, {}, {});
    AnsweredIDsAreValid(ms, {}, {});
    MessagesComeBackIff(ms, json);
    RunResent(ms, json, {}, {});
    var back := AllResent(ms, json);
    assert back == AllResent(instructions, json) + AllResent(messages, json);
    assert [] + back == back;
    if JsonLaws(json) {
      forall i | 0 <= i < |ms|
        ensures AllSent(EncodeMessages(back), json)[i] == AllSent(EncodeMessages(ms), json)[i]
      {
        ResentIsLocal(ms[i], json);
      }
      assert AllSent(EncodeMessages(back), json) == AllSent(EncodeMessages(ms), json);
    }
  }

  /** The conversation comes back unchanged, developer read as system, exactly when
      moreover its raw JSON is compact. */
  lemma UnchangedIff(ms: seq<Message>, json: Json)
    ensures AllResent(ms, json) == AllAsSystem(ms) <==> forall m | m in ms :: Compact(m, json)
  {
    hide Resent, AsSystem, Compact;
    forall i | 0 <= i < |ms| ensures Resent(ms[i], json) == AsSystem(ms[i]) <==> Compact(ms[i], json) {
      ResentIsLocal(ms[i], json);
    }
    if AllResent(ms, json) == AllAsSystem(ms) {
      forall m | m in ms ensures Compact(m, json) {
        var i :| 0 <= i < |ms| && ms[i] == m;
        assert AllResent(ms, json)[i] == AllAsSystem(ms)[i];
      }
    }
  }

  // ----- what the request decoders accept -----

  lemma DecodedContentIsOk(w: Wire, json: Json)
    requires JsonLaws(json) && DecodeMessage(w, json.mediaOk).Ok?
    ensures ContentOk(DecodeMessage(w, json.mediaOk).value, json)
  {
  }

  lemma {:induction false} DecodedContentsAreOk(ws: seq<Wire>, json: Json)
    requires JsonLaws(json) && DecodeMessages(ws, json.mediaOk).Ok?
    ensures ContentsOk(DecodeMessages(ws, json.mediaOk).value, json)
    decreases |ws|
  {
    hide ContentOk, DecodeMessage, JsonLaws;
    if ws != [] {
      DecodedContentsAreOk(ws[..|ws| - 1], json);
      DecodedContentIsOk(ws[|ws| - 1], json);
    }
  }

  /** Every conversation a chat request decodes to comes back. */
  lemma ChatConversationComesBack(ws: seq<Wire>, json: Json)
    requires JsonLaws(json) && DecodeMessages(ws, json.mediaOk).Ok?
    requires Accepts(DecodeMessages(ws, json.mediaOk).value)
    ensures var ms := DecodeMessages(ws, json.mediaOk).value;
            DecodeMessages(AllSent(EncodeMessages(ms), json), json.mediaOk) == Ok(AllResent(ms, json))
  {
    hide JsonLaws, DecodeMessages, ContentsOk, Accepts;
    var ms := DecodeMessages(ws, json.mediaOk).value;
    DecodedContentsAreOk(ws, json);
    assert [] + ms == ms && AllResent([], json) + AllResent(ms, json) == AllResent(ms, json);
    EncodeDecodeInversionIff([], ms, json);
  }

  lemma {:induction false} FoldedContentsAreOk(items: seq<R.Item>, json: Json)
    requires forall item | item in items :: R.ItemError(item).None?
    ensures ContentsOk(R.Fold(items), json) && forall m | m in R.Fold(items) :: Compact(m, json)
    decreases |items|
  {
    if items != [] {
      var n := |items| - 1;
      FoldedContentsAreOk(items[..n], json);
      assert items[n] in items;
      hide Utf8.ValidFrom;
    }
  }

  /** The developer message of a request's instructions. */
  function Instructions(text: Option<string>): seq<Message> {
    if text.Some? then [R.Said(Developer, text.value)] else []
  }

  /** Every conversation a Responses request decodes to comes back, unchanged. */
  lemma ResponsesConversationComesBack(text: Option<string>, items: seq<R.Item>, json: Json)
    requires text.Some? ==> Utf8.Valid(text.value) && |text.value| <= 1048576
    requires R.Decode(items).Ok? && Accepts(Instructions(text) + R.Decode(items).value)
    ensures var ms := Instructions(text) + R.Decode(items).value;
            DecodeMessages(AllSent(EncodeMessages(ms), json), json.mediaOk) == Ok(AllAsSystem(ms))
  {
    hide DecodeMessages, Accepts, ContentOk, Compact, Utf8.Valid;
    R.DecodeAllIsFold(items);
    FoldedContentsAreOk(items, json);
    var instructions, messages := Instructions(text), R.Decode(items).value;
    InstructionsAreOk(text, json);
    EncodeDecodeInversionIff(instructions, messages, json);
    UnchangedIff(instructions + messages, json);
    assert AllResent(instructions + messages, json) == AllResent(instructions, json) + AllResent(messages, json);
  }

  lemma InstructionsAreOk(text: Option<string>, json: Json)
    requires text.Some? ==> Utf8.Valid(text.value) && |text.value| <= 1048576
    ensures ContentsOk(Instructions(text), json) && forall m | m in Instructions(text) :: Compact(m, json)
  {
  }

  // ----- accepted conversations that do not come back -----

  /** A byte that is no character comes back as another text. */
  lemma InvalidTextIsAltered(json: Json)
    ensures var ms := [R.Said(System, [0xFF as char])];
            && Accepts(ms)
            && DecodeMessages(AllSent(EncodeMessages(ms), json), json.mediaOk) == Ok([R.Said(System, Utf8.REPLACEMENT)])
  {
    var s := [0xFF as char];
    var ms := [R.Said(System, s)];
    SystemAlone(s);
    assert Utf8.RuneSize(s, 0) == 1 && s[1..] == "" && Utf8.REPLACEMENT + "" == Utf8.REPLACEMENT;
    assert Utf8.Replaced(s) == Utf8.REPLACEMENT;
    Utf8.ReplacedIsValid(s);
    SentMessage(ms[0], json);
    hide Utf8.Replaced, Utf8.ValidFrom, Sent;
    OneMessage(ms[0], json);
  }

  /** A text over the limit is refused. */
  lemma OversizedTextIsRefused(text: string, json: Json)
    requires |text| > 1048576
    ensures var ms := [R.Said(System, text)];
            && Accepts(ms)
            && DecodeMessages(AllSent(EncodeMessages(ms), json), json.mediaOk) == Err(InvalidRequest)
  {
    var ms := [R.Said(System, text)];
    SystemAlone(text);
    SentMessage(ms[0], json);
    hide Utf8.Replaced, Utf8.ValidFrom, Sent;
    OneMessage(ms[0], json);
  }

  lemma SystemAlone(text: string)
    ensures Accepts([R.Said(System, text)]) && LocalOk(R.Said(System, text))
  {
    assert [R.Said(System, text)][1..] == [];
  }

  lemma OneMessage(m: Message, json: Json)
    ensures var r := DecodeMessage(Sent(EncodeMessage(m), json), json.mediaOk);
            DecodeMessages(AllSent(EncodeMessages([m]), json), json.mediaOk) ==
            if r.Err? then Err(r.error) else Ok([r.value])
  {
    hide DecodeMessage, Sent, EncodeMessage;
    var ws := AllSent(EncodeMessages([m]), json);
    assert ws[..0] == [] && ws[0] == Sent(EncodeMessage(m), json) && DecodeMessages([], json.mediaOk) == Ok([]);
    assert forall x: Message :: [] + [x] == [x];
  }
}
