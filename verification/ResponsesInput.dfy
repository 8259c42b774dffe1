/** Folding the item list of a Responses request into messages: what is kept, that
    consecutive calls share one message, and when the result is a valid conversation. */
module ResponsesInput {
  import opened Prelude
  import opened Limits
  import opened Conversation
  import Utf8

  datatype Error = InvalidRequest | UnsupportedParameter | RequestTooLarge

  /** An input item, its JSON already decoded; the role of a message is any string. */
  datatype Item =
    | MessageItem(role: Role, text: string)
    | CallItem(id: Option<string>, status: Option<string>, call: ToolCall)
    | OutputItem(id: Option<string>, status: Option<string>, callID: string, output: string)

  predicate MetadataOk(id: Option<string>, status: Option<string>) {
    && (id.Some? ==> Utf8.Valid(id.value) && 1 <= |id.value| <= MAX_CALL_ID_BYTES)
    && (status.Some? ==> status.value == "in_progress" || status.value == "completed" || status.value == "incomplete")
  }

  /** What is wrong with an item, if anything. */
  function ItemError(item: Item): Option<Error> {
    match item
    case MessageItem(_, text) =>
      if Utf8.Valid(text) && |text| <= MAX_TEXT_CONTENT_BYTES then None else Some(InvalidRequest)
    case CallItem(id, status, call) =>
      if !MetadataOk(id, status) || !Utf8.Valid(call.arguments) then Some(InvalidRequest)
      else if |call.arguments| > MAX_ARGUMENTS_BYTES then Some(RequestTooLarge) else None
    case OutputItem(id, status, _, output) =>
      if !MetadataOk(id, status) || !Utf8.Valid(output) then Some(InvalidRequest)
      else if |output| > MAX_TOOL_OUTPUT_BYTES then Some(RequestTooLarge) else None
  }

  /** An assistant message that holds calls and no content. */
  predicate CallOnly(m: Message) {
    m.role == Assistant && m.content == NoContent && m.toolCalls != []
  }

  function Said(role: Role, text: string): Message {
    Message(role, Text(text), [], "", None)
  }

  function Calling(calls: seq<ToolCall>): Message {
    Message(Assistant, NoContent, calls, "", None)
  }

  function Answering(callID: string, output: string): Message {
    Message(Tool, Text(output), [], callID, None)
  }

  /** One item added to the messages; a call joins the calls just before it. */
  function Add(messages: seq<Message>, item: Item): seq<Message> {
    match item
    case MessageItem(role, text) => messages + [Said(role, text)]
    case CallItem(_, _, call) =>
      if messages != [] && CallOnly(messages[|messages| - 1]) then
        var last := messages[|messages| - 1];
        messages[..|messages| - 1] + [last.(toolCalls := last.toolCalls + [call])]
      else messages + [Calling([call])]
    case OutputItem(_, _, callID, output) => messages + [Answering(callID, output)]
  }

  function Fold(items: seq<Item>): seq<Message> {
    if items == [] then [] else Add(Fold(items[..|items| - 1]), items[|items| - 1])
  }

  /** decodeResponseInput on a list: empty lists and the first bad item are errors. */
  function Decode(items: seq<Item>): Result<seq<Message>, Error> {
    if items == [] then Err(InvalidRequest) else DecodeAll(items)
  }

  function DecodeAll(items: seq<Item>): Result<seq<Message>, Error> {
    if items == [] then Ok([]) else
    var before := DecodeAll(items[..|items| - 1]);
    if before.Err? then before
    else if ItemError(items[|items| - 1]).Some? then Err(ItemError(items[|items| - 1]).value)
    else Ok(Add(before.value, items[|items| - 1]))
  }

  lemma {:induction false} DecodeAllIsFold(items: seq<Item>)
    ensures DecodeAll(items).Ok? <==> forall item | item in items :: ItemError(item).None?
    ensures DecodeAll(items).Ok? ==> DecodeAll(items) == Ok(Fold(items))
    decreases |items|
  {
    hide ItemError;
    if items != [] {
      DecodeAllIsFold(items[..|items| - 1]);
      assert items == items[..|items| - 1] + [items[|items| - 1]];
    }
  }

  /** decodeResponseInput: the loop appends and edits the last message in place. */
  method DecodeInput(items: seq<Item>) returns (result: Result<seq<Message>, Error>)
    ensures result == Decode(items)
  {
    hide ItemError;
    if |items| == 0 { return Err(InvalidRequest); }
    var messages: seq<Message> := [];
    for k := 0 to |items|
      invariant DecodeAll(items[..k]) == Ok(messages)
    {
      var item := items[k];
      assert items[..k + 1][..k] == items[..k];
      if ItemError(item).Some? {
        ErrorStays(items, k);
        return Err(ItemError(item).value);
      }
      match item {
        case MessageItem(role, text) => messages := messages + [Said(role, text)];
        case CallItem(_, _, call) =>
          if |messages| > 0 && messages[|messages| - 1].role == Assistant &&
            messages[|messages| - 1].content == NoContent &&
             |messages[|messages| - 1].toolCalls| > 0 {
            var last := messages[|messages| - 1];
            last := last.(toolCalls := last.toolCalls + [call]);
            messages := messages[..|messages| - 1] + [last];
          } else {
            messages := messages + [Calling([call])];
          }
        case OutputItem(_, _, callID, output) => messages := messages + [Answering(callID, output)];
      }
    }
    assert items[..|items|] == items;
    return Ok(messages);
  }

  /** The first error is the result, whatever comes after. */
  lemma {:induction false} ErrorStays(items: seq<Item>, k: nat)
    requires k < |items| && DecodeAll(items[..k]).Ok? && ItemError(items[k]).Some?
    ensures DecodeAll(items) == Err(ItemError(items[k]).value)
    decreases |items| - k
  {
    hide ItemError;
    ErrorPrefix(items, k, k + 1);
    assert items[..|items|] == items;
    ErrorPrefix(items, k, |items|);
  }

  // ----- which error -----

  /** An id of 1 to 128 bytes of UTF-8 and one of the three statuses, where given. */
  predicate GoodMetadata(id: Option<string>, status: Option<string>) {
    && (id == None || (Utf8.Valid(id.value) && 1 <= |id.value| <= 128))
    && (status == None || status.value == "in_progress" || status.value == "completed" || status.value == "incomplete")
  }

  /** The item's error: too large is only a call's arguments over 262144 bytes or an
      output over 1048576; a message's text over that is invalid. */
  predicate Wrong(item: Item, e: Error) {
    match item
    case MessageItem(_, text) => e == InvalidRequest && !(Utf8.Valid(text) && |text| <= 1048576)
    case CallItem(id, status, call) =>
      var good := GoodMetadata(id, status) && Utf8.Valid(call.arguments);
      (!good && e == InvalidRequest) || (good && |call.arguments| > 262144 && e == RequestTooLarge)
    case OutputItem(id, status, _, output) =>
      var good := GoodMetadata(id, status) && Utf8.Valid(output);
      (!good && e == InvalidRequest) || (good && |output| > 1048576 && e == RequestTooLarge)
  }

  lemma WrongIff(item: Item, e: Error)
    ensures Wrong(item, e) <==> ItemError(item) == Some(e)
  {
    hide Utf8.ValidFrom;
  }

  predicate FirstWrong(items: seq<Item>, k: nat, e: Error)
    requires k < |items|
  {
    Wrong(items[k], e) && forall j, f | 0 <= j < k :: !Wrong(items[j], f)
  }

  /** The list is refused with an error exactly when it is empty or that is the error
      of its first bad item. */
  lemma DecodeErrorIff(items: seq<Item>, e: Error)
    ensures Decode(items) == Err(e) <==>
            (items == [] && e == InvalidRequest) || exists k | 0 <= k < |items| :: FirstWrong(items, k, e)
  {
    hide Wrong, ItemError, Fold;
    DecodeAllIsFold(items);
    forall item, f ensures Wrong(item, f) <==> ItemError(item) == Some(f) { WrongIff(item, f); }
    forall k, f | 0 <= k < |items| && FirstWrong(items, k, f) ensures DecodeAll(items) == Err(f) {
      GoodFront(items, k);
      ErrorStays(items, k);
    }
    if DecodeAll(items).Err? {
      var k := FirstBad(items);
      assert FirstWrong(items, k, ItemError(items[k]).value);
    }
  }

  lemma GoodFront(items: seq<Item>, k: nat)
    requires k < |items| && forall j | 0 <= j < k :: ItemError(items[j]).None?
    ensures DecodeAll(items[..k]).Ok?
  {
    hide ItemError;
    DecodeAllIsFold(items[..k]);
  }

  lemma FirstBad(items: seq<Item>) returns (k: nat)
    requires exists item | item in items :: ItemError(item).Some?
    ensures k < |items| && ItemError(items[k]).Some? && forall j | 0 <= j < k :: ItemError(items[j]).None?
  {
    hide ItemError;
    k := 0;
    while ItemError(items[k]).None?
      invariant k < |items| && forall j | 0 <= j < k :: ItemError(items[j]).None?
      decreases |items| - k
    {
      k := k + 1;
    }
  }

  lemma {:induction false} ErrorPrefix(items: seq<Item>, k: nat, n: nat)
    requires k < n <= |items| && DecodeAll(items[..k]).Ok? && ItemError(items[k]).Some?
    ensures DecodeAll(items[..n]) == Err(ItemError(items[k]).value)
    decreases n
  {
    hide ItemError, Add;
    assert items[..n][..n - 1] == items[..n - 1] && items[..n][n - 1] == items[n - 1];
    if n > k + 1 { ErrorPrefix(items, k, n - 1); }
  }

  // ----- nothing is lost -----

  /** An item without its optional id and status. */
  function Strip(item: Item): Item {
    match item
    case MessageItem(_, _) => item
    case CallItem(_, _, call) => CallItem(None, None, call)
    case OutputItem(_, _, callID, output) => OutputItem(None, None, callID, output)
  }

  function StripAll(items: seq<Item>): seq<Item> {
    seq(|items|, i requires 0 <= i < |items| => Strip(items[i]))
  }

  function CallItems(calls: seq<ToolCall>): seq<Item> {
    seq(|calls|, i requires 0 <= i < |calls| => CallItem(None, None, calls[i]))
  }

  function TextOf(c: Content): string {
    if c.Text? then c.text else ""
  }

  /** The items a message was made of. */
  function Unfold(m: Message): seq<Item> {
    if m.role == Tool then [OutputItem(None, None, m.toolCallID, TextOf(m.content))]
    else if CallOnly(m) then CallItems(m.toolCalls)
    else [MessageItem(m.role, TextOf(m.content))]
  }

  function UnfoldAll(ms: seq<Message>): seq<Item> {
    if ms == [] then [] else UnfoldAll(ms[..|ms| - 1]) + Unfold(ms[|ms| - 1])
  }

  /** A message that claims to be a tool answer; Unfold reads it as a call output. */
  predicate NoToolMessages(items: seq<Item>) {
    forall item | item in items :: !(item.MessageItem? && item.role == Tool)
  }

  lemma UnfoldAdded(messages: seq<Message>, item: Item)
    ensures UnfoldAll(Add(messages, item)) ==
              UnfoldAll(messages) +
                [if item.MessageItem? && item.role == Tool then OutputItem(None, None, "", item.text) else Strip(item)]
  {
    var after := Add(messages, item);
    var n := |messages|;
    if item.CallItem? && messages != [] && CallOnly(messages[n - 1]) {
      var last := messages[n - 1];
      assert after[..n - 1] == messages[..n - 1];
      assert CallItems(last.toolCalls + [item.call]) == CallItems(last.toolCalls) + [Strip(item)];
    } else {
      assert after[..n] == messages;
      if item.CallItem? { assert CallItems([item.call]) == [Strip(item)]; }
    }
  }

  lemma {:induction false} FoldLength(items: seq<Item>)
    ensures |UnfoldAll(Fold(items))| == |items|
    ensures forall i | 0 <= i < |items| ::
              UnfoldAll(Fold(items))[i] ==
                if items[i].MessageItem? && items[i].role == Tool then OutputItem(None, None, "", items[i].text)
                  else Strip(items[i])
    decreases |items|
  {
    hide Add, UnfoldAll;
    if items == [] {
      UnfoldNothing();
    } else {
      FoldLength(items[..|items| - 1]);
      UnfoldAdded(Fold(items[..|items| - 1]), items[|items| - 1]);
    }
  }

  lemma UnfoldNothing()
    ensures UnfoldAll([]) == []
  {
  }

  /** Unfolding the messages gives back the items in order, without ids and statuses,
      exactly when no message item claims the tool role. */
  lemma FoldingIsLosslessIff(items: seq<Item>)
    ensures UnfoldAll(Fold(items)) == StripAll(items) <==> NoToolMessages(items)
  {
    hide UnfoldAll, Fold;
    FoldLength(items);
    var back := UnfoldAll(Fold(items));
    if !NoToolMessages(items) {
      var item :| item in items && item.MessageItem? && item.role == Tool;
      var i :| 0 <= i < |items| && items[i] == item;
      assert back[i] == OutputItem(None, None, "", item.text) && StripAll(items)[i] == item;
    }
  }

  /** Such an item is indistinguishable from an output without a call id. */
  lemma ToolMessageLooksLikeOutput(text: string)
    ensures Fold([MessageItem(Tool, text)]) == Fold([OutputItem(None, None, "", text)])
  {
  }

  predicate NoAdjacentCalls(ms: seq<Message>) {
    forall i | 0 < i < |ms| :: !(CallOnly(ms[i - 1]) && CallOnly(ms[i]))
  }

  /** Consecutive calls always share one message. */
  lemma {:induction false} CallsAreGathered(items: seq<Item>)
    ensures NoAdjacentCalls(Fold(items))
    decreases |items|
  {
    if items != [] { CallsAreGathered(items[..|items| - 1]); }
  }

  // ----- when the folded list is a valid conversation -----

  /** What folding produces: said, calling or answering messages. */
  predicate Folded(m: Message) {
    || m == Said(m.role, TextOf(m.content))
    || (CallOnly(m) && m == Calling(m.toolCalls))
    || (m.role == Tool && m == Answering(m.toolCallID, TextOf(m.content)))
  }

  lemma {:induction false} FoldIsFolded(items: seq<Item>)
    ensures forall m | m in Fold(items) :: Folded(m)
    decreases |items|
  {
    if items != [] {
      var before := Fold(items[..|items| - 1]);
      FoldIsFolded(items[..|items| - 1]);
      assert forall m | m in before[..|before|] :: Folded(m);
      assert before != [] ==> before[|before| - 1] in before && forall m | m in before[..|before| - 1] :: m in before;
    }
  }

  /** A part of the item list: a message, or a run of calls and one output per call. */
  datatype Part = Speech(role: Role, text: string) | Exchange(calls: seq<ToolCall>, outputs: seq<(string, string)>)

  function OutputIDs(outputs: seq<(string, string)>): (ids: seq<string>)
    ensures |ids| == |outputs|
  {
    seq(|outputs|, i requires 0 <= i < |outputs| => outputs[i].0)
  }

  predicate PartOk(p: Part) {
    match p
    case Speech(role, _) => role != Tool && !role.OtherRole?
    case Exchange(calls, outputs) =>
      && 1 <= |calls| <= 64 && (forall call | call in calls :: CallOk(call))
      && Distinct(OutputIDs(outputs)) && SetOf(OutputIDs(outputs)) == SetOf(IDs(calls))
  }

  function OutputItems(outputs: seq<(string, string)>): seq<Item> {
    seq(|outputs|, i requires 0 <= i < |outputs| => OutputItem(None, None, outputs[i].0, outputs[i].1))
  }

  function PartItems(p: Part): seq<Item> {
    match p
    case Speech(role, text) => [MessageItem(role, text)]
    case Exchange(calls, outputs) => CallItems(calls) + OutputItems(outputs)
  }

  function PartsItems(ps: seq<Part>): seq<Item> {
    if ps == [] then [] else PartItems(ps[0]) + PartsItems(ps[1..])
  }

  function PartsIDs(ps: seq<Part>): seq<string> {
    if ps == [] then [] else (if ps[0].Exchange? then IDs(ps[0].calls) else []) + PartsIDs(ps[1..])
  }

  predicate Coherent(ps: seq<Part>) {
    (forall p | p in ps :: PartOk(p)) && Distinct(PartsIDs(ps))
  }

  // ----- parts and blocks correspond -----

  function AnswerMessages(outputs: seq<(string, string)>): (ms: seq<Message>)
    ensures |ms| == |outputs|
  {
    seq(|outputs|, i requires 0 <= i < |outputs| => Answering(outputs[i].0, outputs[i].1))
  }

  function BlockOf(p: Part): Block {
    match p
    case Speech(role, text) => Plain(Said(role, text))
    case Exchange(calls, outputs) => Round(Calling(calls), AnswerMessages(outputs))
  }

  function BlocksOf(ps: seq<Part>): (bs: seq<Block>)
    ensures |bs| == |ps|
  {
    if ps == [] then [] else [BlockOf(ps[0])] + BlocksOf(ps[1..])
  }

  function OutputsOf(answers: seq<Message>): (outputs: seq<(string, string)>)
    ensures |outputs| == |answers|
  {
    seq(|answers|, i requires 0 <= i < |answers| => (answers[i].toolCallID, TextOf(answers[i].content)))
  }

  function PartOf(b: Block): Part {
    match b
    case Plain(m) => Speech(m.role, TextOf(m.content))
    case Round(m, answers) => Exchange(m.toolCalls, OutputsOf(answers))
  }

  function PartsOf(bs: seq<Block>): (ps: seq<Part>)
    ensures |ps| == |bs|
  {
    if bs == [] then [] else [PartOf(bs[0])] + PartsOf(bs[1..])
  }

  // ----- folding the items of parts gives the messages of blocks -----

  lemma FoldSnoc(before: seq<Item>, item: Item)
    ensures Fold(before + [item]) == Add(Fold(before), item)
  {
  }

  /** The last message, if any, is not one a call would join. */
  predicate Closed(ms: seq<Message>) {
    ms == [] || !CallOnly(ms[|ms| - 1])
  }

  lemma AddFirstCall(ms: seq<Message>, call: ToolCall)
    requires Closed(ms)
    ensures Add(ms, CallItem(None, None, call)) == ms + [Calling([call])]
  {
  }

  lemma AddNextCall(ms: seq<Message>, calls: seq<ToolCall>, call: ToolCall)
    requires calls != []
    ensures Add(ms + [Calling(calls)], CallItem(None, None, call)) == ms + [Calling(calls + [call])]
  {
  }

  lemma CallItemsSnoc(calls: seq<ToolCall>)
    requires calls != []
    ensures CallItems(calls) == CallItems(calls[..|calls| - 1]) + [CallItem(None, None, calls[|calls| - 1])]
  {
  }

  lemma {:induction false} FoldCalls(before: seq<Item>, calls: seq<ToolCall>)
    requires calls != [] && Closed(Fold(before))
    ensures Fold(before + CallItems(calls)) == Fold(before) + [Calling(calls)]
    decreases |calls|
  {
    hide Fold, Add, CallItems, Closed, Calling;
    var n := |calls| - 1;
    var item := CallItem(None, None, calls[n]);
    CallItemsSnoc(calls);
    assert before + CallItems(calls) == before + CallItems(calls[..n]) + [item];
    FoldSnoc(before + CallItems(calls[..n]), item);
    if n == 0 {
      NoCallItems(calls[..0]);
      assert before + [] == before && calls == [calls[0]];
      AddFirstCall(Fold(before), calls[0]);
    } else {
      FoldCalls(before, calls[..n]);
      AddNextCall(Fold(before), calls[..n], calls[n]);
      assert calls == calls[..n] + [calls[n]];
    }
  }

  lemma NoCallItems(calls: seq<ToolCall>)
    requires calls == []
    ensures CallItems(calls) == []
  {
  }

  lemma OutputsSnoc(outputs: seq<(string, string)>)
    requires outputs != []
    ensures var n := |outputs| - 1;
            OutputItems(outputs) == OutputItems(outputs[..n]) + [OutputItem(None, None, outputs[n].0, outputs[n].1)] &&
            AnswerMessages(outputs) == AnswerMessages(outputs[..n]) + [Answering(outputs[n].0, outputs[n].1)]
  {
  }

  lemma {:induction false} FoldOutputs(before: seq<Item>, outputs: seq<(string, string)>)
    ensures Fold(before + OutputItems(outputs)) == Fold(before) + AnswerMessages(outputs)
    decreases |outputs|
  {
    hide Fold, Answering;
    if outputs == [] {
      assert before + OutputItems(outputs) == before;
    } else {
      var n := |outputs| - 1;
      var item := OutputItem(None, None, outputs[n].0, outputs[n].1);
      OutputsSnoc(outputs);
      FoldOutputs(before, outputs[..n]);
      FoldSnoc(before + OutputItems(outputs[..n]), item);
      assert before + OutputItems(outputs) == before + OutputItems(outputs[..n]) + [item];
    }
  }

  lemma FoldPart(before: seq<Item>, p: Part)
    requires PartOk(p) && Closed(Fold(before))
    ensures Fold(before + PartItems(p)) == Fold(before) + Messages(BlockOf(p))
    ensures Closed(Fold(before + PartItems(p)))
  {
    hide CallOk, Distinct, Fold, CallItems, OutputItems;
    match p {
      case Speech(role, text) =>
        FoldSnoc(before, MessageItem(role, text));
      case Exchange(calls, outputs) =>
        FoldCalls(before, calls);
        FoldOutputs(before + CallItems(calls), outputs);
        assert before + (CallItems(calls) + OutputItems(outputs)) == before + CallItems(calls) + OutputItems(outputs);
        SomeOutput(calls, outputs);
        var ms := Fold(before) + [Calling(calls)] + AnswerMessages(outputs);
        assert ms == Fold(before) + ([Calling(calls)] + AnswerMessages(outputs));
        assert ms[|ms| - 1] == AnswerMessages(outputs)[|outputs| - 1];
    }
  }

  lemma SomeOutput(calls: seq<ToolCall>, outputs: seq<(string, string)>)
    requires calls != [] && SetOf(OutputIDs(outputs)) == SetOf(IDs(calls))
    ensures outputs != []
  {
    assert IDs(calls)[0] in SetOf(IDs(calls));
  }

  lemma {:induction false} FoldParts(before: seq<Item>, ps: seq<Part>)
    requires (forall p | p in ps :: PartOk(p)) && Closed(Fold(before))
    ensures Fold(before + PartsItems(ps)) == Fold(before) + Flatten(BlocksOf(ps))
    decreases |ps|
  {
    hide PartOk, PartItems, BlockOf, Fold, Closed, Messages;
    if ps == [] {
      assert before + PartsItems(ps) == before;
    } else {
      var head, rest := PartItems(ps[0]), PartsItems(ps[1..]);
      FoldPart(before, ps[0]);
      FoldParts(before + head, ps[1..]);
      assert before + PartsItems(ps) == before + head + rest;
      assert BlocksOf(ps)[1..] == BlocksOf(ps[1..]);
      Assoc(Fold(before), Messages(BlockOf(ps[0])), Flatten(BlocksOf(ps[1..])));
    }
  }

  lemma {:induction false} IDsAgree(ps: seq<Part>)
    ensures BlockIDs(BlocksOf(ps)) == PartsIDs(ps)
    decreases |ps|
  {
    if ps != [] {
      IDsAgree(ps[1..]);
      assert BlocksOf(ps)[1..] == BlocksOf(ps[1..]);
      if ps[0].Speech? { assert IDs(BlockOf(ps[0]).message.toolCalls) == []; }
    }
  }

  lemma PartBlockOk(p: Part)
    requires PartOk(p)
    ensures BlockOk(BlockOf(p)) && AllLocal(Messages(BlockOf(p)))
  {
    hide CallOk, Distinct;
    if p.Exchange? { assert AnswerIDs(AnswerMessages(p.outputs)) == OutputIDs(p.outputs); }
  }

  lemma {:induction false} PartsGrammatical(ps: seq<Part>)
    requires forall p | p in ps :: PartOk(p)
    ensures (forall b | b in BlocksOf(ps) :: BlockOk(b)) && AllLocal(Flatten(BlocksOf(ps)))
    decreases |ps|
  {
    hide PartOk, BlockOk, BlockOf, LocalOk, Messages;
    if ps != [] {
      assert ps[0] in ps;
      PartBlockOk(ps[0]);
      PartsGrammatical(ps[1..]);
      assert BlocksOf(ps)[1..] == BlocksOf(ps[1..]);
      forall m | m in Flatten(BlocksOf(ps)) ensures LocalOk(m) {
        assert m in Messages(BlockOf(ps[0])) || m in Flatten(BlocksOf(ps[1..]));
      }
    }
  }

  lemma NothingIsClosed()
    ensures Fold([]) == [] && Closed(Fold([]))
  {
  }

  /** The items of coherent parts fold to an accepted conversation. */
  lemma CoherentIsAccepted(ps: seq<Part>)
    requires Coherent(ps)
    ensures Accepts(Fold(PartsItems(ps)))
  {
    hide Accepts, PartOk, BlockOk, AllLocal, CallOnly;
    NothingIsClosed();
    FoldParts([], ps);
    assert [] + PartsItems(ps) == PartsItems(ps) && Fold([]) == [];
    assert [] + Flatten(BlocksOf(ps)) == Flatten(BlocksOf(ps));
    PartsGrammatical(ps);
    IDsAgree(ps);
    assert Grammatical(BlocksOf(ps));
    AcceptsIffGrammatical(Fold(PartsItems(ps)));
  }

  // ----- and back: an accepted folded list comes from coherent parts -----

  lemma {:induction false} UnfoldSplit(a: seq<Message>, b: seq<Message>)
    ensures UnfoldAll(a + b) == UnfoldAll(a) + UnfoldAll(b)
    decreases |b|
  {
    hide Unfold;
    if b == [] {
      assert a + b == a;
    } else {
      var n := |b| - 1;
      UnfoldSplit(a, b[..n]);
      assert (a + b)[..|a| + n] == a + b[..n] && (a + b)[|a| + n] == b[n];
    }
  }

  lemma {:induction false} UnfoldAnswers(answers: seq<Message>)
    requires forall a | a in answers :: a.role == Tool
    ensures UnfoldAll(answers) == OutputItems(OutputsOf(answers))
    decreases |answers|
  {
    if answers != [] {
      var n := |answers| - 1;
      UnfoldAnswers(answers[..n]);
      assert answers[n] in answers;
      assert OutputItems(OutputsOf(answers)) == OutputItems(OutputsOf(answers[..n])) + Unfold(answers[n]);
    }
  }

  /** In a folded list a message with calls is call-only, and no tool answer lacks an id. */
  predicate FoldedBlock(b: Block) {
    forall m | m in Messages(b) :: Folded(m) && LocalOk(m)
  }

  lemma UnfoldOne(m: Message)
    ensures UnfoldAll([m]) == Unfold(m)
  {
    assert [m][..0] == [] && [] + Unfold(m) == Unfold(m);
  }

  lemma RoundPart(b: Block)
    requires BlockOk(b) && FoldedBlock(b) && b.Round?
    ensures PartOk(PartOf(b)) && UnfoldAll(Messages(b)) == PartItems(PartOf(b))
  {
    hide CallOk, Distinct, UnfoldAll;
    var m := b.message;
    assert m in Messages(b);
    UnfoldOne(m);
    UnfoldSplit([m], b.answers);
    UnfoldAnswers(b.answers);
    assert OutputIDs(OutputsOf(b.answers)) == AnswerIDs(b.answers);
    LocalCalls(m);
    assert CallOnly(m);
  }

  lemma BlockPart(b: Block)
    requires BlockOk(b) && FoldedBlock(b)
    ensures PartOk(PartOf(b)) && UnfoldAll(Messages(b)) == PartItems(PartOf(b))
    ensures (if PartOf(b).Exchange? then IDs(PartOf(b).calls) else []) == IDs(b.message.toolCalls)
  {
    hide CallOk, Distinct, UnfoldAll;
    assert b.message in Messages(b);
    var m := b.message;
    UnfoldOne(m);
    if b.Plain? {
      assert IDs(m.toolCalls) == [];
      LocalRoles(m);
    } else {
      RoundPart(b);
    }
  }

  lemma LocalRoles(m: Message)
    requires LocalOk(m)
    ensures !m.role.OtherRole?
  {
  }

  lemma LocalCalls(m: Message)
    requires LocalOk(m) && m.role == Assistant
    ensures |m.toolCalls| <= MAX_PARALLEL_CALLS && forall call | call in m.toolCalls :: CallOk(call)
  {
  }

  lemma {:induction false} BlocksParts(bs: seq<Block>)
    requires forall b | b in bs :: BlockOk(b) && FoldedBlock(b)
    ensures (forall p | p in PartsOf(bs) :: PartOk(p)) && PartsItems(PartsOf(bs)) == UnfoldAll(Flatten(bs))
    ensures PartsIDs(PartsOf(bs)) == BlockIDs(bs)
    decreases |bs|
  {
    hide BlockOk, FoldedBlock, PartOk, PartOf, Messages, UnfoldAll, PartItems;
    if bs == [] {
      UnfoldNothing();
    } else {
      assert bs[0] in bs;
      BlockPart(bs[0]);
      BlocksParts(bs[1..]);
      UnfoldSplit(Messages(bs[0]), Flatten(bs[1..]));
      assert PartsOf(bs)[1..] == PartsOf(bs[1..]);
    }
  }

  lemma {:induction false} FlattenHolds(bs: seq<Block>, b: Block, m: Message)
    requires b in bs && m in Messages(b)
    ensures m in Flatten(bs)
    decreases |bs|
  {
    if bs[0] != b { FlattenHolds(bs[1..], b, m); }
  }

  /** Every tool answer of an accepted conversation names a call. */
  lemma AnswersAreNamed(bs: seq<Block>, b: Block, a: Message)
    requires Grammatical(bs) && AllLocal(Flatten(bs)) && b in bs && a in Messages(b) && a.role == Tool
    ensures a.toolCallID != ""
  {
    hide BlockIDs;
    assert BlockOk(b);
    assert b.Round? && a in b.answers;
    var i :| 0 <= i < |b.answers| && b.answers[i] == a;
    assert AnswerIDs(b.answers)[i] in SetOf(AnswerIDs(b.answers));
    assert a.toolCallID in SetOf(IDs(b.message.toolCalls));
    var j :| 0 <= j < |b.message.toolCalls| && IDs(b.message.toolCalls)[j] == a.toolCallID;
    assert b.message in Messages(b);
    FlattenHolds(bs, b, b.message);
    LocalCalls(b.message);
    assert b.message.toolCalls[j] in b.message.toolCalls;
  }

  lemma {:induction false} FlattenBlock(bs: seq<Block>, m: Message)
    requires m in Flatten(bs)
    ensures exists b :: b in bs && m in Messages(b)
    decreases |bs|
  {
    if m !in Messages(bs[0]) {
      FlattenBlock(bs[1..], m);
      var b :| b in bs[1..] && m in Messages(b);
      assert b in bs;
    } else {
      assert bs[0] in bs;
    }
  }

  lemma AcceptedHasNoToolMessages(items: seq<Item>)
    requires Accepts(Fold(items))
    ensures NoToolMessages(items)
  {
    hide Accepts, Grammatical, AllLocal, UnfoldAll, Fold, Messages, Flatten;
    var ms := Fold(items);
    AcceptsIffGrammatical(ms);
    var bs :| Grammatical(bs) && Flatten(bs) == ms;
    forall item | item in items ensures !(item.MessageItem? && item.role == Tool) {
      if item.MessageItem? && item.role == Tool {
        ToolMessageIsFolded(items, item);
        FlattenBlock(bs, Said(Tool, item.text));
        var b :| b in bs && Said(Tool, item.text) in Messages(b);
        AnswersAreNamed(bs, b, Said(Tool, item.text));
        assert false;
      }
    }
  }

  lemma {:induction false} ToolMessageIsFolded(items: seq<Item>, item: Item)
    requires item in items && item.MessageItem? && item.role == Tool
    ensures Said(Tool, item.text) in Fold(items)
    decreases |items|
  {
    var n := |items| - 1;
    var before := Fold(items[..n]);
    assert items == items[..n] + [items[n]];
    if item in items[..n] {
      ToolMessageIsFolded(items[..n], item);
      var m := Said(Tool, item.text);
      var i :| 0 <= i < |before| && before[i] == m;
      assert !CallOnly(m);
      var after := Fold(items);
      assert after[i] == m;
    } else {
      var after := Fold(items);
      assert after[|after| - 1] == Said(Tool, item.text);
    }
  }

  /** The folded list is a valid conversation exactly when the items are messages of
      known roles and runs of valid calls, each run followed at once by one output
      per call, with all call ids distinct. */
  lemma FoldedIsValidIff(items: seq<Item>)
    ensures Accepts(Fold(items)) <==> exists ps :: Coherent(ps) && PartsItems(ps) == StripAll(items)
  {
    hide Accepts, Grammatical, AllLocal, UnfoldAll, Fold, Coherent, Flatten, PartsItems;
    if Accepts(Fold(items)) {
      AcceptedHasNoToolMessages(items);
      FoldingIsLosslessIff(items);
      AcceptsIffGrammatical(Fold(items));
      var bs :| Grammatical(bs) && Flatten(bs) == Fold(items);
      PartsFromBlocks(bs, items);
    }
    if exists ps :: Coherent(ps) && PartsItems(ps) == StripAll(items) {
      var ps :| Coherent(ps) && PartsItems(ps) == StripAll(items);
      CoherentIsAccepted(ps);
      FoldIgnoresMetadata(items);
    }
  }

  lemma PartsFromBlocks(bs: seq<Block>, items: seq<Item>)
    requires Grammatical(bs) && Flatten(bs) == Fold(items) && AllLocal(Fold(items))
    ensures Coherent(PartsOf(bs)) && PartsItems(PartsOf(bs)) == UnfoldAll(Fold(items))
  {
    hide Folded, LocalOk, BlockOk, Fold, Messages, Flatten, UnfoldAll;
    FoldIsFolded(items);
    forall b | b in bs ensures BlockOk(b) && FoldedBlock(b) {
      forall m | m in Messages(b) ensures Folded(m) && LocalOk(m) { FlattenHolds(bs, b, m); }
    }
    BlocksParts(bs);
  }

  lemma {:induction false} FoldIgnoresMetadata(items: seq<Item>)
    ensures Fold(StripAll(items)) == Fold(items)
    decreases |items|
  {
    if items != [] {
      var n := |items| - 1;
      FoldIgnoresMetadata(items[..n]);
      assert StripAll(items)[..n] == StripAll(items[..n]);
    }
  }
}
