/** ProjectResponse, the non-streaming projection of a whole chat completion. */
module StreamProject {
  import opened Prelude
  import opened StreamModel

  datatype Content = Text(text: string) | Parts(parts: seq<string>) | NilContent | OtherContent

  datatype ToolCall = ToolCall(id: string, name: string, arguments: string)

  datatype CompletionChoice = CompletionChoice(role: string, content: Content, toolCalls: seq<ToolCall>)

  datatype Completion = Completion(created: int, model: string, choices: seq<CompletionChoice>, usage: Option<Usage>)

  datatype ProjectError = InvalidCompletion | NoID | EmptyCompletion

  type IDSource = (nat, IDPrefix) -> Option<string>

  function Join(parts: seq<string>): string {
    if parts == [] then "" else Join(parts[..|parts| - 1]) + parts[|parts| - 1]
  }

  /** responseText. */
  function ResponseText(content: Content): Option<string> {
    match content
    case Text(text) => Some(text)
    case Parts(parts) => Some(Join(parts))
    case _ => None
  }

  predicate ValidCompletion(completion: Completion) {
    completion.model != "" && completion.created >= 0 && |completion.choices| == 1 &&
    completion.choices[0].role == "assistant"
  }

  /** The items for the first n calls, when every id could be drawn; the k-th
      call takes the id drawn at position `from + k`. */
  function CallItems(ids: IDSource, from: nat, calls: seq<ToolCall>): (items: Option<seq<Item>>)
    decreases |calls|
  {
    if calls == [] then Some([]) else
    var n := |calls| - 1;
    var before := CallItems(ids, from, calls[..n]);
    var id := ids(from + n, FcID);
    if before.None? || id.None? then None else
    Some(before.value + [CallItem(id.value, Completed, calls[n].id, calls[n].name, calls[n].arguments)])
  }

  /** The message item, when there is text and its id could be drawn. */
  function Head(ids: IDSource, text: Option<string>): seq<Item> {
    if text.Some? && ids(1, MsgID).Some? then [MessageItem(ids(1, MsgID).value, Completed, [text.value])] else []
  }

  function Project(completion: Completion, parallel: bool, ids: IDSource): Result<Response, ProjectError> {
    if !ValidCompletion(completion) then Err(InvalidCompletion) else
    var id := ids(0, RespID);
    if id.None? then Err(NoID) else
    var message := completion.choices[0];
    var text := ResponseText(message.content);
    if text.Some? && ids(1, MsgID).None? then Err(NoID) else
    var head := Head(ids, text);
    var calls := CallItems(ids, 1 + |head|, message.toolCalls);
    if calls.None? then Err(NoID) else
    if head + calls.value == [] then Err(EmptyCompletion) else
    Ok(Response(id.value, completion.created, Completed, None, completion.model, head + calls.value, parallel,
                completion.usage))
  }

  lemma {:induction false} CallItemsPrefix(ids: IDSource, from: nat, calls: seq<ToolCall>, n: nat)
    requires n <= |calls| && CallItems(ids, from, calls[..n]).None?
    ensures CallItems(ids, from, calls).None?
    decreases |calls| - n
  {
    if n == |calls| {
      assert calls[..n] == calls;
    } else {
      assert calls[..n + 1][..n] == calls[..n];
      CallItemsPrefix(ids, from, calls, n + 1);
    }
  }

  lemma CallItemsSnoc(ids: IDSource, from: nat, calls: seq<ToolCall>, i: nat)
    requires i < |calls| && CallItems(ids, from, calls[..i]).Some?
    ensures CallItems(ids, from, calls[..i + 1]) ==
            (if ids(from + i, FcID).None? then None else
             Some(CallItems(ids, from, calls[..i]).value +
                  [CallItem(ids(from + i, FcID).value, Completed, calls[i].id, calls[i].name, calls[i].arguments)]))
  {
    assert calls[..i + 1][..i] == calls[..i];
  }

  /** The id source answers every draw the projection of this text and these calls makes. */
  predicate AnswersAll(ids: IDSource, text: Option<string>, calls: nat) {
    && ids(0, RespID).Some? && (text.Some? ==> ids(1, MsgID).Some?)
    && var first := if text.Some? then 2 else 1;
       forall n | first <= n < first + calls :: ids(n, FcID).Some?
  }

  lemma {:induction false} CallItemsIff(ids: IDSource, from: nat, calls: seq<ToolCall>)
    ensures CallItems(ids, from, calls).Some? <==> forall n | from <= n < from + |calls| :: ids(n, FcID).Some?
    ensures CallItems(ids, from, calls).Some? ==> |CallItems(ids, from, calls).value| == |calls|
    decreases |calls|
  {
    if calls != [] {
      CallItemsIff(ids, from, calls[..|calls| - 1]);
    }
  }

  /** When the projection fails, and how: a malformed completion first, then an id
      source that leaves one of its draws unanswered, then nothing to output. */
  lemma ProjectFailsIff(completion: Completion, parallel: bool, ids: IDSource)
    ensures Project(completion, parallel, ids) == Err(InvalidCompletion) <==> !ValidCompletion(completion)
    ensures ValidCompletion(completion) ==>
              var text, calls := ResponseText(completion.choices[0].content), completion.choices[0].toolCalls;
              && (Project(completion, parallel, ids) == Err(NoID) <==> !AnswersAll(ids, text, |calls|))
              && (Project(completion, parallel, ids) == Err(EmptyCompletion) <==>
                    AnswersAll(ids, text, |calls|) && text.None? && calls == [])
  {
    if ValidCompletion(completion) {
      hide CallItems, ResponseText;
      var text, calls := ResponseText(completion.choices[0].content), completion.choices[0].toolCalls;
      CallItemsIff(ids, 1 + |Head(ids, text)|, calls);
    }
  }

  lemma {:induction false} CallItemsAre(ids: IDSource, from: nat, calls: seq<ToolCall>, k: nat)
    requires CallItems(ids, from, calls).Some? && k < |calls|
    ensures |CallItems(ids, from, calls).value| == |calls| && ids(from + k, FcID).Some?
    ensures CallItems(ids, from, calls).value[k] ==
            CallItem(ids(from + k, FcID).value, Completed, calls[k].id, calls[k].name, calls[k].arguments)
    decreases |calls|
  {
    CallItemsIff(ids, from, calls);
    if k < |calls| - 1 {
      CallItemsIff(ids, from, calls[..|calls| - 1]);
      CallItemsAre(ids, from, calls[..|calls| - 1], k);
    } else {
      CallItemsIff(ids, from, calls[..|calls| - 1]);
    }
  }

  /** What a projected response holds, place by place: the completion's own fields, one
      completed message when there is text, then the calls in order; the response took
      the first id that was drawn, and the items the next ones, each in its place. */
  lemma ProjectedFields(completion: Completion, parallel: bool, ids: IDSource)
    requires Project(completion, parallel, ids).Ok?
    ensures var r := Project(completion, parallel, ids).value;
            var text, calls := ResponseText(completion.choices[0].content), completion.choices[0].toolCalls;
            && ids(0, RespID) == Some(r.id) && r.createdAt == completion.created && r.status == Completed
            && r.error == None && r.model == completion.model && r.parallel == parallel && r.usage == completion.usage
            && |r.output| == |calls| + (if text.Some? then 1 else 0)
            && (text.Some? ==> ids(1, MsgID).Some? &&
                               r.output[0] == MessageItem(ids(1, MsgID).value, Completed, [text.value]))
            && forall k | 0 <= k < |calls| ::
                 var place := if text.Some? then k + 1 else k;
                 ids(place + 1, FcID).Some? &&
                 r.output[place] ==
                   CallItem(ids(place + 1, FcID).value, Completed, calls[k].id, calls[k].name, calls[k].arguments)
  {
    hide CallItems, ResponseText;
    var text, calls := ResponseText(completion.choices[0].content), completion.choices[0].toolCalls;
    var head := Head(ids, text);
    CallItemsIff(ids, 1 + |head|, calls);
    forall k | 0 <= k < |calls|
      ensures ids(1 + |head| + k, FcID).Some? &&
              CallItems(ids, 1 + |head|, calls).value[k] ==
              CallItem(ids(1 + |head| + k, FcID).value, Completed, calls[k].id, calls[k].name, calls[k].arguments)
    {
      CallItemsAre(ids, 1 + |head|, calls, k);
    }
  }

  /** The parts one after the other. */
  function Flat(parts: seq<string>): string {
    if parts == [] then "" else parts[0] + Flat(parts[1..])
  }

  lemma {:induction false} JoinFront(first: string, parts: seq<string>)
    ensures Join([first] + parts) == first + Join(parts)
    decreases |parts|
  {
    var n := |parts| - 1;
    if parts == [] {
      assert [first] + parts == [first] && [first][..0] == [];
    } else {
      assert ([first] + parts)[..n + 1] == [first] + parts[..n];
      JoinFront(first, parts[..n]);
      Assoc(first, Join(parts[..n]), parts[n]);
    }
  }

  lemma {:induction false} JoinIsFlat(parts: seq<string>)
    ensures Join(parts) == Flat(parts)
    decreases |parts|
  {
    if parts != [] {
      JoinIsFlat(parts[1..]);
      JoinFront(parts[0], parts[1..]);
      assert parts == [parts[0]] + parts[1..];
    }
  }

  /** A content in parts is projected as the text they make in order, and one part as
      that text. */
  lemma PartsAreOneText(completion: Completion, parts: seq<string>, parallel: bool, ids: IDSource)
    requires |completion.choices| == 1
    ensures var choice := completion.choices[0];
            Project(completion.(choices := [choice.(content := Parts(parts))]), parallel, ids) ==
            Project(completion.(choices := [choice.(content := Text(Flat(parts)))]), parallel, ids)
  {
    hide CallItems;
    JoinIsFlat(parts);
  }

  lemma NoCallItems(ids: IDSource, from: nat, calls: seq<ToolCall>)
    ensures CallItems(ids, from, calls[..0]) == Some([])
  {
  }

  method ProjectResponse(completion: Completion, parallel: bool, ids: IDSource)
    returns (result: Result<Response, ProjectError>)
    ensures result == Project(completion, parallel, ids)
  {
    hide ResponseText, CallItems;
    if completion.model == "" || completion.created < 0 || |completion.choices| != 1
       || completion.choices[0].role != "assistant" {
      return Err(InvalidCompletion);
    }
    var responseID := ids(0, RespID);
    if responseID.None? { return Err(NoID); }
    var drawn := 1;
    var output: seq<Item> := [];
    var message := completion.choices[0];
    var text := ResponseText(message.content);
    if text.Some? {
      var messageID := ids(drawn, MsgID);
      drawn := drawn + 1;
      if messageID.None? { return Err(NoID); }
      output := output + [MessageItem(messageID.value, Completed, [text.value])];
    }
    ghost var head := Head(ids, text);
    assert output == head && drawn == 1 + |head|;
    hide Head;
    NoCallItems(ids, 1 + |head|, message.toolCalls);
    for i := 0 to |message.toolCalls|
      invariant drawn == 1 + |head| + i
      invariant CallItems(ids, 1 + |head|, message.toolCalls[..i]).Some?
      invariant output == head + CallItems(ids, 1 + |head|, message.toolCalls[..i]).value
    {
      var call := message.toolCalls[i];
      CallItemsSnoc(ids, 1 + |head|, message.toolCalls, i);
      var itemID := ids(drawn, FcID);
      drawn := drawn + 1;
      if itemID.None? {
        CallItemsPrefix(ids, 1 + |head|, message.toolCalls, i + 1);
        return Err(NoID);
      }
      output := output + [CallItem(itemID.value, Completed, call.id, call.name, call.arguments)];
    }
    assert message.toolCalls[..|message.toolCalls|] == message.toolCalls;
    if |output| == 0 {
      assert output == [];
      return Err(EmptyCompletion);
    }
    assert Project(completion, parallel, ids).Ok? && Project(completion, parallel, ids).value.output == output;
    result := Ok(Response(responseID.value, completion.created, Completed, None, completion.model, output, parallel,
                          completion.usage));
  }
}
