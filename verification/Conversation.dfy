/** The tool-call protocol of a conversation: the one-pass check with its declared
    and open sets, and the block grammar it is equivalent to. */
module Conversation {
  import opened Prelude
  import opened Limits
  import Utf8

  datatype Role = System | Developer | User | Assistant | Tool | OtherRole(name: string)

  /** nil, a string, or the raw JSON of a multi-part user content. */
  datatype Content = NoContent | Text(text: string) | Parts(raw: string)

  datatype ToolCall = ToolCall(id: string, name: string, arguments: string)

  datatype Message = Message(role: Role, content: Content, toolCalls: seq<ToolCall>, toolCallID: string,
    reasoning: Option<string>)

  predicate CallOk(call: ToolCall) {
    ValidCallID(call.id) && ValidFunctionName(call.name) &&
    Utf8.Valid(call.arguments) && |call.arguments| <= MAX_ARGUMENTS_BYTES
  }

  predicate ReasoningOk(reasoning: Option<string>) {
    reasoning.Some? ==> Utf8.Valid(reasoning.value) && |reasoning.value| <= MAX_TEXT_CONTENT_BYTES
  }

  /** What the check asks of a message on its own. */
  predicate LocalOk(m: Message) {
    match m.role
    case System => PlainOk(m)
    case Developer => PlainOk(m)
    case User => PlainOk(m)
    case Assistant =>
      && (m.content != NoContent || m.toolCalls != []) && |m.toolCalls| <= MAX_PARALLEL_CALLS && m.toolCallID == ""
      && ReasoningOk(m.reasoning) && forall call | call in m.toolCalls :: CallOk(call)
    case Tool => m.toolCalls == [] && m.content != NoContent && m.reasoning.None?
    case OtherRole(_) => false
  }

  predicate PlainOk(m: Message) {
    m.content != NoContent && m.toolCalls == [] && m.toolCallID == "" && m.reasoning.None?
  }

  predicate AllLocal(ms: seq<Message>) {
    forall m | m in ms :: LocalOk(m)
  }

  function IDs(calls: seq<ToolCall>): (ids: seq<string>)
    ensures |ids| == |calls|
  {
    seq(|calls|, i requires 0 <= i < |calls| => calls[i].id)
  }

  function SetOf<T>(s: seq<T>): set<T> {
    set x | x in s
  }

  /** The loop, from a message list on: the ids declared so far and those still open. */
  predicate Run(ms: seq<Message>, declared: set<string>, open: set<string>) {
    if ms == [] then open == {}
    else
      var m := ms[0];
      LocalOk(m) && (m.role != Tool ==> open == {}) &&
      match m.role
      case Assistant =>
        Distinct(IDs(m.toolCalls)) && SetOf(IDs(m.toolCalls)) !! declared &&
        Run(ms[1..], declared + SetOf(IDs(m.toolCalls)), open + SetOf(IDs(m.toolCalls)))
      case Tool => m.toolCallID in open && Run(ms[1..], declared, open - {m.toolCallID})
      case _ => Run(ms[1..], declared, open)
  }

  /** The message part of validateConversation. */
  predicate Accepts(ms: seq<Message>) {
    Run(ms, {}, {})
  }

  // ----- the loop -----

  /** The loop over one assistant's calls. */
  method DeclareCalls(calls: seq<ToolCall>, declared: set<string>, open: set<string>)
    returns (ok: bool, nextDeclared: set<string>, nextOpen: set<string>)
    ensures ok == ((forall call | call in calls :: CallOk(call)) && Distinct(IDs(calls)) &&
            SetOf(IDs(calls)) !! declared)
    ensures ok ==> nextDeclared == declared + SetOf(IDs(calls)) && nextOpen == open + SetOf(IDs(calls))
  {
    hide CallOk;
    nextDeclared, nextOpen := declared, open;
    for k := 0 to |calls|
      invariant forall call | call in calls[..k] :: CallOk(call)
      invariant Distinct(IDs(calls)[..k]) && SetOf(IDs(calls)[..k]) !! declared
      invariant nextDeclared == declared + SetOf(IDs(calls)[..k]) && nextOpen == open + SetOf(IDs(calls)[..k])
    {
      var call := calls[k];
      IDsStep(calls, k);
      if !CallOk(call) {
        assert call in calls;
        return false, declared, open;
      }
      if call.id in nextDeclared {
        SameTwice(calls, k, declared);
        return false, declared, open;
      }
      nextDeclared := nextDeclared + {call.id};
      nextOpen := nextOpen + {call.id};
      assert calls[..k + 1] == calls[..k] + [call];
    }
    assert calls[..|calls|] == calls && IDs(calls)[..|calls|] == IDs(calls);
    ok := true;
  }

  lemma IDsStep(calls: seq<ToolCall>, k: nat)
    requires k < |calls|
    ensures IDs(calls)[..k + 1] == IDs(calls)[..k] + [calls[k].id]
    ensures SetOf(IDs(calls)[..k + 1]) == SetOf(IDs(calls)[..k]) + {calls[k].id}
  {
  }

  lemma SameTwice(calls: seq<ToolCall>, k: nat, declared: set<string>)
    requires k < |calls| && (calls[k].id in declared || calls[k].id in SetOf(IDs(calls)[..k]))
    ensures !Distinct(IDs(calls)) || !(SetOf(IDs(calls)) !! declared)
  {
    var ids := IDs(calls);
    assert ids[k] in SetOf(ids);
    if calls[k].id in SetOf(ids[..k]) {
      var i :| 0 <= i < k && ids[..k][i] == calls[k].id;
      assert ids[i] == ids[k];
    }
  }

  /** validateConversation's loop over the messages. */
  method Validate(ms: seq<Message>) returns (ok: bool)
    ensures ok == Accepts(ms)
  {
    hide CallOk, ReasoningOk, Distinct, SetOf, IDs;
    var declared: set<string>, open: set<string> := {}, {};
    assert ms[0..] == ms;
    for k := 0 to |ms|
      invariant Accepts(ms) == Run(ms[k..], declared, open)
    {
      var m := ms[k];
      assert ms[k..][0] == m && ms[k..][1..] == ms[k + 1..];
      if m.role != Tool && open != {} { return false; }
      match m.role {
        case System => if !PlainOk(m) { return false; }
        case Developer => if !PlainOk(m) { return false; }
        case User => if !PlainOk(m) { return false; }
        case Assistant =>
          if (m.content == NoContent && m.toolCalls == []) || |m.toolCalls| > MAX_PARALLEL_CALLS || m.toolCallID != "" {
            return false;
          }
          if !ReasoningOk(m.reasoning) { return false; }
          var fine;
          fine, declared, open := DeclareCalls(m.toolCalls, declared, open);
          if !fine { return false; }
        case Tool =>
          if m.toolCalls != [] || m.content == NoContent || m.reasoning.Some? { return false; }
          if m.toolCallID !in open { return false; }
          open := open - {m.toolCallID};
        case OtherRole(_) => return false;
      }
    }
    ok := open == {};
  }

  // ----- the grammar -----

  /** A message without calls, or an assistant's calls and the answers that follow. */
  datatype Block = Plain(message: Message) | Round(message: Message, answers: seq<Message>)

  function AnswerIDs(answers: seq<Message>): (ids: seq<string>)
    ensures |ids| == |answers|
  {
    seq(|answers|, i requires 0 <= i < |answers| => answers[i].toolCallID)
  }

  /** One answer per call, in some order. */
  predicate BlockOk(b: Block) {
    match b
    case Plain(m) => m.role != Tool && m.toolCalls == []
    case Round(m, answers) =>
      && m.role == Assistant && m.toolCalls != [] && (forall a | a in answers :: a.role == Tool)
      && Distinct(AnswerIDs(answers)) && SetOf(AnswerIDs(answers)) == SetOf(IDs(m.toolCalls))
  }

  function Messages(b: Block): seq<Message> {
    match b
    case Plain(m) => [m]
    case Round(m, answers) => [m] + answers
  }

  function Flatten(blocks: seq<Block>): seq<Message> {
    if blocks == [] then [] else Messages(blocks[0]) + Flatten(blocks[1..])
  }

  /** All call ids, in order. */
  function BlockIDs(blocks: seq<Block>): seq<string> {
    if blocks == [] then [] else IDs(blocks[0].message.toolCalls) + BlockIDs(blocks[1..])
  }

  predicate Grammatical(blocks: seq<Block>) {
    (forall b | b in blocks :: BlockOk(b)) && Distinct(BlockIDs(blocks))
  }

  // ----- from blocks to acceptance -----

  lemma DistinctParts<T>(a: seq<T>, b: seq<T>)
    ensures Distinct(a + b) <==> Distinct(a) && Distinct(b) && SetOf(a) !! SetOf(b)
  {
    var s := a + b;
    if Distinct(s) {
      forall i, j | 0 <= i < j < |a| ensures a[i] != a[j] { assert s[i] == a[i] && s[j] == a[j]; }
      forall i, j | 0 <= i < j < |b| ensures b[i] != b[j] { assert s[|a| + i] == b[i] && s[|a| + j] == b[j]; }
      forall i, j | 0 <= i < |a| && 0 <= j < |b| ensures a[i] != b[j] { assert s[i] == a[i] && s[|a| + j] == b[j]; }
      forall x | x in a ensures x !in b { var i :| 0 <= i < |a| && a[i] == x; }
    }
    if Distinct(a) && Distinct(b) && SetOf(a) !! SetOf(b) {
      forall i, j | 0 <= i < j < |s| ensures s[i] != s[j] {
        assert s[i] == if i < |a| then a[i] else b[i - |a|];
        assert s[j] == if j < |a| then a[j] else b[j - |a|];
        assert i < |a| ==> a[i] in SetOf(a);
        assert j >= |a| ==> b[j - |a|] in SetOf(b);
      }
    }
  }

  lemma {:induction false} RunAnswers(answers: seq<Message>, rest: seq<Message>, declared: set<string>,
      open: set<string>)
    requires forall a | a in answers :: a.role == Tool && LocalOk(a)
    requires Distinct(AnswerIDs(answers)) && SetOf(AnswerIDs(answers)) == open
    ensures Run(answers + rest, declared, open) == Run(rest, declared, {})
    decreases |answers|
  {
    hide LocalOk;
    if answers == [] {
      assert answers + rest == rest && AnswerIDs(answers) == [] && SetOf(AnswerIDs(answers)) == {};
    } else {
      assert answers[0] in answers;
      var more := answers[1..];
      assert (answers + rest)[0] == answers[0] && (answers + rest)[1..] == more + rest;
      assert AnswerIDs(answers) == [answers[0].toolCallID] + AnswerIDs(more);
      DistinctParts([answers[0].toolCallID], AnswerIDs(more));
      assert SetOf(AnswerIDs(more)) == open - {answers[0].toolCallID};
      RunAnswers(more, rest, declared, open - {answers[0].toolCallID});
    }
  }

  lemma RoundRuns(b: Block, rest: seq<Message>, declared: set<string>)
    requires b.Round? && BlockOk(b) && AllLocal(Messages(b))
    requires var ids := IDs(b.message.toolCalls);
             Distinct(ids) && SetOf(ids) !! declared && Run(rest, declared + SetOf(ids), {})
    ensures Run(Messages(b) + rest, declared, {})
  {
    hide LocalOk;
    var ids := IDs(b.message.toolCalls);
    assert forall m | m in [b.message] || m in b.answers :: m in Messages(b);
    assert b.message in Messages(b);
    var ms := Messages(b) + rest;
    assert ms[0] == b.message && ms[1..] == b.answers + rest;
    RunAnswers(b.answers, rest, declared + SetOf(ids), SetOf(ids));
    assert {} + SetOf(ids) == SetOf(ids);
  }

  lemma {:induction false} BlocksRun(blocks: seq<Block>, declared: set<string>)
    requires Grammatical(blocks) && AllLocal(Flatten(blocks)) && SetOf(BlockIDs(blocks)) !! declared
    ensures Run(Flatten(blocks), declared, {})
    decreases |blocks|
  {
    hide LocalOk, BlockOk, Run, Messages, IDs;
    if blocks == [] {
      NothingRuns(declared);
    } else {
      var b, rest := blocks[0], Flatten(blocks[1..]);
      var ids := IDs(b.message.toolCalls);
      assert b in blocks;
      DistinctParts(ids, BlockIDs(blocks[1..]));
      assert SetOf(BlockIDs(blocks)) == SetOf(ids) + SetOf(BlockIDs(blocks[1..]));
      assert forall m | m in Messages(b) || m in rest :: m in Flatten(blocks);
      BlocksRun(blocks[1..], declared + SetOf(ids));
      if b.Plain? { PlainBlockRuns(b, rest, declared); } else { RoundRuns(b, rest, declared); }
    }
  }

  lemma NothingRuns(declared: set<string>)
    ensures Run([], declared, {})
  {
  }

  lemma PlainBlockRuns(b: Block, rest: seq<Message>, declared: set<string>)
    requires b.Plain? && BlockOk(b) && AllLocal(Messages(b)) &&
             Run(rest, declared + SetOf(IDs(b.message.toolCalls)), {})
    ensures Run(Messages(b) + rest, declared, {})
  {
    hide LocalOk, Run;
    assert b.message in Messages(b);
    PlainRuns(b.message, rest, declared);
  }

  lemma PlainRuns(m: Message, rest: seq<Message>, declared: set<string>)
    requires m.role != Tool && m.toolCalls == [] && LocalOk(m)
    ensures Run([m] + rest, declared, {}) == Run(rest, declared, {})
    ensures SetOf(IDs(m.toolCalls)) == {}
    ensures declared + SetOf(IDs(m.toolCalls)) == declared
  {
    hide LocalOk;
    assert ([m] + rest)[0] == m && ([m] + rest)[1..] == rest;
    var ids := IDs(m.toolCalls);
    assert ids == [] && SetOf(ids) == {} && {} + SetOf(ids) == {} && declared + SetOf(ids) == declared;
    LocalRole(m);
  }

  lemma LocalRole(m: Message)
    ensures LocalOk(m) ==> !m.role.OtherRole?
  {
  }

  // ----- from acceptance to blocks -----

  lemma {:induction false} TakeAnswers(ms: seq<Message>, declared: set<string>, open: set<string>) returns (n: nat)
    requires Run(ms, declared, open)
    ensures n <= |ms| && (forall a | a in ms[..n] :: a.role == Tool) && Run(ms[n..], declared, {})
    ensures Distinct(AnswerIDs(ms[..n])) && SetOf(AnswerIDs(ms[..n])) == open
    decreases |ms|
  {
    hide LocalOk;
    if open == {} {
      n := 0;
      assert ms[0..] == ms;
    } else {
      var id := ms[0].toolCallID;
      var k := TakeAnswers(ms[1..], declared, open - {id});
      n := k + 1;
      assert ms[..n] == [ms[0]] + ms[1..][..k] && ms[n..] == ms[1..][k..];
      assert AnswerIDs(ms[..n]) == [id] + AnswerIDs(ms[1..][..k]);
      DistinctParts([id], AnswerIDs(ms[1..][..k]));
      assert SetOf(AnswerIDs(ms[..n])) == {id} + SetOf(AnswerIDs(ms[1..][..k]));
    }
  }

  lemma {:induction false} RunBlocks(ms: seq<Message>, declared: set<string>) returns (blocks: seq<Block>)
    requires Run(ms, declared, {})
    ensures Grammatical(blocks) && Flatten(blocks) == ms && SetOf(BlockIDs(blocks)) !! declared
    decreases |ms|
  {
    hide LocalOk;
    if ms == [] {
      blocks := [];
    } else {
      var m := ms[0];
      var ids := IDs(m.toolCalls);
      NoCalls(m);
      if m.toolCalls == [] {
        var rest := RunBlocks(ms[1..], declared);
        blocks := [Plain(m)] + rest;
        assert blocks[1..] == rest && ms == [m] + ms[1..];
        DistinctParts(ids, BlockIDs(rest));
      } else {
        assert {} + SetOf(ids) == SetOf(ids);
        var n := TakeAnswers(ms[1..], declared + SetOf(ids), SetOf(ids));
        var rest := RunBlocks(ms[1..][n..], declared + SetOf(ids));
        blocks := [Round(m, ms[1..][..n])] + rest;
        assert blocks[1..] == rest && ms == [m] + ms[1..][..n] + ms[1..][n..];
        DistinctParts(ids, BlockIDs(rest));
      }
      assert SetOf(BlockIDs(blocks)) == SetOf(ids) + SetOf(BlockIDs(blocks[1..]));
    }
  }

  /** Only an assistant has calls; without calls a message declares nothing. */
  lemma NoCalls(m: Message)
    ensures LocalOk(m) && m.toolCalls != [] ==> m.role == Assistant
    ensures m.toolCalls == [] ==>
            SetOf(IDs(m.toolCalls)) == {} && (forall d: set<string> :: d + SetOf(IDs(m.toolCalls)) == d)
  {
  }

  lemma {:induction false} RunIsLocal(ms: seq<Message>, declared: set<string>, open: set<string>)
    requires Run(ms, declared, open)
    ensures AllLocal(ms)
    decreases |ms|
  {
    hide LocalOk;
    if ms != [] {
      var m := ms[0];
      if m.role == Assistant {
        RunIsLocal(ms[1..], declared + SetOf(IDs(m.toolCalls)), open + SetOf(IDs(m.toolCalls)));
      } else if m.role == Tool {
        RunIsLocal(ms[1..], declared, open - {m.toolCallID});
      } else {
        RunIsLocal(ms[1..], declared, open);
      }
      assert forall x | x in ms :: x == m || x in ms[1..];
    }
  }

  /** The one-pass check is the grammar: a list is accepted exactly when its messages
      are fine on their own and it is a concatenation of blocks, each a message
      without calls or an assistant's calls followed at once by one tool message per
      call in some order, with all call ids of the list distinct. */
  lemma AcceptsIffGrammatical(ms: seq<Message>)
    ensures Accepts(ms) <==> AllLocal(ms) && exists blocks :: Grammatical(blocks) && Flatten(blocks) == ms
  {
    hide Run, LocalOk, Grammatical;
    if Accepts(ms) {
      RunIsLocal(ms, {}, {});
      var blocks := RunBlocks(ms, {});
    }
    if AllLocal(ms) && exists blocks :: Grammatical(blocks) && Flatten(blocks) == ms {
      var blocks :| Grammatical(blocks) && Flatten(blocks) == ms;
      BlocksRun(blocks, {});
    }
  }

  // ----- the rules for one message, in numbers -----

  lemma RunOne(m: Message)
    requires m.toolCalls == []
    ensures Accepts([m]) <==> LocalOk(m) && m.role != Tool
  {
    hide LocalOk;
    assert [m][1..] == [];
    var none := SetOf(IDs(m.toolCalls));
    assert |IDs(m.toolCalls)| == 0 && none == {};
    assert Distinct(IDs(m.toolCalls));
    assert Run([], {}, {}) && {} + none == {};
  }

  /** A conversation of one message without calls is valid exactly when it is a text of
      the system, the developer, the user or the assistant that answers no call, and
      only the assistant's may hold reasoning, of a mebibyte at most. */
  lemma AloneIff(m: Message)
    requires m.toolCalls == []
    ensures Accepts([m]) <==>
            && (m.role == System || m.role == Developer || m.role == User || m.role == Assistant)
            && m.content != NoContent && m.toolCallID == ""
            && (m.reasoning == None ||
                (m.role == Assistant && Utf8.Valid(m.reasoning.value) && |m.reasoning.value| <= 1048576))
  {
    hide Utf8.ValidFrom;
    assert [m][1..] == [];
    assert |IDs(m.toolCalls)| == 0;
    assert SetOf(IDs(m.toolCalls)) == {};
    RunOne(m);
  }

  lemma RunCall(m: Message, a: Message)
    requires m.role == Assistant && |m.toolCalls| == 1 && a.role == Tool
    ensures Accepts([m, a]) <==> LocalOk(m) && LocalOk(a) && a.toolCallID == m.toolCalls[0].id
  {
    hide LocalOk;
    var id := m.toolCalls[0].id;
    assert [m, a][1..] == [a] && [a][1..] == [];
    assert IDs(m.toolCalls) == [id] && SetOf([id]) == {id} && Distinct([id]);
    assert {} + {id} == {id} && {id} - {id} == {};
    assert Accepts([m, a]) <==> LocalOk(m) && Run([a], {id}, {id});
    assert Run([a], {id}, {id}) <==> LocalOk(a) && a.toolCallID in {id} && Run([], {id}, {id} - {a.toolCallID});
  }

  /** One call and its answer are valid exactly when the call is: an id of 1 to 128
      visible characters, a name of 1 to 64 letters, digits, underscores and hyphens,
      arguments of UTF-8 and at most 262144 bytes; and the answer names the call. */
  lemma OneCallIff(call: ToolCall, content: Content, answered: string, answer: string)
    ensures Accepts([Message(Assistant, content, [call], "", None),
            Message(Tool, Text(answer), [], answered, None)]) <==>
            && answered == call.id
            && 1 <= |call.id| <= 128 && (forall c | c in call.id :: 0x21 <= c as int <= 0x7E)
            && 1 <= |call.name| <= 64 && (forall c | c in call.name ::
                  0x41 <= c as int <= 0x5A || 0x61 <= c as int <= 0x7A || 0x30 <= c as int <= 0x39
                  || c as int in {0x2D, 0x5F})
            && Utf8.Valid(call.arguments) && |call.arguments| <= 262144
  {
    hide Utf8.ValidFrom, ValidCallID, ValidFunctionName;
    CallIDIff(call.id);
    FunctionNameIff(call.name);
    var m, a := Message(Assistant, content, [call], "", None), Message(Tool, Text(answer), [], answered, None);
    RunCall(m, a);
    assert LocalOk(a);
    assert LocalOk(m) <==> CallOk(call) by { assert call in m.toolCalls; }
  }
}
