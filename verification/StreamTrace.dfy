/** The event grammar, as a client that rebuilds the response from the events
    alone and refuses any event out of place, and the proof that this client
    accepts every trace the gateway handler can produce. */
module StreamTrace {
  import opened Prelude
  import opened Limits
  import opened StreamModel
  import opened StreamInvariant

  /** How far an output item has got: added, (text only) its part opened, its
      value done, (text only) its part done, its item done. */
  datatype Stage = Added | Streaming | ValueDone | PartClosed | Closed

  datatype Slot =
    | TextSlot(id: string, text: string, stage: Stage)
    | CallSlot(id: string, callID: string, name: string, arguments: string, stage: Stage)

  datatype Header = Header(id: string, createdAt: int, model: string, parallel: bool)

  /** What a client knows after `seen` events. */
  datatype Client = Client(seen: nat, header: Header, slots: seq<Slot>, ended: bool)

  function HeaderOf(r: Response): Header {
    Header(r.id, r.createdAt, r.model, r.parallel)
  }

  function SlotItem(slot: Slot): Item {
    match slot
    case TextSlot(id, text, stage) =>
      if stage.Closed? then MessageItem(id, Completed, [text]) else MessageItem(id, InProgress, [])
    case CallSlot(id, callID, name, arguments, stage) =>
      if stage.Closed? then CallItem(id, Completed, callID, name, arguments)
      else CallItem(id, InProgress, callID, name, "")
  }

  function Items(slots: seq<Slot>): (items: seq<Item>)
    ensures |items| == |slots| && forall i | 0 <= i < |slots| :: items[i] == SlotItem(slots[i])
  {
    seq(|slots|, i requires 0 <= i < |slots| => SlotItem(slots[i]))
  }

  function NewSlot(item: Item): Option<Slot> {
    match item
    case MessageItem(id, status, content) =>
      if status == InProgress && content == [] then Some(TextSlot(id, "", Added)) else None
    case CallItem(id, status, callID, name, arguments) =>
      if status == InProgress && arguments == "" then Some(CallSlot(id, callID, name, "", Streaming)) else None
  }

  /** The slot an event other than `added` moves to, or None when the event does
      not fit the slot. A `done` event fits only with the text or arguments the
      deltas have spelled out. */
  function Advance(slot: Slot, body: EventBody): Option<Slot> {
    match body
    case PartAdded(_, id) =>
      if slot == TextSlot(id, "", Added) then Some(slot.(stage := Streaming)) else None
    case TextDelta(_, id, delta) =>
      if slot.TextSlot? && slot.id == id && slot.stage == Streaming then Some(slot.(text := slot.text + delta))
      else None
    case TextDone(_, id, text) =>
      if slot == TextSlot(id, text, Streaming) then Some(slot.(stage := ValueDone)) else None
    case PartDone(_, id, text) =>
      if slot == TextSlot(id, text, ValueDone) then Some(slot.(stage := PartClosed)) else None
    case ArgumentsDelta(_, id, delta) =>
      if slot.CallSlot? && slot.id == id && slot.stage == Streaming && delta != ""
      then Some(slot.(arguments := slot.arguments + delta)) else None
    case ArgumentsDone(_, id, arguments) =>
      if slot.CallSlot? && slot.id == id && slot.arguments == arguments && slot.stage == Streaming
      then Some(slot.(stage := ValueDone)) else None
    case ItemDone(_, item) =>
      var closed := slot.(stage := Closed);
      if slot.stage == (if slot.TextSlot? then PartClosed else ValueDone) && item == SlotItem(closed)
      then Some(closed) else None
    case _ => None
  }

  predicate IsSlotEvent(body: EventBody) {
    !body.CreatedEvent? && !body.InProgressEvent? && !body.ItemAdded? && !body.CompletedEvent? && !body.FailedEvent?
  }

  predicate AllClosed(slots: seq<Slot>) {
    forall slot | slot in slots :: slot.stage == Closed
  }

  function Receive(c: Client, e: Event): Option<Client> {
    if c.ended || e.sequence != c.seen + 1 then None else
    var c1 := c.(seen := c.seen + 1);
    match e.body
    case CreatedEvent(r) =>
      if c.seen == 0 && r.status == InProgress && r.error.None? && r.output == []
      then Some(c1.(header := HeaderOf(r))) else None
    case InProgressEvent(r) =>
      if c.seen == 1 && HeaderOf(r) == c.header && r.status == InProgress && r.error.None? && r.output == []
      then Some(c1) else None
    case ItemAdded(index, item) =>
      if c.seen >= 2 && index == |c.slots| && NewSlot(item).Some?
      then Some(c1.(slots := c.slots + [NewSlot(item).value])) else None
    case CompletedEvent(r) =>
      if c.seen >= 2 && HeaderOf(r) == c.header && r.status == Completed && r.error.None?
         && AllClosed(c.slots) && r.output == Items(c.slots)
      then Some(c1.(ended := true)) else None
    case FailedEvent(r) =>
      if c.seen >= 1 && HeaderOf(r) == c.header && r.status == Failed && r.error.Some? && r.output == Items(c.slots)
      then Some(c1.(ended := true)) else None
    case _ =>
      if c.seen >= 2 && 0 <= e.body.index < |c.slots| && Advance(c.slots[e.body.index], e.body).Some?
      then Some(c1.(slots := c.slots[e.body.index := Advance(c.slots[e.body.index], e.body).value])) else None
  }

  const NEW_CLIENT := Client(0, Header("", 0, "", false), [], false)

  function Replay(events: seq<Event>): Option<Client>
    decreases |events|
  {
    if events == [] then Some(NEW_CLIENT) else
    var before := Replay(events[..|events| - 1]);
    if before.None? then None else Receive(before.value, events[|events| - 1])
  }

  // ----- the state the client must be in -----

  function StateHeader(st: State): Header {
    Header(st.responseID, st.createdAt, st.model, st.parallel)
  }

  /** The client that has seen every event of st holds exactly these slots. */
  ghost predicate Follows(st: State, slots: seq<Slot>) {
    && st.started && !st.terminal && st.sequence == |st.events| && st.sequence >= 1
    && Replay(st.events) == Some(Client(|st.events|, StateHeader(st), slots, false))
  }

  function SlotView(st: State, i: nat): Slot
    requires i < |st.output|
  {
    match st.output[i]
    case MessageItem(id, _, _) => TextSlot(id, if st.text.Some? then st.text.value.text else "", Streaming)
    case CallItem(id, _, callID, name, _) =>
      CallSlot(id, callID, name, if IsToolSlot(st, i) then ToolAt(st, i).arguments else "", Streaming)
  }

  /** The slots a client must hold while no emit has failed. */
  function View(st: State): (slots: seq<Slot>)
    ensures |slots| == |st.output| && forall i | 0 <= i < |slots| :: slots[i] == SlotView(st, i)
  {
    seq(|st.output|, i requires 0 <= i < |st.output| => SlotView(st, i))
  }

  /** In step with the client, and every item still in progress. */
  ghost predicate InStep(st: State) {
    && Inv(st) && Follows(st, View(st)) && st.sequence >= 2
    && st.output == Items(View(st))
  }

  /** Behind or level: the client may lack buffered bytes but agrees on items. */
  ghost predicate Recoverable(st: State, slots: seq<Slot>) {
    Inv(st) && Follows(st, slots) && st.output == Items(slots)
  }

  /** The client agrees on the items, and while nothing has failed on everything. */
  ghost predicate Tracked(r: Step) {
    exists slots :: Recoverable(r.st, slots) && (r.ok ==> slots == View(r.st) && InStep(r.st))
  }

  lemma InStepRecoverable(st: State)
    requires InStep(st)
    ensures Recoverable(st, View(st)) && Inv(st) && st.started && !st.terminal && st.sequence >= 2
  {
    hide Inv, Replay, View;
  }

  lemma StillTracked(st: State)
    requires InStep(st)
    ensures Tracked(Step(st, false)) && Tracked(Step(st, true))
  {
    hide Inv, Follows, View, Items;
    InStepRecoverable(st);
  }

  lemma ReplaySnoc(events: seq<Event>, e: Event)
    ensures Replay(events + [e]) ==
            (if Replay(events).None? then None else Receive(Replay(events).value, e))
  {
    assert (events + [e])[..|events|] == events;
  }

  lemma EmitFollows(env: Env, st: State, body: EventBody, slots: seq<Slot>, slots': seq<Slot>)
    requires Follows(st, slots)
    requires Receive(Client(|st.events|, StateHeader(st), slots, false), Event(|st.events| + 1, body))
             == Some(Client(|st.events| + 1, StateHeader(st), slots', false))
    ensures Follows(Emit(env, st, body).st, slots')
  {
    ReplaySnoc(st.events, Event(st.sequence + 1, body));
  }

  lemma EmitSlotEvent(env: Env, st: State, body: EventBody, slots: seq<Slot>)
    requires Follows(st, slots) && st.sequence >= 2 && IsSlotEvent(body) && 0 <= body.index < |slots|
    requires Advance(slots[body.index], body).Some?
    ensures Follows(Emit(env, st, body).st, slots[body.index := Advance(slots[body.index], body).value])
  {
    EmitFollows(env, st, body, slots, slots[body.index := Advance(slots[body.index], body).value]);
  }

  lemma EmitAdded(env: Env, st: State, item: Item, slots: seq<Slot>)
    requires Follows(st, slots) && st.sequence >= 2 && NewSlot(item).Some?
    ensures Follows(Emit(env, st, ItemAdded(|slots|, item)).st, slots + [NewSlot(item).value])
  {
    EmitFollows(env, st, ItemAdded(|slots|, item), slots, slots + [NewSlot(item).value]);
  }

  lemma StartFollows(env: Env, st: State, created: int)
    requires Inv(st) && !st.started
    ensures var r := Start(env, st, created);
            if r.ok then InStep(r.st) else (r.st.started ==> Recoverable(r.st, []))
    ensures !Start(env, st, created).st.started ==> Start(env, st, created).st.events == []
  {
    hide ToolsInv, SlotsInv, Extends;
    var id := env.ids(st.drawn, RespID);
    StartKeeps(env, st, created);
    if id.Some? {
      var st2 := st.(drawn := st.drawn + 1, responseID := id.value, createdAt := created, started := true);
      var body := CreatedEvent(Snapshot(st2, InProgress));
      var first := Emit(env, st2, body);
      ReplaySnoc([], Event(1, body));
      assert st.events + [Event(1, body)] == [] + [Event(1, body)] == first.st.events;
      assert Follows(first.st, []);
      EmitFollows(env, first.st, InProgressEvent(Snapshot(first.st, InProgress)), [], []);
    }
  }

  // ----- text deltas -----

  /** The client once the text item was added, not yet its part. */
  lemma TextAdded(env: Env, st: State, id: string)
    requires InStep(st) && st.text.None?
    ensures var item := MessageItem(id, InProgress, []);
            var st2 := st.(drawn := st.drawn + 1, text := Some(TextState(id, |st.output|, "")),
                           output := st.output + [item]);
            var added := Emit(env, st2, ItemAdded(|st.output|, item)).st;
            Recoverable(added, View(st) + [TextSlot(id, "", Added)]) && added.sequence >= 2
  {
    hide Inv, Receive, Replay, Extends, View;
    var item := MessageItem(id, InProgress, []);
    var st2 := st.(drawn := st.drawn + 1, text := Some(TextState(id, |st.output|, "")),
                   output := st.output + [item]);
    assert Follows(st2, View(st));
    EmitAdded(env, st2, item, View(st));
    var slots := View(st) + [TextSlot(id, "", Added)];
    assert st2.output == Items(slots);
    PlaceTextKeeps(st, id);
    EmitKeeps(env, st2, ItemAdded(|st.output|, item));
  }

  lemma DrawnFollows(st: State)
    requires InStep(st)
    ensures Recoverable(st.(drawn := st.drawn + 1), View(st))
  {
    hide Receive, Replay, Extends, ToolsInv, SlotsInv, View;
    DrawKeeps(st);
  }

  /** The part event puts the client in step again. */
  lemma PartAddedFollows(env: Env, st: State, added: State, id: string)
    requires Inv(st) && st.text.None? && Recoverable(added, View(st) + [TextSlot(id, "", Added)])
    requires added.sequence >= 2 && added.tools == st.tools && added.callIDs == st.callIDs
    requires added.text == Some(TextState(id, |st.output|, ""))
    requires added.output == st.output + [MessageItem(id, InProgress, [])]
    ensures var r := Emit(env, added, PartAdded(|st.output|, id)); Recoverable(r.st, View(r.st)) && InStep(r.st)
  {
    hide Inv, Receive, Replay, Extends, View;
    var index := |st.output|;
    var r := Emit(env, added, PartAdded(index, id));
    var slots := View(st) + [TextSlot(id, "", Added)];
    EmitKeeps(env, added, PartAdded(index, id));
    EmitSlotEvent(env, added, PartAdded(index, id), slots);
    var slots' := slots[index := TextSlot(id, "", Streaming)];
    ViewAfterText(st, r.st);
    assert slots' == View(r.st);
    assert r.st.output == Items(slots');
  }

  lemma OpenTextFollows(env: Env, st: State)
    requires InStep(st) && st.text.None?
    ensures var r := OpenText(env, st);
            Tracked(r)
  {
    hide Inv, Receive, Replay, Extends, Recoverable, InStep;
    InStepRecoverable(st);
    OpenTextKeeps(env, st);
    var id := env.ids(st.drawn, MsgID);
    var r := OpenText(env, st);
    if id.None? {
      DrawnFollows(st);
    } else {
      var index := |st.output|;
      var item := MessageItem(id.value, InProgress, []);
      var st2 := st.(drawn := st.drawn + 1, text := Some(TextState(id.value, index, "")), output := st.output + [item]);
      TextAdded(env, st, id.value);
      var added := Emit(env, st2, ItemAdded(index, item));
      if added.ok { PartAddedFollows(env, st, added.st, id.value); }
    }
  }

  /** Opening the text item leaves every tool's slot as it was. */
  lemma ViewAfterText(st: State, st': State)
    requires Inv(st) && st.text.None? && st'.tools == st.tools && st'.callIDs == st.callIDs
    requires st'.text.Some? && st'.text.value.text == ""
    requires |st'.output| == |st.output| + 1 && st'.output[..|st.output|] == st.output
    requires st'.output[|st.output|] == MessageItem(st'.text.value.itemID, InProgress, [])
    ensures View(st') == View(st) + [TextSlot(st'.text.value.itemID, "", Streaming)]
  {
    forall i | 0 <= i < |st.output|
      ensures SlotView(st', i) == SlotView(st, i)
    {
      assert st'.output[i] == st'.output[..|st.output|][i] == st.output[i];
      assert IsToolSlot(st', i) == IsToolSlot(st, i);
    }
  }

  /** Writing a delta changes the text slot of the view and no other. */
  lemma ViewAfterWrite(st: State, delta: string)
    requires Inv(st) && st.text.Some?
    ensures var st' := st.(text := Some(st.text.value.(text := st.text.value.text + delta)));
            View(st') == View(st)[st.text.value.outputIndex :=
                TextSlot(st.text.value.itemID, st.text.value.text + delta, Streaming)]
  {
    var st' := st.(text := Some(st.text.value.(text := st.text.value.text + delta)));
    forall i | 0 <= i < |st.output| && i != st.text.value.outputIndex
      ensures SlotView(st', i) == SlotView(st, i)
    {
      assert IsToolSlot(st', i) == IsToolSlot(st, i);
    }
  }

  lemma AcceptTextFollows(env: Env, st: State, delta: string)
    requires InStep(st)
    ensures var r := AcceptText(env, st, delta);
            Tracked(r)
  {
    hide Inv, Follows, View, Items, OpenText, Recoverable;
    StillTracked(st);
    InStepRecoverable(st);
    var buffered := if st.text.Some? then |st.text.value.text| else 0;
    if |delta| <= MAX_TEXT_CONTENT_BYTES - buffered {
      var ready := if st.text.Some? then Step(st, true) else OpenText(env, st);
      if st.text.None? {
        OpenTextKeeps(env, st);
        OpenTextFollows(env, st);
      }
      if ready.ok { WriteFollows(env, ready.st, delta); }
    }
  }

  lemma WriteFollows(env: Env, st: State, delta: string)
    requires InStep(st) && st.text.Some? && |delta| <= MAX_TEXT_CONTENT_BYTES - |st.text.value.text|
    ensures var text := st.text.value;
            var r := Emit(env, st.(text := Some(text.(text := text.text + delta))),
                          TextDelta(text.outputIndex, text.itemID, delta));
            Recoverable(r.st, View(r.st)) && InStep(r.st)
  {
    var text := st.text.value;
    var written := st.(text := Some(text.(text := text.text + delta)));
    var body := TextDelta(text.outputIndex, text.itemID, delta);
    ViewAfterWrite(st, delta);
    WriteTextKeeps(st, delta);
    EmitKeeps(env, written, body);
    assert Follows(written, View(st));
    EmitSlotEvent(env, written, body, View(st));
    var r := Emit(env, written, body);
    assert View(r.st) == View(written) by { SameView(written, r.st); }
    assert r.st.output == Items(View(r.st));
  }

  lemma SameView(a: State, b: State)
    requires a.output == b.output && a.text == b.text && a.tools == b.tools && a.callIDs == b.callIDs
    ensures View(a) == View(b)
  {
    assert forall i | 0 <= i < |a.output| :: IsToolSlot(a, i) == IsToolSlot(b, i);
  }

  // ----- tool deltas -----

  function ArgumentsOf(st: State, k: int): string {
    if k in st.tools then st.tools[k].arguments else ""
  }

  predicate IsOpen(st: State, k: int) {
    k in st.tools && st.tools[k].started
  }

  /** Only tool k and new call ids differ; an open tool keeps all but its arguments. */
  ghost predicate TouchesOnly(st: State, st': State, k: int) {
    && st' == st.(tools := st'.tools, callIDs := st'.callIDs)
    && (forall j | j in st.tools && j != k :: j in st'.tools && st'.tools[j] == st.tools[j])
    && (forall id | id in st.callIDs :: id in st'.callIDs && st'.callIDs[id] == st.callIDs[id])
    && st'.tools.Keys == st.tools.Keys + {k}
    && IsOpen(st', k) == IsOpen(st, k)
    && (IsOpen(st, k) ==> st'.tools[k] == st.tools[k].(arguments := ArgumentsOf(st', k)))
  }

  lemma RecordIDFrame(st: State, call: ToolDelta)
    requires Inv(st) && call.index in st.tools && call.id.Some?
    ensures TouchesOnly(st, RecordID(st, call).st, call.index)
    ensures ArgumentsOf(RecordID(st, call).st, call.index) == ArgumentsOf(st, call.index)
  {
  }

  lemma OpenIsNamed(st: State, k: int)
    requires Inv(st)
    ensures IsOpen(st, k) ==> st.tools[k].name != ""
  {
  }

  /** Naming tool k and replacing its arguments touches nothing else of an open tool. */
  lemma NamedTouches(st: State, k: int, name: string, arguments: string)
    requires k in st.tools && (IsOpen(st, k) ==> name == st.tools[k].name)
    ensures var st' := st.(tools := st.tools[k := st.tools[k].(name := name, arguments := arguments)]);
            TouchesOnly(st, st', k) && ArgumentsOf(st', k) == arguments
  {
  }

  lemma RecordFunctionFrame(st: State, call: ToolDelta)
    requires Inv(st) && call.index in st.tools
    ensures var r := RecordFunction(st, call);
            && TouchesOnly(st, r.st, call.index)
            && ArgumentsOf(r.st, call.index) ==
                 ArgumentsOf(st, call.index) + (if r.ok then DeltaArguments(call) else "")
  {
    hide Inv, TouchesOnly;
    OpenIsNamed(st, call.index);
    var tool := st.tools[call.index];
    var named := if DeltaName(call).Some? then DeltaName(call).value else tool.name;
    NamedTouches(st, call.index, tool.name, tool.arguments);
    assert st.tools[call.index := tool] == st.tools;
    if !(DeltaName(call).Some? && tool.name != "" && tool.name != named) {
      NamedTouches(st, call.index, named, tool.arguments);
      NamedTouches(st, call.index, named, tool.arguments + DeltaArguments(call));
    }
    assert tool.arguments + "" == tool.arguments;
  }

  lemma WithToolFrame(st: State, k: int)
    requires Inv(st)
    ensures var found := WithTool(st, k);
            TouchesOnly(st, found, k) && ArgumentsOf(found, k) == ArgumentsOf(st, k) && k in found.tools
  {
  }

  /** What Record leaves alone, and what it appends. */
  lemma RecordFrame(st: State, call: ToolDelta)
    requires Inv(st) && st.started && ValidToolDelta(call)
    ensures var r := Record(st, call);
            && TouchesOnly(st, r.st, call.index)
            && ArgumentsOf(r.st, call.index) ==
                 ArgumentsOf(st, call.index) + (if r.ok then DeltaArguments(call) else "")
  {
    hide Inv, WithTool, RecordFunction, RecordID, TouchesOnly, Extends, ArgumentsOf;
    ToolLimitUnreachable(st, call);
    WithToolKeeps(st, call.index);
    WithToolFrame(st, call.index);
    var found := WithTool(st, call.index);
    if call.id.None? {
      RecordFunctionFrame(found, call);
      TouchTransitive(st, found, RecordFunction(found, call).st, call.index);
    } else {
      RecordIDKeeps(found, call);
      RecordIDFrame(found, call);
      var known := RecordID(found, call).st;
      TouchTransitive(st, found, known, call.index);
      if RecordID(found, call).ok {
        RecordFunctionFrame(known, call);
        TouchTransitive(st, known, RecordFunction(known, call).st, call.index);
      }
    }
    assert ArgumentsOf(st, call.index) + "" == ArgumentsOf(st, call.index);
  }

  lemma TouchTransitive(a: State, b: State, c: State, k: int)
    requires TouchesOnly(a, b, k) && TouchesOnly(b, c, k)
    ensures TouchesOnly(a, c, k)
  {
  }

  /** A view in which tool k, when it has a slot, shows these arguments. */
  function ViewWith(st: State, k: int, arguments: string): (slots: seq<Slot>)
    requires IsOpen(st, k) ==>
             0 <= st.tools[k].outputIndex < |st.output| && st.output[st.tools[k].outputIndex].CallItem?
  {
    if IsOpen(st, k) then
      var i := st.tools[k].outputIndex;
      View(st)[i := CallSlot(st.output[i].id, st.output[i].callID, st.output[i].name, arguments, Streaming)]
    else View(st)
  }

  /** Recording leaves every tool's slot with its owner; only tool k may differ. */
  lemma SlotAfterRecord(st: State, call: ToolDelta, i: nat)
    requires Inv(st) && st.started && ValidToolDelta(call) && i < |st.output| && st.output[i].CallItem?
    ensures var st' := Record(st, call).st;
            && IsToolSlot(st', i) && IsToolSlot(st, i)
            && (st.callIDs[st.output[i].callID] != call.index ==> ToolAt(st', i) == ToolAt(st, i))
            && (st.callIDs[st.output[i].callID] == call.index ==>
                  IsOpen(st, call.index) && st.tools[call.index].outputIndex == i &&
                  ToolAt(st', i) == st'.tools[call.index])
  {
    RecordFrame(st, call);
    hide Record;
    assert IsToolSlot(st, i) && ToolAt(st, i).started && ToolAt(st, i).outputIndex == i;
  }

  lemma OpenSlotIndex(st: State, k: int)
    requires Inv(st) && IsOpen(st, k) && OwnsSlot(st, k)
    ensures st.output[st.tools[k].outputIndex].callID in st.callIDs
    ensures st.callIDs[st.output[st.tools[k].outputIndex].callID] == k
  {
  }

  lemma ViewAfterRecord(st: State, call: ToolDelta)
    requires Inv(st) && st.started && ValidToolDelta(call)
    requires IsOpen(st, call.index) ==> OwnsSlot(st, call.index)
    ensures View(Record(st, call).st) == ViewWith(st, call.index, ArgumentsOf(Record(st, call).st, call.index))
    ensures View(st) == ViewWith(st, call.index, ArgumentsOf(st, call.index))
  {
    hide Inv, Record;
    var st' := Record(st, call).st;
    RecordFrame(st, call);
    forall i | 0 <= i < |st.output| && st.output[i].CallItem?
      ensures IsToolSlot(st', i) && IsToolSlot(st, i)
      ensures st.callIDs[st.output[i].callID] != call.index ==> ToolAt(st', i) == ToolAt(st, i)
      ensures st.callIDs[st.output[i].callID] == call.index ==>
                IsOpen(st, call.index) && st.tools[call.index].outputIndex == i &&
                  ToolAt(st', i) == st'.tools[call.index]
    {
      SlotAfterRecord(st, call, i);
    }
    if IsOpen(st, call.index) { OpenSlotIndex(st, call.index); }
  }

  lemma RecordFollows(st: State, call: ToolDelta)
    requires InStep(st) && ValidToolDelta(call)
    ensures Recoverable(Record(st, call).st, View(st))
    ensures Record(st, call).st.sequence == st.sequence
  {
    RecordKeeps(st, call);
    RecordFrame(st, call);
    hide Inv, Record, Extends, Replay;
  }

  /** Sending the recorded argument bytes brings the client level again. */
  lemma SendArgumentsFollows(env: Env, st: State, k: int, before: string, delta: string)
    requires IsOpen(st, k) ==> OwnsSlot(st, k) && st.tools[k].arguments == before + delta
    requires Recoverable(st, ViewWith(st, k, before)) && st.sequence >= 2
    requires View(st) == ViewWith(st, k, ArgumentsOf(st, k))
    ensures InStep(EmitArguments(env, st, k, delta).st)
    ensures Recoverable(EmitArguments(env, st, k, delta).st, View(EmitArguments(env, st, k, delta).st))
  {
    hide Inv, Replay, Receive, Extends;
    EmitArgumentsKeeps(env, st, k, delta);
    var r := EmitArguments(env, st, k, delta).st;
    if IsOpen(st, k) && delta != "" {
      var i := st.tools[k].outputIndex;
      var body := ArgumentsDelta(i, st.tools[k].itemID, delta);
      EmitSlotEvent(env, st, body, ViewWith(st, k, before));
      assert ViewWith(st, k, before)[i := Advance(ViewWith(st, k, before)[i], body).value] == View(st);
    } else {
      assert before + "" == before;
    }
    SameView(st, r);
    assert Items(View(r)) == Items(ViewWith(st, k, before));
  }

  /** Tool k has just been opened: its slot exists but no argument byte was sent. */
  ghost predicate ReadyToSend(st: State, k: int, slots: seq<Slot>, arguments: string) {
    && IsOpen(st, k) && OwnsSlot(st, k) && st.tools[k].arguments == arguments && st.sequence >= 2
    && slots == ViewWith(st, k, "") && View(st) == ViewWith(st, k, arguments)
  }

  lemma OpenToolFollows(env: Env, st: State, k: int)
    requires InStep(st) && k in st.tools && !st.tools[k].started && st.tools[k].callID != "" && st.tools[k].name != ""
    ensures var r := OpenTool(env, st, k);
            exists slots :: Recoverable(r.st, slots) && (r.ok ==> ReadyToSend(r.st, k, slots, st.tools[k].arguments))
  {
    hide Inv, Replay, Receive, Extends, View, SlotView;
    OpenToolKeeps(env, st, k);
    var id := env.ids(st.drawn, FcID);
    var r := OpenTool(env, st, k);
    if id.None? {
      DrawnFollows(st);
    } else {
      ViewAfterOpen(st, k, id.value);
      var placed := PlaceTool(st, k, id.value);
      var item := CallItem(id.value, InProgress, st.tools[k].callID, st.tools[k].name, "");
      assert Follows(placed, View(st));
      EmitAdded(env, placed, item, View(st));
      SameView(placed, r.st);
      var slots := View(st) + [NewSlot(item).value];
      assert slots == ViewWith(r.st, k, "");
      assert r.st.output == Items(slots);
      assert Recoverable(r.st, slots);
    }
  }

  lemma ViewAfterOpen(st: State, k: int, id: string)
    requires Inv(st) && k in st.tools && !st.tools[k].started && st.tools[k].callID != ""
    ensures View(PlaceTool(st, k, id)) ==
            View(st) + [CallSlot(id, st.tools[k].callID, st.tools[k].name, st.tools[k].arguments, Streaming)]
  {
    var st' := PlaceTool(st, k, id);
    forall i | 0 <= i < |st.output|
      ensures SlotView(st', i) == SlotView(st, i)
    {
      if st.output[i].CallItem? {
        assert IsToolSlot(st, i) && ToolAt(st, i).started;
        assert IsToolSlot(st', i);
      }
    }
  }

  lemma OpenAndSendFollows(env: Env, st: State, k: int)
    requires InStep(st) && k in st.tools && !st.tools[k].started && st.tools[k].callID != "" && st.tools[k].name != ""
    ensures var ready := OpenTool(env, st, k);
            var r := if ready.ok then EmitArguments(env, ready.st, k, st.tools[k].arguments) else ready;
            Tracked(r)
  {
    OpenToolFollows(env, st, k);
    hide Inv, OpenTool, Replay, Receive, OwnsSlot;
    var ready := OpenTool(env, st, k);
    if ready.ok {
      SendArgumentsFollows(env, ready.st, k, "", st.tools[k].arguments);
    }
  }

  lemma RecordAndSendFollows(env: Env, st: State, call: ToolDelta)
    requires InStep(st) && ValidToolDelta(call) && Record(st, call).ok
    ensures var r := EmitArguments(env, Record(st, call).st, call.index, DeltaArguments(call));
            Recoverable(r.st, View(r.st)) && InStep(r.st)
  {
    var k := call.index;
    var recorded := Record(st, call);
    RecordFollows(st, call);
    RecordFrame(st, call);
    OwnsItsSlot(st, k);
    OwnsItsSlot(recorded.st, k);
    ViewAfterRecord(st, call);
    hide Inv, Record, Replay, Receive;
    assert ViewWith(recorded.st, k, ArgumentsOf(st, k)) == View(st);
    SendArgumentsFollows(env, recorded.st, k, ArgumentsOf(st, k), DeltaArguments(call));
  }

  lemma RecordUnopened(st: State, call: ToolDelta)
    requires InStep(st) && ValidToolDelta(call) && !IsOpen(Record(st, call).st, call.index)
    ensures InStep(Record(st, call).st)
  {
    RecordFollows(st, call);
    RecordFrame(st, call);
    OwnsItsSlot(st, call.index);
    ViewAfterRecord(st, call);
    hide Inv, Record, Replay, Receive;
  }

  lemma AcceptToolFollows(env: Env, st: State, call: ToolDelta)
    requires InStep(st) && ValidToolDelta(call)
    ensures var r := AcceptTool(env, st, call);
            Tracked(r)
  {
    var recorded := Record(st, call);
    RecordFollows(st, call);
    RecordKeeps(st, call);
    if recorded.ok {
      hide Inv, Record, Replay, Receive, OpenTool, EmitArguments, Follows;
      var tool := recorded.st.tools[call.index];
      if !tool.started && tool.callID != "" && tool.name != "" {
        RecordUnopened(st, call);
        OpenAndSendFollows(env, recorded.st, call.index);
        hide Tracked;
      } else {
        RecordAndSendFollows(env, st, call);
        assert AcceptTool(env, st, call) == EmitArguments(env, recorded.st, call.index, DeltaArguments(call));
      }
    } else {
      assert AcceptTool(env, st, call) == Step(recorded.st, false);
      assert Recoverable(recorded.st, View(st));
    }
  }

  lemma OwnsItsSlot(st: State, k: int)
    requires Inv(st)
    ensures IsOpen(st, k) ==> OwnsSlot(st, k)
  {
  }

  // ----- chunks -----

  lemma {:induction false} AcceptOpsFollows(env: Env, st: State, ops: seq<Op>)
    requires InStep(st) && ValidOps(ops)
    ensures Tracked(AcceptOps(env, st, ops))
    decreases |ops|
  {
    if ops == [] {
      assert Recoverable(st, View(st));
    } else {
      var before := AcceptOps(env, st, ops[..|ops| - 1]);
      AcceptOpsFollows(env, st, ops[..|ops| - 1]);
      hide Recoverable, AcceptText, AcceptTool;
      assert ValidOp(ops[|ops| - 1]);
      if before.ok {
        match ops[|ops| - 1]
        case TextOp(delta) => AcceptTextFollows(env, before.st, delta);
        case ToolOp(call) => AcceptToolFollows(env, before.st, call);
      }
    }
  }

  lemma WithUsageFollows(st: State, usage: Option<Usage>)
    requires InStep(st)
    ensures InStep(WithUsage(st, usage))
  {
    UsageKeeps(st, usage);
    hide Inv, Replay, Receive;
    SameView(st, WithUsage(st, usage));
  }

  /** Before the first event there is nothing to follow. */
  ghost predicate Awaiting(st: State) {
    Inv(st) && (if st.started then InStep(st) else st.events == [])
  }

  ghost predicate AcceptTracked(r: Step) {
    if r.st.started then Tracked(r) else r.st.events == [] && Inv(r.st)
  }

  lemma TrackedIsStarted(r: Step)
    requires Tracked(r)
    ensures r.st.started
  {
    hide Inv, Replay, View, InStep, Items;
  }

  lemma StartTracked(env: Env, st: State, created: int)
    requires Inv(st) && !st.started
    ensures var r := Start(env, st, created); AcceptTracked(Step(r.st, false)) && (r.ok ==> InStep(r.st))
  {
    hide Follows, View, Items, Start, ToolsInv, SlotsInv, LogInv, Extends;
    StartKeeps(env, st, created);
    StartFollows(env, st, created);
    var r := Start(env, st, created);
    if r.ok { StillTracked(r.st); }
  }

  lemma AcceptFollows(env: Env, st: State, chunk: Chunk)
    requires Awaiting(st)
    ensures AcceptTracked(Accept(env, st, chunk))
    ensures Accept(env, st, chunk).ok ==> Awaiting(Accept(env, st, chunk).st)
  {
    hide ToolsInv, SlotsInv, LogInv, Extends, Follows, View, Items, Recoverable, Start, AcceptOps, ValidOps;
    AcceptKeeps(env, st, chunk);
    if st.started { StillTracked(st); }
    if !st.terminal && ValidChunk(chunk, st.model) {
      var ready := if st.started then Step(st, true) else Start(env, st, chunk.created);
      if !st.started {
        StartKeeps(env, st, chunk.created);
        StartTracked(env, st, chunk.created);
      }
      if !ready.ok {
        assert AcceptTracked(Step(ready.st, false)) && Accept(env, st, chunk) == Step(ready.st, false);
      } else {
        WithUsageFollows(ready.st, chunk.usage);
        ChunkOpsValid(chunk, st.model);
        AcceptOpsFollows(env, WithUsage(ready.st, chunk.usage), ChunkOps(chunk));
        TrackedIsStarted(Accept(env, st, chunk));
      }
    }
  }

  lemma {:induction false} AcceptAllFollows(env: Env, st: State, chunks: seq<Chunk>)
    requires Awaiting(st)
    ensures AcceptTracked(AcceptAll(env, st, chunks))
    ensures AcceptAll(env, st, chunks).ok ==> Awaiting(AcceptAll(env, st, chunks).st)
    decreases |chunks|
  {
    if chunks == [] {
      if st.started { assert Recoverable(st, View(st)); }
    } else {
      AcceptAllFollows(env, st, chunks[..|chunks| - 1]);
      hide Awaiting, AcceptTracked, Accept;
      var before := AcceptAll(env, st, chunks[..|chunks| - 1]);
      if before.ok { AcceptFollows(env, before.st, chunks[|chunks| - 1]); }
    }
  }

  // ----- Complete -----

  function CloseSlot(slot: Slot): Slot {
    slot.(stage := Closed)
  }

  /** The view once the text item and the tools of the first n slots are done. */
  function ClosedView(st: State, n: nat): (slots: seq<Slot>)
    ensures |slots| == |st.output|
    ensures forall i | 0 <= i < |slots| ::
      slots[i] == if st.output[i].MessageItem? || i < n then CloseSlot(SlotView(st, i)) else SlotView(st, i)
  {
    seq(|st.output|, i requires 0 <= i < |st.output| =>
      if st.output[i].MessageItem? || i < n then CloseSlot(SlotView(st, i)) else SlotView(st, i))
  }

  /** One more event about slot i keeps the client and the items together. */
  lemma SlotEventRecoverable(env: Env, st: State, body: EventBody, slots: seq<Slot>)
    requires Recoverable(st, slots) && st.sequence >= 2 && IsSlotEvent(body) && 0 <= body.index < |slots|
    requires Advance(slots[body.index], body).Some? && !body.ItemDone?
    ensures Recoverable(Emit(env, st, body).st, slots[body.index := Advance(slots[body.index], body).value])
  {
    EmitKeeps(env, st, body);
    hide Inv, Replay, Receive, Extends;
    EmitSlotEvent(env, st, body, slots);
    var slots' := slots[body.index := Advance(slots[body.index], body).value];
    assert Items(slots') == Items(slots);
  }

  lemma CompleteSlotRecoverable(env: Env, st: State, i: nat, slots: seq<Slot>)
    requires Recoverable(st, slots) && st.sequence >= 2 && i < |slots|
    requires slots[i].stage == (if slots[i].TextSlot? then PartClosed else ValueDone)
    requires SameIdentity(st.output[i], SlotItem(CloseSlot(slots[i])))
    ensures Recoverable(CompleteSlot(env, st, i, SlotItem(CloseSlot(slots[i]))).st, slots[i := CloseSlot(slots[i])])
  {
    var item := SlotItem(CloseSlot(slots[i]));
    var replaced := st.(output := Replace(st.output, i, item));
    FinishItemKeeps(env, st, i, item);
    hide Inv, Replay, Receive, Extends;
    assert Follows(replaced, slots);
    EmitSlotEvent(env, replaced, ItemDone(i, item), slots);
    assert Items(slots[i := CloseSlot(slots[i])]) == replaced.output;
  }

  /** A step whose client agrees on items, and holds `slots` if it succeeded. */
  ghost predicate Reaches(r: Step, slots: seq<Slot>) {
    exists got :: Recoverable(r.st, got) && (r.ok ==> got == slots)
  }

  lemma TextSlotView(st: State)
    requires Inv(st) && st.text.Some?
    ensures var text := st.text.value;
            && 0 <= text.outputIndex < |View(st)|
            && View(st)[text.outputIndex] == TextSlot(text.itemID, text.text, Streaming)
            && View(st)[text.outputIndex := CloseSlot(View(st)[text.outputIndex])] == ClosedView(st, 0)
  {
  }

  lemma TextDoneFollows(env: Env, st: State, i: int, id: string, text: string, slots: seq<Slot>)
    requires Recoverable(st, slots) && st.sequence >= 2 && 0 <= i < |slots|
    requires slots[i] == TextSlot(id, text, Streaming)
    ensures var st' := Emit(env, st, TextDone(i, id, text)).st;
            Recoverable(st', slots[i := TextSlot(id, text, ValueDone)]) && st'.sequence >= 2
  {
    hide Recoverable;
    SlotEventRecoverable(env, st, TextDone(i, id, text), slots);
  }

  lemma PartDoneFollows(env: Env, st: State, i: int, id: string, text: string, slots: seq<Slot>)
    requires Recoverable(st, slots) && st.sequence >= 2 && 0 <= i < |slots|
    requires slots[i] == TextSlot(id, text, ValueDone)
    ensures var st' := Emit(env, st, PartDone(i, id, text)).st;
            Recoverable(st', slots[i := TextSlot(id, text, PartClosed)]) && st'.sequence >= 2
  {
    hide Recoverable;
    SlotEventRecoverable(env, st, PartDone(i, id, text), slots);
  }

  lemma TextItemFollows(env: Env, st: State, i: int, id: string, text: string, slots: seq<Slot>)
    requires Recoverable(st, slots) && st.sequence >= 2 && 0 <= i < |slots|
    requires slots[i] == TextSlot(id, text, PartClosed)
    ensures var st' := CompleteSlot(env, st, i, MessageItem(id, Completed, [text])).st;
            Recoverable(st', slots[i := TextSlot(id, text, Closed)]) && st'.sequence >= 2
  {
    hide Inv, Follows;
    CompleteSlotRecoverable(env, st, i, slots);
  }

  lemma NothingClosed(st: State)
    requires Inv(st) && st.text.None?
    ensures ClosedView(st, 0) == View(st)
  {
  }

  lemma CompleteTextFollows(env: Env, st: State)
    requires InStep(st)
    ensures Reaches(CompleteText(env, st), ClosedView(st, 0))
    ensures CompleteText(env, st).st.sequence >= 2
  {
    hide Inv, Follows, View, ClosedView, SlotView, Recoverable, InStep, Emit, CompleteSlot;
    InStepRecoverable(st);
    var slots := View(st);
    if st.text.None? {
      NothingClosed(st);
      assert Recoverable(CompleteText(env, st).st, slots);
    } else {
      var text := st.text.value;
      var i := text.outputIndex;
      TextSlotView(st);
      var first := Emit(env, st, TextDone(i, text.itemID, text.text));
      TextDoneFollows(env, st, i, text.itemID, text.text, slots);
      if first.ok {
        var slots1 := slots[i := TextSlot(text.itemID, text.text, ValueDone)];
        var second := Emit(env, first.st, PartDone(i, text.itemID, text.text));
        PartDoneFollows(env, first.st, i, text.itemID, text.text, slots1);
        if second.ok {
          var slots2 := slots1[i := TextSlot(text.itemID, text.text, PartClosed)];
          TextItemFollows(env, second.st, i, text.itemID, text.text, slots2);
          assert slots2[i := TextSlot(text.itemID, text.text, Closed)] == slots[i := CloseSlot(slots[i])];
        }
      }
    }
  }

  lemma CompleteToolFollows(env: Env, st: State, tool: ToolState, slots: seq<Slot>)
    requires Recoverable(st, slots) && st.sequence >= 2 && 0 <= tool.outputIndex < |slots|
    requires slots[tool.outputIndex] == CallSlot(tool.itemID, tool.callID, tool.name, tool.arguments, Streaming)
    ensures Reaches(CompleteTool(env, st, tool), slots[tool.outputIndex := CloseSlot(slots[tool.outputIndex])])
    ensures CompleteTool(env, st, tool).st.sequence >= 2
  {
    hide Inv, Follows, Replay, Receive;
    var i := tool.outputIndex;
    var first := Emit(env, st, ArgumentsDone(i, tool.itemID, tool.arguments));
    SlotEventRecoverable(env, st, ArgumentsDone(i, tool.itemID, tool.arguments), slots);
    if first.ok {
      var slots1 := slots[i := CallSlot(tool.itemID, tool.callID, tool.name, tool.arguments, ValueDone)];
      CompleteSlotRecoverable(env, first.st, i, slots1);
      assert slots1[i := CloseSlot(slots1[i])] == slots[i := CloseSlot(slots[i])];
    }
  }

  /** The next slot to close, when a tool owns it. */
  lemma ToolSlotStep(st: State, i: nat)
    requires Inv(st) && i < |st.output| && st.output[i].CallItem?
    ensures IsToolSlot(st, i)
    ensures var tool, slots := ToolAt(st, i), ClosedView(st, i);
            && tool.outputIndex == i && ToolsBySlot(st, i + 1) == ToolsBySlot(st, i) + [tool]
            && slots[i] == CallSlot(tool.itemID, tool.callID, tool.name, tool.arguments, Streaming)
            && slots[i := CloseSlot(slots[i])] == ClosedView(st, i + 1)
  {
    var tool := ToolAt(st, i);
    assert IsToolSlot(st, i) && tool.outputIndex == i && OwnsSlot(st, st.callIDs[st.output[i].callID]);
  }

  lemma TextSlotStep(st: State, i: nat)
    requires i < |st.output| && st.output[i].MessageItem?
    ensures ToolsBySlot(st, i + 1) == ToolsBySlot(st, i) && ClosedView(st, i + 1) == ClosedView(st, i)
  {
  }

  lemma NoToolsYet(st: State)
    ensures ToolsBySlot(st, 0) == []
  {
  }

  lemma {:induction false} CompleteToolsFollows(env: Env, st0: State, st: State, n: nat)
    requires InStep(st0) && n <= |st0.output|
    requires Recoverable(st, ClosedView(st0, 0)) && st.sequence >= 2
    ensures Reaches(CompleteTools(env, st, ToolsBySlot(st0, n)), ClosedView(st0, n))
    ensures CompleteTools(env, st, ToolsBySlot(st0, n)).st.sequence >= 2
  {
    hide Inv, Recoverable, CompleteTool, ToolsBySlot, ClosedView, SlotView, ToolAt, InStep;
    InStepRecoverable(st0);
    if n == 0 {
      NoToolsYet(st0);
      assert Recoverable(CompleteTools(env, st, []).st, ClosedView(st0, 0));
    } else {
      var i := n - 1;
      CompleteToolsFollows(env, st0, st, i);
      var before := CompleteTools(env, st, ToolsBySlot(st0, i));
      if st0.output[i].CallItem? {
        ToolSlotStep(st0, i);
        var tool, tools := ToolAt(st0, i), ToolsBySlot(st0, n);
        assert tools[..|tools| - 1] == ToolsBySlot(st0, i) && tools[|tools| - 1] == tool;
        if before.ok { CompleteToolFollows(env, before.st, tool, ClosedView(st0, i)); }
      } else {
        TextSlotStep(st0, i);
      }
    }
  }

  /** The trace is accepted to its end, and the stream takes no more calls. */
  ghost predicate Ended(st: State) {
    st.terminal && Replay(st.events).Some? && Replay(st.events).value.ended
  }

  lemma FinishFollows(env: Env, st: State, slots: seq<Slot>)
    requires Recoverable(st, slots) && st.sequence >= 2 && AllClosed(slots)
    ensures Ended(Emit(env, st.(terminal := true), CompletedEvent(Snapshot(st, Completed))).st)
  {
    ReplaySnoc(st.events, Event(st.sequence + 1, CompletedEvent(Snapshot(st, Completed))));
  }

  /** Complete closed every item, and said so in its last event. */
  ghost predicate SaidCompleted(before: State, st: State) {
    && Ended(st) && st.events != []
    && st.events[|st.events| - 1].body == CompletedEvent(Snapshot(st, Completed))
    && st.output == Items(ClosedView(before, |before.output|))
  }

  ghost predicate CanStillFail(st: State) {
    exists slots :: Recoverable(st, slots)
  }

  lemma CompleteFollows(env: Env, st: State)
    requires InStep(st)
    ensures var r := Complete(env, st);
            && r.st.started
            && (r.ok ==> r.st.terminal)
            && (if r.st.terminal then SaidCompleted(st, r.st) else CanStillFail(r.st))
  {
    CompleteTextFollows(env, st);
    CompleteTextKeeps(env, st);
    CompleteTextFrame(env, st);
    var n := |st.output|;
    var texted := CompleteText(env, st);
    var slots := ClosedView(st, n);
    assert AllClosed(slots);
    hide Inv, Replay, Receive, CompleteText, CompleteTools, ToolsBySlot, ClosedView, Items, Extends;
    if texted.ok && AllToolsStarted(st) {
      CompleteToolsFollows(env, st, texted.st, n);
      var tooled := CompleteTools(env, texted.st, ToolsBySlot(st, n));
      if tooled.ok {
        FinishFollows(env, tooled.st, slots);
      }
    }
  }

  lemma FailFollows(env: Env, st: State, slots: seq<Slot>, code: string)
    requires Recoverable(st, slots)
    ensures Ended(Fail(env, st, code).st)
  {
    hide Inv, Items, NewSlot, Advance;
    var body := FailedEvent(Snapshot(st, Failed).(error := Some(code)));
    ReplaySnoc(st.events, Event(st.sequence + 1, body));
  }

  /** Every run of the handler, whatever the upstream sends and whichever emits
      or id draws fail, produces a trace the client accepts; once the stream has
      started the trace is closed by one terminal event. */
  lemma EveryRunFollowsGrammar(env: Env, model: string, parallel: bool, chunks: seq<Chunk>, broken: bool)
    ensures var final := Drive(env, NewStream(model, parallel), chunks, broken);
            if final.started then Ended(final) else final.events == []
  {
    var st := NewStream(model, parallel);
    AcceptAllFollows(env, st, chunks);
    var accepted := AcceptAll(env, st, chunks);
    hide AcceptAll, Complete;
    if accepted.st.started {
      var slots :| Recoverable(accepted.st, slots);
      if !accepted.ok || broken {
        FailFollows(env, accepted.st, slots, UPSTREAM_UNAVAILABLE);
      } else {
        CompleteFollows(env, accepted.st);
        var completed := Complete(env, accepted.st);
        if !completed.st.terminal {
          var slots' :| Recoverable(completed.st, slots');
          FailFollows(env, completed.st, slots', UPSTREAM_UNAVAILABLE);
        }
      }
    } else {
      CompleteUnstarted(env, accepted.st);
    }
  }

  lemma CompleteUnstarted(env: Env, st: State)
    requires !st.started
    ensures Complete(env, st) == Step(st, false)
  {
  }

  // ----- what acceptance means, event by event -----

  function CountAdded(events: seq<Event>): nat {
    if events == [] then 0 else
    CountAdded(events[..|events| - 1]) + (if events[|events| - 1].body.ItemAdded? then 1 else 0)
  }

  /** All delta bytes sent for output item i, in order. */
  function Deltas(events: seq<Event>, i: int): string {
    if events == [] then "" else
    var body := events[|events| - 1].body;
    Deltas(events[..|events| - 1], i) +
    (if (body.TextDelta? || body.ArgumentsDelta?) && body.index == i then body.delta else "")
  }

  function CountDone(events: seq<Event>, i: int): nat {
    if events == [] then 0 else
    var body := events[|events| - 1].body;
    CountDone(events[..|events| - 1], i) + (if body.ItemDone? && body.index == i then 1 else 0)
  }

  predicate IsTerminal(body: EventBody) {
    body.CompletedEvent? || body.FailedEvent?
  }

  function SlotValue(slot: Slot): string {
    if slot.TextSlot? then slot.text else slot.arguments
  }

  function DeltaFor(body: EventBody, i: int): string {
    if (body.TextDelta? || body.ArgumentsDelta?) && body.index == i then body.delta else ""
  }

  /** What one accepted event does to slot i. */
  lemma ReceiveCounts(c: Client, e: Event, i: int)
    requires Receive(c, e).Some?
    ensures var c' := Receive(c, e).value;
            && c'.seen == c.seen + 1 && !c.ended
            && |c'.slots| == |c.slots| + (if e.body.ItemAdded? then 1 else 0)
            && (c'.ended <==> IsTerminal(e.body))
            && (0 <= i < |c.slots| ==>
                  SlotValue(c'.slots[i]) == SlotValue(c.slots[i]) + DeltaFor(e.body, i) &&
                  (c'.slots[i].stage == Closed <==>
                    c.slots[i].stage == Closed || (e.body.ItemDone? && e.body.index == i)))
            && (e.body.ItemAdded? ==> SlotValue(c'.slots[|c.slots|]) == "" && c'.slots[|c.slots|].stage != Closed)
            && (!(0 <= i < |c.slots|) ==> DeltaFor(e.body, i) == "" && !(e.body.ItemDone? && e.body.index == i))
            && (e.body.ItemDone? && e.body.index == i ==> c.slots[i].stage != Closed)
  {
  }

  /** Slot i of the client is exactly what the events say about item i. */
  ghost predicate Counted(events: seq<Event>, c: Client, i: int) {
    if 0 <= i < |c.slots| then
      SlotValue(c.slots[i]) == Deltas(events, i) &&
        CountDone(events, i) == (if c.slots[i].stage == Closed then 1 else 0)
    else Deltas(events, i) == "" && CountDone(events, i) == 0
  }

  lemma EmptyStart()
    ensures forall s: string :: s + "" == s
  {
  }

  lemma {:induction false} ReplayCounts(events: seq<Event>, i: int)
    requires Replay(events).Some?
    ensures var c := Replay(events).value;
            && c.seen == |events| && |c.slots| == CountAdded(events) && Counted(events, c, i)
            && (c.ended <==> events != [] && IsTerminal(events[|events| - 1].body))
    decreases |events|
  {
    if events != [] {
      var init, last := events[..|events| - 1], events[|events| - 1];
      ReplayCounts(init, i);
      ReceiveCounts(Replay(init).value, last, i);
      hide Receive, SlotValue, DeltaFor;
      EmptyStart();
    }
  }

  lemma {:induction false} ReplayPrefix(events: seq<Event>, p: nat)
    requires Replay(events).Some? && p <= |events|
    ensures Replay(events[..p]).Some?
    decreases |events|
  {
    if p == |events| {
      assert events[..p] == events;
    } else {
      ReplayPrefix(events[..|events| - 1], p);
      assert events[..|events| - 1][..p] == events[..p];
    }
  }

  /** What Receive demands of an event, in terms of the slots before it. */
  lemma ReceiveRules(c: Client, e: Event)
    requires Receive(c, e).Some?
    ensures e.sequence == c.seen + 1 && !c.ended
    ensures e.body.CreatedEvent? <==> c.seen == 0
    ensures e.body.InProgressEvent? ==> c.seen == 1
    ensures c.seen == 1 ==> e.body.InProgressEvent? || e.body.FailedEvent?
    ensures e.body.ItemAdded? ==> e.body.index == |c.slots|
    ensures IsSlotEvent(e.body) ==> 0 <= e.body.index < |c.slots|
    ensures e.body.TextDone? ==> e.body.text == SlotValue(c.slots[e.body.index])
    ensures e.body.ArgumentsDone? ==> e.body.arguments == SlotValue(c.slots[e.body.index])
    ensures e.body.ItemDone? ==> c.slots[e.body.index].stage != Closed
    ensures e.body.CompletedEvent? ==> AllClosed(c.slots)
  {
  }

  /** The rules an accepted trace obeys at each position: numbering from one,
      created and then in_progress first, consecutive output indexes, deltas and
      done events only for items added before, done values equal to the deltas
      sent, one item done each, nothing after a terminal event. */
  ghost predicate ObeysRules(events: seq<Event>, p: nat)
    requires p < |events|
  {
    var e, before := events[p], events[..p];
    && e.sequence == p + 1
    && (e.body.CreatedEvent? <==> p == 0)
    && (e.body.InProgressEvent? ==> p == 1)
    && (p == 1 ==> e.body.InProgressEvent? || e.body.FailedEvent?)
    && (IsTerminal(e.body) ==> p == |events| - 1)
    && (e.body.ItemAdded? ==> e.body.index == CountAdded(before))
    && (IsSlotEvent(e.body) ==> 0 <= e.body.index < CountAdded(before))
    && (e.body.TextDone? ==> e.body.text == Deltas(before, e.body.index))
    && (e.body.ArgumentsDone? ==> e.body.arguments == Deltas(before, e.body.index))
    && (e.body.ItemDone? ==> CountDone(before, e.body.index) == 0)
    && (e.body.CompletedEvent? ==> forall i | 0 <= i < CountAdded(before) :: CountDone(before, i) == 1)
  }

  lemma AcceptedTraceRules(events: seq<Event>, p: nat)
    requires Replay(events).Some? && p < |events|
    ensures ObeysRules(events, p)
  {
    hide Receive, Replay, CountDone, Deltas, CountAdded;
    var before := events[..p];
    ReplayPrefix(events, p);
    ReplayPrefix(events, p + 1);
    var c := Replay(before).value;
    assert events[..p + 1] == before + [events[p]];
    ReplaySnoc(before, events[p]);
    ReceiveRules(c, events[p]);
    ReplayCounts(before, if IsSlotEvent(events[p].body) then events[p].body.index else 0);
    if events[p].body.CompletedEvent? { ClosedItemsAreDone(before); }
    if p + 1 < |events| { TerminalIsLast(events, p); }
  }

  lemma ClosedItemsAreDone(events: seq<Event>)
    requires Replay(events).Some? && AllClosed(Replay(events).value.slots)
    ensures forall i | 0 <= i < CountAdded(events) :: CountDone(events, i) == 1
  {
    forall i | 0 <= i < CountAdded(events)
      ensures CountDone(events, i) == 1
    {
      ReplayCounts(events, i);
      assert Replay(events).value.slots[i] in Replay(events).value.slots;
    }
  }

  lemma TerminalIsLast(events: seq<Event>, p: nat)
    requires Replay(events).Some? && p + 1 < |events|
    ensures !IsTerminal(events[p].body)
  {
    hide Replay, Receive, Counted;
    ReplayPrefix(events, p + 1);
    ReplayPrefix(events, p + 2);
    assert events[..p + 2] == events[..p + 1] + [events[p + 1]];
    ReplaySnoc(events[..p + 1], events[p + 1]);
    ReplayCounts(events[..p + 1], 0);
    ReceiveRules(Replay(events[..p + 1]).value, events[p + 1]);
  }

  lemma EveryRunObeysRules(env: Env, model: string, parallel: bool, chunks: seq<Chunk>, broken: bool, p: nat)
    requires p < |Drive(env, NewStream(model, parallel), chunks, broken).events|
    ensures ObeysRules(Drive(env, NewStream(model, parallel), chunks, broken).events, p)
  {
    EveryRunFollowsGrammar(env, model, parallel, chunks, broken);
    AcceptedTraceRules(Drive(env, NewStream(model, parallel), chunks, broken).events, p);
  }

  /** A successful Complete leaves every item completed, each with one item done. */
  lemma SuccessfulRunFinishesEveryItem(env: Env, model: string, parallel: bool, chunks: seq<Chunk>)
    requires AcceptAll(env, NewStream(model, parallel), chunks).ok
    requires Complete(env, AcceptAll(env, NewStream(model, parallel), chunks).st).ok
    ensures var final := Drive(env, NewStream(model, parallel), chunks, false);
            && final.events != [] && final.events[|final.events| - 1].body == CompletedEvent(Snapshot(final, Completed))
            && |final.output| == CountAdded(final.events)
            && forall i | 0 <= i < |final.output| ::
                 final.output[i].status == Completed && CountDone(final.events, i) == 1
  {
    hide AcceptAll, Complete, Inv, Receive, Replay, InStep, ObeysRules, AcceptTracked;
    var st := NewStream(model, parallel);
    var accepted := AcceptAll(env, st, chunks).st;
    NewStreamInvariant(model, parallel);
    AcceptAllFollows(env, st, chunks);
    if !accepted.started { CompleteUnstarted(env, accepted); }
    CompleteFollows(env, accepted);
    FinishedItems(accepted, Complete(env, accepted).st);
  }

  lemma FinishedItems(before: State, final: State)
    requires SaidCompleted(before, final)
    ensures |final.output| == CountAdded(final.events)
    ensures forall i | 0 <= i < |final.output| ::
              final.output[i].status == Completed && CountDone(final.events, i) == 1
  {
    AcceptedTraceRules(final.events, |final.events| - 1);
    hide Inv, Receive, Replay, ObeysRules, CountDone, CountAdded;
    CompletedCounts(before, final, 0);
    forall i | 0 <= i < |final.output|
      ensures final.output[i].status == Completed && CountDone(final.events, i) == 1
    {
      assert final.output[i] == SlotItem(ClosedView(before, |before.output|)[i]);
      CompletedCounts(before, final, i);
    }
  }

  lemma CompletedCounts(before: State, final: State, i: int)
    requires SaidCompleted(before, final) && ObeysRules(final.events, |final.events| - 1)
    ensures |final.output| == CountAdded(final.events)
    ensures 0 <= i < |final.output| ==> CountDone(final.events, i) == 1
  {
    var n := |final.events| - 1;
    ReplayPrefix(final.events, n);
    assert final.events == final.events[..n] + [final.events[n]];
    ReplaySnoc(final.events[..n], final.events[n]);
    ReplayCounts(final.events[..n], i);
  }

  /** While nothing has failed, the deltas sent for each item spell out exactly
      the text and arguments received so far; a tool that has not started has
      sent nothing. */
  lemma DeltaConservation(st: State, k: int)
    requires InStep(st)
    ensures st.text.Some? ==> Deltas(st.events, st.text.value.outputIndex) == st.text.value.text
    ensures IsOpen(st, k) ==> Deltas(st.events, st.tools[k].outputIndex) == st.tools[k].arguments
    ensures k in st.tools && !st.tools[k].started ==>
              st.tools[k].outputIndex == -1 && Deltas(st.events, -1) == ""
    ensures CountAdded(st.events) == |st.output|
  {
    ReplayCounts(st.events, if st.text.Some? then st.text.value.outputIndex else 0);
    ReplayCounts(st.events, if k in st.tools then st.tools[k].outputIndex else 0);
    if IsOpen(st, k) {
      assert OwnsSlot(st, k);
      assert IsToolSlot(st, st.tools[k].outputIndex) && ToolAt(st, st.tools[k].outputIndex) == st.tools[k];
    }
  }

  /** Accepting chunks keeps the client in step until something fails. */
  lemma AcceptedRunIsInStep(env: Env, model: string, parallel: bool, chunks: seq<Chunk>)
    requires AcceptAll(env, NewStream(model, parallel), chunks).ok
    requires AcceptAll(env, NewStream(model, parallel), chunks).st.started
    ensures InStep(AcceptAll(env, NewStream(model, parallel), chunks).st)
  {
    hide AcceptAll, InStep, AcceptTracked;
    AcceptAllFollows(env, NewStream(model, parallel), chunks);
  }
}
