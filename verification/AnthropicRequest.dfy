/** The conversion as it runs: fresh message objects rewritten in place, the caller's objects never written to. */
module AnthropicRequest {
  import opened Strings
  import opened Messages

  /** A content-block dictionary; only its cache marker can change. */
  class BlockObject {
    const data: Block
    var marked: bool

    constructor (data: Block, marked: bool)
      ensures this.data == data && this.marked == marked
    {
      this.data, this.marked := data, marked;
    }
  }

  /** A `content` value: a string, or a list of blocks that other messages may share. */
  datatype ContentRef = PlainRef(text: string) | ListRef(items: seq<BlockObject>)

  function Data(items: seq<BlockObject>): seq<Block> {
    seq(|items|, i requires 0 <= i < |items| => items[i].data)
  }

  function Read(c: ContentRef): Content {
    match c case PlainRef(t) => Plain(t) case ListRef(items) => Blocks(Data(items))
  }

  function ReadOption(c: Option<ContentRef>): Option<Content> {
    match c case None => None case Some(content) => Some(Read(content))
  }

  /** A dictionary of the history handed in by the caller. */
  class CallerMessage {
    const kind: CallerKind
    const callId: Option<string>
    const calls: seq<ToolCall>
    var content: Option<ContentRef>

    constructor (kind: CallerKind, callId: Option<string>, calls: seq<ToolCall>, content: Option<ContentRef>)
      ensures this.kind == kind && this.callId == callId && this.calls == calls && this.content == content
    {
      this.kind, this.callId, this.calls, this.content := kind, callId, calls, content;
    }

    function AsInput(): Input
      reads this
    {
      var said := ReadOption(content);
      match kind
      case SystemRole => System(if said.Some? then said.value else Plain(""))
      case ToolRole => Tool(callId, if said.Some? then said.value else Plain(""))
      case AssistantRole => FromAssistant(said, calls)
      case UserRole => FromUser(said)
      case AnyOther => OtherRole
    }
  }

  datatype CallerKind = SystemRole | ToolRole | AssistantRole | UserRole | AnyOther

  /** A dictionary is read by its role; a tool or system message without content counts as one with empty text. */
  lemma AsInputExactly(m: CallerMessage)
    ensures m.kind == SystemRole && m.content == None ==> m.AsInput() == System(Plain(""))
    ensures m.kind == SystemRole && m.content != None ==> m.AsInput() == System(Read(m.content.value))
    ensures m.kind == ToolRole && m.content == None ==> m.AsInput() == Tool(m.callId, Plain(""))
    ensures m.kind == ToolRole && m.content != None ==> m.AsInput() == Tool(m.callId, Read(m.content.value))
    ensures m.kind == AssistantRole || m.kind == UserRole ==>
              && m.AsInput() == (if m.kind == UserRole then FromUser(m.AsInput().said) else FromAssistant(m.AsInput().said, m.calls))
              && (m.content == None <==> m.AsInput().said == None)
              && (m.content != None ==> m.AsInput().said == Some(Read(m.content.value)))
    ensures m.kind == AnyOther ==> m.AsInput() == OtherRole
  {}

  lemma ReadExactly(text: string, items: seq<BlockObject>)
    ensures Read(PlainRef(text)) == Plain(text)
    ensures Read(ListRef(items)).Blocks? && |Read(ListRef(items)).blocks| == |items|
    ensures forall i | 0 <= i < |items| :: Read(ListRef(items)).blocks[i] == items[i].data
  {}

  /** The history, read as values. */
  ghost predicate Describes(history: seq<CallerMessage>, inputs: seq<Input>)
    reads history
  {
    |inputs| == |history| && forall i | 0 <= i < |history| :: inputs[i] == history[i].AsInput()
  }

  /** A message dictionary the converter made. */
  class MessageObject {
    const role: Role
    var content: ContentRef

    constructor (role: Role, content: ContentRef)
      ensures this.role == role && this.content == content
    {
      this.role, this.content := role, content;
    }

    function Value(): Msg
      reads this
    {
      Msg(role, Read(content))
    }
  }

  /** The message objects, read as values. */
  ghost predicate Holds(ms: seq<MessageObject>, values: seq<Msg>)
    reads ms
  {
    |values| == |ms| && forall i | 0 <= i < |ms| :: ms[i].Value() == values[i]
  }

  ghost function ReadAll(ms: seq<MessageObject>): (values: seq<Msg>)
    reads ms
    ensures Holds(ms, values)
  {
    if ms == [] then [] else ReadAll(ms[..|ms| - 1]) + [ms[|ms| - 1].Value()]
  }

  ghost predicate Distinct(ms: seq<MessageObject>) {
    forall i, j | 0 <= i < j < |ms| :: ms[i] != ms[j]
  }

  /** `content` as a list, wrapping a string in one new block. */
  method ToList(c: ContentRef) returns (items: seq<BlockObject>)
    ensures Data(items) == AsBlocks(Read(c))
    ensures if c.ListRef? then items == c.items else |items| == 1 && fresh(items[0])
  {
    match c
    case ListRef(bs) => items := bs;
    case PlainRef(t) =>
      var block := new BlockObject(Text(Plain(t)), false);
      items := [block];
      assert Data(items) == [block.data];
  }

  // ---- Stage one ----

  method ConvertMessages(loads: Loads, history: seq<CallerMessage>, ghost inputs: seq<Input>)
      returns (system: Option<ContentRef>, converted: seq<MessageObject>)
    requires Describes(history, inputs)
    ensures forall j | 0 <= j < |converted| :: fresh(converted[j])
    ensures Distinct(converted)
    ensures Holds(converted, Convert(loads, inputs))
    ensures ReadOption(system) == SystemMessage(inputs)
  {
    system, converted := None, [];
    for i := 0 to |history|
      invariant forall j | 0 <= j < |converted| :: fresh(converted[j])
      invariant Distinct(converted)
      invariant Holds(converted, Convert(loads, inputs[..i]))
      invariant ReadOption(system) == SystemMessage(inputs[..i])
    {
      hide ConvertOne, Read, Distinct;
      assert inputs[..i + 1][..i] == inputs[..i] && inputs[..i + 1][i] == inputs[i];
      if history[i].kind == SystemRole {
        system := if history[i].content.Some? then history[i].content else Some(PlainRef(""));
      }
      converted := ConvertMessage(loads, history[i], converted, Convert(loads, inputs[..i]));
    }
    assert inputs[..|history|] == inputs;
  }

  /** A user or assistant block list is passed on as it is, not copied. */
  method ConvertMessage(loads: Loads, m: CallerMessage, converted: seq<MessageObject>, ghost values: seq<Msg>)
      returns (all: seq<MessageObject>)
    requires Distinct(converted) && Holds(converted, values)
    ensures converted <= all && forall i | |converted| <= i < |all| :: fresh(all[i])
    ensures Distinct(all) && Holds(all, values + ConvertOne(loads, m.AsInput()))
  {
    all := converted;
    var said := ReadOption(m.content);
    if m.kind == ToolRole {
      if ValidId(m.callId) {
        var result := new BlockObject(ToolResult(m.callId, if said.Some? then said.value else Plain("")), false);
        var made := new MessageObject(User, ListRef([result]));
        assert Data([result]) == [result.data];
        all := all + [made];
      }
    } else if m.kind == AssistantRole && m.calls != [] {
      var items: seq<BlockObject> := [];
      if Given(said) {
        var text := new BlockObject(Text(said.value), false);
        items := [text];
      }
      assert Data(items) == if Given(said) then [Text(said.value)] else [];
      items := AddToolUses(loads, items, m.calls);
      var made := new MessageObject(Assistant, ListRef(items));
      all := all + [made];
    } else if (m.kind == UserRole || m.kind == AssistantRole) && Given(said) {
      var made := new MessageObject(if m.kind == UserRole then User else Assistant, m.content.value);
      all := all + [made];
    }
  }

  method AddToolUses(loads: Loads, items: seq<BlockObject>, calls: seq<ToolCall>) returns (all: seq<BlockObject>)
    ensures Data(all) == Data(items) + ToolUses(loads, calls)
  {
    all := items;
    for i := 0 to |calls|
      invariant Data(all) == Data(items) + ToolUses(loads, calls[..i])
    {
      var use := new BlockObject(ToolUse(calls[i].id, calls[i].name, ParseArguments(loads, calls[i].arguments)), false);
      DataConcat(all, [use]);
      all := all + [use];
      assert ToolUses(loads, calls[..i + 1]) == ToolUses(loads, calls[..i]) + Data([use]);
    }
    assert calls[..|calls|] == calls;
  }

  lemma DataConcat(a: seq<BlockObject>, b: seq<BlockObject>)
    ensures Data(a + b) == Data(a) + Data(b)
  {}

  // ---- Stage two ----

  method MergeMessages(converted: seq<MessageObject>, ghost values: seq<Msg>) returns (merged: seq<MessageObject>)
    requires Distinct(converted) && Holds(converted, values)
    modifies converted
    ensures Holds(merged, Merge(values))
    ensures Distinct(merged) && forall m | m in merged :: m in converted
  {
    hide MergeOne;
    merged := [];
    for i := 0 to |converted|
      invariant forall m | m in merged :: m in converted[..i]
      invariant Distinct(merged)
      invariant forall j | i <= j < |converted| :: converted[j].Value() == values[j]
      invariant Holds(merged, Merge(values[..i]))
    {
      assert values[..i + 1][..i] == values[..i] && values[..i + 1][i] == values[i];
      assert converted[..i + 1] == converted[..i] + [converted[i]];
      assert forall j | i <= j < |converted| :: converted[j] !in merged;
      assert forall j | 0 <= j < |merged| :: merged[j] in converted by {
        assert forall j | 0 <= j < |merged| :: merged[j] in merged;
      }
      merged := MergeMessage(merged, converted[i], Merge(values[..i]));
    }
    assert values[..|converted|] == values;
  }

  method MergeMessage(merged: seq<MessageObject>, m: MessageObject, ghost values: seq<Msg>) returns (all: seq<MessageObject>)
    requires Distinct(merged) && m !in merged && Holds(merged, values)
    modifies merged
    ensures Distinct(all) && forall o | o in all :: o in merged || o == m
    ensures Holds(all, MergeOne(values, m.Value()))
  {
    hide AsBlocks, Read;
    all := merged;
    if merged != [] && merged[|merged| - 1].role == m.role {
      assert merged[|merged| - 1] in merged;
      Absorb(merged[|merged| - 1], m.content);
    } else {
      all := merged + [m];
    }
  }

  /** Appends `content` to a message; both sides become lists if they are strings. */
  method Absorb(last: MessageObject, content: ContentRef)
    modifies last
    ensures last.Value() == Msg(last.role, Blocks(AsBlocks(old(last.Value()).content) + AsBlocks(Read(content))))
  {
    var prev := ToList(last.content);
    var curr := ToList(content);
    DataConcat(prev, curr);
    last.content := ListRef(prev + curr);
  }

  // ---- Stage three ----

  method RepairMessages(merged: seq<MessageObject>, ghost values: seq<Msg>) returns (repaired: seq<MessageObject>)
    requires Distinct(merged) && Holds(merged, values)
    modifies merged
    ensures Holds(repaired, Repair(values))
    ensures Distinct(repaired) && forall o | o in repaired :: o in merged || fresh(o)
  {
    hide Missing, InsertedAfter, RepairedAt;
    repaired := [];
    if merged != [] {
      FirstOwesNothing(values);
    }
    for k := 0 to |merged|
      invariant forall o | o in repaired :: o in merged[..k] || fresh(o)
      invariant Distinct(repaired)
      invariant forall j | k <= j < |merged| :: merged[j].Value() == if j == k then RepairedAt(values, j) else values[j]
      invariant Holds(repaired, RepairPrefix(values, k))
    {
      assert merged[..k + 1] == merged[..k] + [merged[k]];
      assert forall j | k <= j < |merged| :: merged[j] !in repaired;
      repaired := RepairMessage(repaired, merged, k, RepairPrefix(values, k), values);
    }
  }

  lemma FirstOwesNothing(values: seq<Msg>)
    requires values != []
    ensures RepairedAt(values, 0) == values[0]
  {}

  /** One pass of the loop: keeps message `k`, and sees to the results its tool uses lack. */
  method RepairMessage(repaired: seq<MessageObject>, merged: seq<MessageObject>, k: nat, ghost done: seq<Msg>, ghost values: seq<Msg>)
      returns (all: seq<MessageObject>)
    requires k < |merged| == |values| && Distinct(merged)
    requires Distinct(repaired) && forall j | k <= j < |merged| :: merged[j] !in repaired
    requires Holds(repaired, done) && merged[k].Value() == RepairedAt(values, k)
    requires forall j | k < j < |merged| :: merged[j].Value() == values[j]
    modifies set j | k < j < |merged| :: merged[j]
    ensures Distinct(all) && forall o | o in all :: o in repaired || o == merged[k] || fresh(o)
    ensures Holds(all, done + [RepairedAt(values, k)] + InsertedAfter(values, k))
    ensures forall j | k < j < |merged| :: merged[j].Value() == if j == k + 1 then RepairedAt(values, j) else values[j]
  {
    hide Unanswered, ToolUseIds, Synthetic, Read, AsBlocks;
    var msg := merged[k];
    all := repaired + [msg];
    var missing: seq<string> := [];
    if msg.role == Assistant {
      assert msg.Value() == values[k];
      var next := if k + 1 < |merged| then Some(merged[k + 1].Value()) else None;
      assert next == Next(values, k);
      missing := Unanswered(ToolUseIds(msg.Value()), next);
    }
    assert missing == Missing(values, k);
    if missing != [] {
      if k + 1 < |merged| && merged[k + 1].role == User {
        var owing := merged[k + 1];
        assert forall j | k + 1 < j < |merged| :: merged[j] != owing;
        assert msg != owing;
        PrependResults(owing, missing);
      } else {
        var items := NewResults(missing);
        var inserted := new MessageObject(User, ListRef(items));
        ReadList(items);
        all := all + [inserted];
      }
    }
  }

  lemma ReadList(items: seq<BlockObject>)
    ensures Read(ListRef(items)) == Blocks(Data(items))
  {}

  method NewResults(ids: seq<string>) returns (items: seq<BlockObject>)
    ensures Data(items) == Synthetic(ids)
  {
    items := [];
    for i := 0 to |ids|
      invariant Data(items) == Synthetic(ids[..i])
    {
      var result := new BlockObject(ToolResult(Some(ids[i]), INTERRUPTED), false);
      DataConcat(items, [result]);
      items := items + [result];
      assert Synthetic(ids[..i + 1]) == Synthetic(ids[..i]) + Data([result]);
    }
    assert ids[..|ids|] == ids;
  }

  method PrependResults(next: MessageObject, ids: seq<string>)
    modifies next
    ensures next.Value() == Msg(next.role, Blocks(Synthetic(ids) + AsBlocks(old(next.Value()).content)))
  {
    var results := NewResults(ids);
    var items := ToList(next.content);
    DataConcat(results, items);
    next.content := ListRef(results + items);
  }

  // ---- Stage four ----

  method PadMessages(repaired: seq<MessageObject>, ghost values: seq<Msg>) returns (padded: seq<MessageObject>)
    requires Distinct(repaired) && Holds(repaired, values)
    ensures Holds(padded, PadBack(PadFront(values)))
    ensures Distinct(padded) && forall o | o in padded :: o in repaired || fresh(o)
  {
    padded := PadFirst(repaired, values);
    if padded != [] && padded[|padded| - 1].role != User {
      var closing := new MessageObject(User, PlainRef("Continue."));
      padded := padded + [closing];
    }
  }

  method PadFirst(repaired: seq<MessageObject>, ghost values: seq<Msg>) returns (padded: seq<MessageObject>)
    requires Distinct(repaired) && Holds(repaired, values)
    ensures Holds(padded, PadFront(values))
    ensures Distinct(padded) && forall o | o in padded :: o in repaired || fresh(o)
  {
    padded := repaired;
    if padded != [] && padded[0].role != User {
      var opening := new MessageObject(User, PlainRef("Continue the conversation."));
      padded := [opening] + padded;
    }
  }

  // ---- Cache markers ----

  class ToolObject {
    const data: string
    var marked: bool

    constructor (data: string)
      ensures this.data == data && !marked
    {
      this.data, marked := data, false;
    }
  }

  class Request {
    var tools: seq<ToolObject>
    var system: Option<ContentRef>
    var messages: seq<MessageObject>

    constructor (tools: seq<ToolObject>, system: Option<ContentRef>, messages: seq<MessageObject>)
      ensures this.tools == tools && this.system == system && this.messages == messages
    {
      this.tools, this.system, this.messages := tools, system, messages;
    }
  }

  function Items(c: ContentRef): seq<BlockObject> {
    match c case PlainRef(_) => [] case ListRef(items) => items
  }

  /** The last block carries a marker. */
  predicate EndsMarked(c: ContentRef)
    reads Items(c)
  {
    Items(c) != [] && Items(c)[|Items(c)| - 1].marked
  }

  /** Puts a marker on the last block of a string or list, always on a new block object. */
  method MarkLast(c: ContentRef) returns (marked: ContentRef, ghost added: set<object>)
    ensures |added| <= 1 && forall o | o in added :: fresh(o)
    ensures AsBlocks(Read(marked)) == AsBlocks(Read(c))
    ensures marked == c || marked.ListRef?
    ensures forall b | b in Items(marked) :: b in Items(c) || b in added
    ensures NonEmpty(Read(c)) ==> EndsMarked(marked)
  {
    marked, added := c, {};
    if NonEmpty(Read(c)) {
      var items := ToList(c);
      assert |items| == |Data(items)|;
      assert forall b | b in items[..|items| - 1] :: b in Items(c);
      var last := items[|items| - 1];
      var copy := new BlockObject(last.data, true);
      marked, added := ListRef(items[..|items| - 1] + [copy]), {copy};
      assert Data(items[..|items| - 1] + [copy]) == Data(items);
    }
  }

  /**
   * Marks the last tool in place, and the last block of the system prompt and of the last message on copies.
   * At most three objects carry a marker that carried none before; what the request says is the same.
   */
  method ApplyCacheControl(r: Request) returns (ghost added: set<object>)
    requires Distinct(r.messages)
    modifies r`system, r.tools, r.messages
    ensures |added| <= 3
    ensures forall t | t in r.tools && t.marked :: t in added || old(t.marked)
    ensures forall b | b in SystemItems(r) :: b in added || b in old(SystemItems(r))
    ensures forall m | m in r.messages :: forall b | b in Items(m.content) :: b in added || b in old(Items(m.content))
    ensures ReadSystem(r) == old(ReadSystem(r))
    ensures forall m | m in r.messages :: AsBlocks(m.Value().content) == old(AsBlocks(m.Value().content))
    ensures forall i | 0 <= i < |r.messages| && r.messages[i].content != old(r.messages[i].content) ::
              i == |r.messages| - 1 && r.messages[i].content.ListRef?
    ensures r.tools != [] ==> r.tools[|r.tools| - 1].marked
    ensures old(r.system.Some? && r.system.value.PlainRef? && r.system.value.text != "") ==>
              r.system.Some? && EndsMarked(r.system.value)
    ensures r.messages != [] && NonEmpty(old(r.messages[|r.messages| - 1].Value()).content) ==>
              EndsMarked(r.messages[|r.messages| - 1].content)
  {
    hide Read, AsBlocks, NonEmpty;
    ghost var byTools := MarkTools(r.tools);
    ghost var bySystem := MarkSystem(r);
    ghost var byMessages := MarkMessages(r.messages);
    added := byTools + bySystem + byMessages;
  }

  /** A system prompt given as a string becomes a list of one marked block. */
  method MarkSystem(r: Request) returns (ghost added: set<object>)
    modifies r`system
    ensures |added| <= 1 && forall b | b in SystemItems(r) :: b in added || b in old(SystemItems(r))
    ensures ReadSystem(r) == old(ReadSystem(r))
    ensures old(r.system.Some? && r.system.value.PlainRef? && r.system.value.text != "") ==>
              r.system.Some? && EndsMarked(r.system.value)
  {
    added := {};
    if r.system.Some? && r.system.value.PlainRef? {
      var system: ContentRef;
      system, added := MarkLast(r.system.value);
      r.system := Some(system);
    }
  }

  method MarkTools(tools: seq<ToolObject>) returns (ghost added: set<object>)
    modifies tools
    ensures |added| <= 1 && forall t | t in tools && t.marked :: t in added || old(t.marked)
    ensures tools != [] ==> tools[|tools| - 1].marked
  {
    added := {};
    if tools != [] {
      tools[|tools| - 1].marked := true;
      added := {tools[|tools| - 1]};
    }
  }

  method MarkMessages(messages: seq<MessageObject>) returns (ghost added: set<object>)
    requires Distinct(messages)
    modifies messages
    ensures |added| <= 1 && forall m | m in messages :: forall b | b in Items(m.content) :: b in added || b in old(Items(m.content))
    ensures forall m | m in messages :: AsBlocks(m.Value().content) == old(AsBlocks(m.Value().content))
    ensures forall i | 0 <= i < |messages| && messages[i].content != old(messages[i].content) ::
              i == |messages| - 1 && messages[i].content.ListRef?
    ensures messages != [] && NonEmpty(old(messages[|messages| - 1].Value()).content) ==>
              EndsMarked(messages[|messages| - 1].content)
  {
    hide Read;
    added := {};
    if messages != [] {
      var last := messages[|messages| - 1];
      assert forall i | 0 <= i < |messages| - 1 :: messages[i] != last;
      var content: ContentRef;
      content, added := MarkLast(last.content);
      last.content := content;
    }
  }

  function SystemItems(r: Request): seq<BlockObject>
    reads r
  {
    if r.system.Some? then Items(r.system.value) else []
  }

  function ReadSystem(r: Request): Option<seq<Block>>
    reads r
  {
    match r.system case None => None case Some(c) => Some(AsBlocks(Read(c)))
  }

  // ---- The whole request ----

  datatype ToolSpec = ToolSpec(isFunction: bool, data: string)

  /** What the function tools of a list say, in order. */
  function FunctionData(specs: seq<ToolSpec>): seq<string> {
    if specs == [] then []
    else FunctionData(specs[..|specs| - 1]) + if specs[|specs| - 1].isFunction then [specs[|specs| - 1].data] else []
  }

  /** Tool by tool: what a function tool says, and nothing of any other. */
  lemma FunctionDataExactly(specs: seq<ToolSpec>, data: string)
    ensures FunctionData([]) == []
    ensures FunctionData(specs + [ToolSpec(true, data)]) == FunctionData(specs) + [data]
    ensures FunctionData(specs + [ToolSpec(false, data)]) == FunctionData(specs)
  {}

  function ToolData(tools: seq<ToolObject>): seq<string> {
    seq(|tools|, i requires 0 <= i < |tools| => tools[i].data)
  }

  /** Function tools only, each as a new, unmarked dictionary. */
  method ConvertTools(specs: seq<ToolSpec>) returns (tools: seq<ToolObject>)
    ensures ToolData(tools) == FunctionData(specs)
    ensures forall j | 0 <= j < |tools| :: fresh(tools[j]) && !tools[j].marked
  {
    tools := [];
    for i := 0 to |specs|
      invariant ToolData(tools) == FunctionData(specs[..i])
      invariant forall j | 0 <= j < |tools| :: fresh(tools[j]) && !tools[j].marked
    {
      assert specs[..i + 1][..i] == specs[..i];
      if specs[i].isFunction {
        var tool := new ToolObject(specs[i].data);
        assert ToolData(tools + [tool]) == ToolData(tools) + [tool.data];
        tools := tools + [tool];
      }
    }
    assert specs[..|specs|] == specs;
  }

  /** Messages that say the same; at most, a string has become a one-block list. */
  ghost predicate SameWords(a: Msg, b: Msg) {
    a.role == b.role && (a.content == b.content || b.content == Blocks(AsBlocks(a.content)))
  }

  lemma SameWordsSameUses(a: Msg, b: Msg)
    requires SameWords(a, b)
    ensures ToolUseIds(a) == ToolUseIds(b)
  {
    if a.content.Plain? && b.content.Blocks? {
      assert b.content.blocks == [Text(a.content)];
      assert b.content.blocks[1..] == [] && UseIds([]) == [];
      assert !b.content.blocks[0].ToolUse?;
    }
  }

  lemma RewordingStaysAcceptable(a: seq<Msg>, b: seq<Msg>)
    requires Acceptable(a) && |a| == |b| && forall i | 0 <= i < |a| :: SameWords(a[i], b[i])
    ensures Acceptable(b)
  {
    forall i, id | 0 <= i < |b| && b[i].role == Assistant && id in ToolUseIds(b[i])
      ensures i + 1 < |b| && HasResult(b[i + 1], id)
    {
      SameWordsSameUses(a[i], b[i]);
      assert HasResult(a[i + 1], id);
    }
    forall i | 0 <= i < |b| - 1 ensures b[i].role != b[i + 1].role {
      assert a[i].role != a[i + 1].role;
    }
  }

  /** The last system message, unless it is empty. */
  function SystemSent(inputs: seq<Input>): Option<seq<Block>> {
    match SystemMessage(inputs)
    case Some(c) => if NonEmpty(c) then Some(AsBlocks(c)) else None
    case None => None
  }

  /** Text goes out as one block, a list of blocks as it is; empty ones do not go out. */
  lemma SystemSentExactly(inputs: seq<Input>, text: string, bs: seq<Block>)
    ensures SystemMessage(inputs) in {None, Some(Plain("")), Some(Blocks([]))} ==> SystemSent(inputs) == None
    ensures SystemMessage(inputs) == Some(Plain(text)) && text != "" ==> SystemSent(inputs) == Some([Text(Plain(text))])
    ensures SystemMessage(inputs) == Some(Blocks(bs)) && bs != [] ==> SystemSent(inputs) == Some(bs)
  {}

  /**
   * From history to request. Nothing of the caller's is in a modifies clause, so its messages, lists and blocks
   * are as they were; the request is acceptable and says what the four stages say, cached or not.
   */
  method BuildRequest(loads: Loads, history: seq<CallerMessage>, ghost inputs: seq<Input>, specs: seq<ToolSpec>, caching: bool)
      returns (r: Request, ghost values: seq<Msg>)
    requires Describes(history, inputs)
    ensures fresh(r) && Holds(r.messages, values) && Acceptable(values)
    ensures |values| == |Shape(Convert(loads, inputs))|
    ensures forall i | 0 <= i < |values| :: SameWords(Shape(Convert(loads, inputs))[i], values[i])
    ensures !caching ==> values == Shape(Convert(loads, inputs))
    ensures ReadSystem(r) == SystemSent(inputs) && ToolData(r.tools) == FunctionData(specs)
    ensures caching ==> EndsAreMarked(r, Shape(Convert(loads, inputs)))
    ensures caching && SystemMessage(inputs).Some? && SystemMessage(inputs).value.Plain?
            && SystemMessage(inputs).value.text != "" ==>
              r.system.Some? && EndsMarked(r.system.value)
    ensures !caching ==> forall t | t in r.tools :: !t.marked
  {
    hide Acceptable, Shape, Convert;
    ghost var shaped := Shape(Convert(loads, inputs));
    ShapeIsAcceptable(Convert(loads, inputs));
    var system, messages := Shaped(loads, history, inputs);
    var tools := ConvertTools(specs);
    r := new Request(tools, if system.Some? && NonEmpty(Read(system.value)) then system else None, messages);
    values := shaped;
    if caching {
      values := MarkRequest(r, shaped);
    }
  }

  /** The last tool and the last block of the last message carry a marker, if there is one. */
  ghost predicate EndsAreMarked(r: Request, values: seq<Msg>)
    requires |values| == |r.messages|
    reads r, r.tools, r.messages, if r.messages == [] then [] else Items(r.messages[|r.messages| - 1].content)
  {
    && (r.tools != [] ==> r.tools[|r.tools| - 1].marked)
    && (values != [] && NonEmpty(values[|values| - 1].content) ==> EndsMarked(r.messages[|values| - 1].content))
  }

  method MarkRequest(r: Request, ghost shaped: seq<Msg>) returns (ghost values: seq<Msg>)
    requires Distinct(r.messages) && Holds(r.messages, shaped) && Acceptable(shaped)
    modifies r`system, r.tools, r.messages
    ensures Holds(r.messages, values) && Acceptable(values) && ReadSystem(r) == old(ReadSystem(r))
    ensures |values| == |shaped| && forall i | 0 <= i < |values| :: SameWords(shaped[i], values[i])
    ensures r.messages == old(r.messages) && r.tools == old(r.tools)
    ensures EndsAreMarked(r, shaped)
    ensures old(r.system.Some? && r.system.value.PlainRef? && r.system.value.text != "") ==>
              r.system.Some? && EndsMarked(r.system.value)
  {
    hide Acceptable, NonEmpty;
    ghost var added := ApplyCacheControl(r);
    values := ReadAll(r.messages);
    forall i | 0 <= i < |r.messages| ensures SameWords(shaped[i], values[i]) {
      assert r.messages[i] in r.messages;
    }
    RewordingStaysAcceptable(shaped, values);
  }

  /** The four stages, one after the other. */
  method Shaped(loads: Loads, history: seq<CallerMessage>, ghost inputs: seq<Input>)
      returns (system: Option<ContentRef>, messages: seq<MessageObject>)
    requires Describes(history, inputs)
    ensures ReadOption(system) == SystemMessage(inputs)
    ensures forall j | 0 <= j < |messages| :: fresh(messages[j])
    ensures Distinct(messages) && Holds(messages, Shape(Convert(loads, inputs)))
  {
    ghost var values := Convert(loads, inputs);
    system, messages := ConvertMessages(loads, history, inputs);
    ghost var made := messages;
    messages := MergeMessages(messages, values);
    assert forall j | 0 <= j < |messages| :: fresh(messages[j]) by {
      assert forall j | 0 <= j < |messages| :: messages[j] in messages && messages[j] in made;
    }
    ghost var merged := messages;
    messages := RepairMessages(messages, Merge(values));
    assert forall j | 0 <= j < |messages| :: fresh(messages[j]) by {
      assert forall j | 0 <= j < |messages| :: messages[j] in messages;
    }
    ghost var repaired := messages;
    messages := PadMessages(messages, Repair(Merge(values)));
    assert forall j | 0 <= j < |messages| :: fresh(messages[j]) by {
      assert forall j | 0 <= j < |messages| :: messages[j] in messages;
    }
  }
}
