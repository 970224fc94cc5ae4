/** Turning an OpenAI-style history into a request the Anthropic API accepts: convert, merge, repair, pad. */
module Messages {
  import opened Strings

  datatype Role = User | Assistant

  datatype Content = Plain(text: string) | Blocks(blocks: seq<Block>)

  /** `Other` stands for images and any further block kind. */
  datatype Block =
    | Text(content: Content)
    | ToolUse(id: Option<string>, name: string, input: string)
    | ToolResult(toolUseId: Option<string>, content: Content)
    | Other(payload: string)

  datatype Msg = Msg(role: Role, content: Content)

  /** Arguments come as JSON text or as a value already parsed; parsed values are kept abstract. */
  datatype Arguments = Raw(text: string) | Parsed(value: string)

  datatype ToolCall = ToolCall(id: Option<string>, name: string, arguments: Arguments)

  /** A message of the caller's history, by role. */
  datatype Input =
    | System(content: Content)
    | Tool(callId: Option<string>, content: Content)
    | FromAssistant(said: Option<Content>, calls: seq<ToolCall>)
    | FromUser(said: Option<Content>)
    | OtherRole

  /** `json.loads`, or nothing when the text is not JSON. */
  type Loads = string -> Option<string>

  const INTERRUPTED := Plain("[Error: tool call was interrupted]")
  const OPENING := Msg(User, Plain("Continue the conversation."))
  const CLOSING := Msg(User, Plain("Continue."))

  predicate NonEmpty(c: Content) {
    match c case Plain(t) => t != "" case Blocks(bs) => bs != []
  }

  predicate Given(c: Option<Content>) { c.Some? && NonEmpty(c.value) }

  predicate ValidId(id: Option<string>) { id.Some? && id.value != "" }

  /** A string read as one text block. */
  function AsBlocks(c: Content): seq<Block> {
    match c case Plain(_) => [Text(c)] case Blocks(bs) => bs
  }

  // ---- Stage one: convert ----

  function ParseArguments(loads: Loads, a: Arguments): string {
    match a
    case Parsed(value) => value
    case Raw(text) => match loads(text) case Some(value) => value case None => "{}"
  }

  function ToolUses(loads: Loads, calls: seq<ToolCall>): seq<Block> {
    seq(|calls|, i requires 0 <= i < |calls| => ToolUse(calls[i].id, calls[i].name, ParseArguments(loads, calls[i].arguments)))
  }

  function ConvertOne(loads: Loads, m: Input): seq<Msg> {
    match m
    case System(_) => []
    case Tool(id, content) => if ValidId(id) then [Msg(User, Blocks([ToolResult(id, content)]))] else []
    case FromAssistant(said, calls) =>
      if calls != [] then [Msg(Assistant, Blocks((if Given(said) then [Text(said.value)] else []) + ToolUses(loads, calls)))]
      else if Given(said) then [Msg(Assistant, said.value)]
      else []
    case FromUser(said) => if Given(said) then [Msg(User, said.value)] else []
    case OtherRole => []
  }

  function Convert(loads: Loads, history: seq<Input>): seq<Msg> {
    if history == [] then []
    else Convert(loads, history[..|history| - 1]) + ConvertOne(loads, history[|history| - 1])
  }

  /** The last system message of the history. */
  function SystemMessage(history: seq<Input>): Option<Content> {
    if history == [] then None
    else if history[|history| - 1].System? then Some(history[|history| - 1].content)
    else SystemMessage(history[..|history| - 1])
  }

  // ---- Stage two: merge neighbours of one role ----

  function Joined(a: Msg, b: Msg): Msg {
    Msg(a.role, Blocks(AsBlocks(a.content) + AsBlocks(b.content)))
  }

  function MergeOne(merged: seq<Msg>, m: Msg): seq<Msg> {
    var last := |merged| - 1;
    if merged != [] && merged[last].role == m.role then merged[..last] + [Joined(merged[last], m)] else merged + [m]
  }

  function Merge(ms: seq<Msg>): seq<Msg> {
    if ms == [] then [] else MergeOne(Merge(ms[..|ms| - 1]), ms[|ms| - 1])
  }

  // ---- Stage three: give every tool use its result ----

  function UseIds(bs: seq<Block>): seq<string> {
    if bs == [] then []
    else (if bs[0].ToolUse? && ValidId(bs[0].id) then [bs[0].id.value] else []) + UseIds(bs[1..])
  }

  /** Tool uses of a message with a block list; a plain string has none. */
  function ToolUseIds(m: Msg): seq<string> {
    match m.content case Plain(_) => [] case Blocks(bs) => UseIds(bs)
  }

  predicate HasResult(m: Msg, id: string) {
    m.role == User && m.content.Blocks? &&
    exists i | 0 <= i < |m.content.blocks| :: m.content.blocks[i].ToolResult? && m.content.blocks[i].toolUseId == Some(id)
  }

  function Unanswered(ids: seq<string>, next: Option<Msg>): seq<string> {
    if ids == [] then []
    else (if next.Some? && HasResult(next.value, ids[0]) then [] else [ids[0]]) + Unanswered(ids[1..], next)
  }

  function Next(ms: seq<Msg>, i: nat): Option<Msg> {
    if i + 1 < |ms| then Some(ms[i + 1]) else None
  }

  /** The tool uses of message `i` that the message after it does not answer. */
  function Missing(ms: seq<Msg>, i: nat): seq<string>
    requires i < |ms|
  {
    if ms[i].role == Assistant then Unanswered(ToolUseIds(ms[i]), Next(ms, i)) else []
  }

  function Synthetic(ids: seq<string>): seq<Block> {
    seq(|ids|, i requires 0 <= i < |ids| => ToolResult(Some(ids[i]), INTERRUPTED))
  }

  /** Results put in front of message `i` for the message before it. */
  function Owed(ms: seq<Msg>, i: nat): seq<string>
    requires i < |ms|
  {
    if i > 0 && ms[i].role == User then Missing(ms, i - 1) else []
  }

  function RepairedAt(ms: seq<Msg>, i: nat): Msg
    requires i < |ms|
  {
    if Owed(ms, i) == [] then ms[i] else Msg(ms[i].role, Blocks(Synthetic(Owed(ms, i)) + AsBlocks(ms[i].content)))
  }

  /** A message of its own for the results of `i`, when no user message follows. */
  function InsertedAfter(ms: seq<Msg>, i: nat): seq<Msg>
    requires i < |ms|
  {
    if Missing(ms, i) == [] || (i + 1 < |ms| && ms[i + 1].role == User) then []
    else [Msg(User, Blocks(Synthetic(Missing(ms, i))))]
  }

  function RepairPrefix(ms: seq<Msg>, k: nat): seq<Msg>
    requires k <= |ms|
  {
    if k == 0 then [] else RepairPrefix(ms, k - 1) + [RepairedAt(ms, k - 1)] + InsertedAfter(ms, k - 1)
  }

  function Repair(ms: seq<Msg>): seq<Msg> { RepairPrefix(ms, |ms|) }

  // ---- Stage four: begin and end with the user ----

  function PadFront(ms: seq<Msg>): seq<Msg> {
    if ms != [] && ms[0].role != User then [OPENING] + ms else ms
  }

  function PadBack(ms: seq<Msg>): seq<Msg> {
    if ms != [] && ms[|ms| - 1].role != User then ms + [CLOSING] else ms
  }

  /** Everything after conversion. */
  function Shape(ms: seq<Msg>): seq<Msg> {
    PadBack(PadFront(Repair(Merge(ms))))
  }

  // ---- What the API asks of the turns and of the tool uses ----

  ghost predicate Alternates(ms: seq<Msg>) {
    forall i | 0 <= i < |ms| - 1 :: ms[i].role != ms[i + 1].role
  }

  /** The message right after a tool use is the user's and carries its result. */
  ghost predicate Paired(ms: seq<Msg>) {
    forall i, id | 0 <= i < |ms| && ms[i].role == Assistant && id in ToolUseIds(ms[i]) ::
      i + 1 < |ms| && HasResult(ms[i + 1], id)
  }

  /** Whether every result has its tool use is another matter, and depends on the history. */
  ghost predicate Acceptable(ms: seq<Msg>) {
    && Alternates(ms) && Paired(ms)
    && (ms != [] ==> ms[0].role == User && ms[|ms| - 1].role == User)
  }

  lemma {:induction false} MergeAlternates(ms: seq<Msg>)
    ensures Alternates(Merge(ms))
  {
    if ms != [] {
      MergeAlternates(ms[..|ms| - 1]);
    }
  }

  lemma {:induction false} MergeFixed(ms: seq<Msg>)
    requires Alternates(ms)
    ensures Merge(ms) == ms
  {
    if ms != [] {
      var last := |ms| - 1;
      assert Alternates(ms[..last]);
      MergeFixed(ms[..last]);
      if last > 0 {
        assert ms[last - 1].role != ms[last - 1 + 1].role;
      }
      assert ms == ms[..last] + [ms[last]];
    }
  }

  lemma {:induction false} UnansweredMeaning(ids: seq<string>, next: Option<Msg>, id: string)
    ensures id in Unanswered(ids, next) <==> id in ids && !(next.Some? && HasResult(next.value, id))
  {
    if ids != [] {
      UnansweredMeaning(ids[1..], next, id);
    }
  }

  /** The messages themselves, each with the results it owes in front. */
  function Body(ms: seq<Msg>, k: nat): seq<Msg>
    requires k <= |ms|
  {
    seq(k, i requires 0 <= i < k => RepairedAt(ms, i))
  }

  /** Results for the last message, when it is the assistant's. */
  function Tail(ms: seq<Msg>): seq<Msg> {
    if ms == [] then [] else InsertedAfter(ms, |ms| - 1)
  }

  lemma InsertsNothingInside(ms: seq<Msg>, i: nat)
    requires Alternates(ms) && i + 1 < |ms|
    ensures InsertedAfter(ms, i) == []
  {}

  lemma {:induction false} RepairPrefixShape(ms: seq<Msg>, k: nat)
    requires Alternates(ms) && k < |ms|
    ensures RepairPrefix(ms, k) == Body(ms, k)
  {
    hide RepairedAt, InsertedAfter;
    if k > 0 {
      RepairPrefixShape(ms, k - 1);
      InsertsNothingInside(ms, k - 1);
    }
  }

  /** What repairing an alternating list comes to: the same messages, some with results in front, and perhaps one at the end. */
  lemma RepairShape(ms: seq<Msg>)
    requires Alternates(ms)
    ensures Repair(ms) == Body(ms, |ms|) + Tail(ms)
  {
    hide RepairedAt, InsertedAfter;
    if ms != [] {
      RepairPrefixShape(ms, |ms| - 1);
      assert Body(ms, |ms|) == Body(ms, |ms| - 1) + [RepairedAt(ms, |ms| - 1)];
    }
  }

  lemma SyntheticAnswers(ids: seq<string>, rest: seq<Block>, id: string)
    requires id in ids
    ensures HasResult(Msg(User, Blocks(Synthetic(ids) + rest)), id)
  {
    var i :| 0 <= i < |ids| && ids[i] == id;
    assert (Synthetic(ids) + rest)[i] == ToolResult(Some(id), INTERRUPTED);
  }

  /** Results in front of a message hide none that it had. */
  lemma PrependKeepsResults(ids: seq<string>, m: Msg, id: string)
    requires HasResult(m, id)
    ensures HasResult(Msg(User, Blocks(Synthetic(ids) + AsBlocks(m.content))), id)
  {
    var bs := m.content.blocks;
    var i :| 0 <= i < |bs| && bs[i].ToolResult? && bs[i].toolUseId == Some(id);
    assert (Synthetic(ids) + bs)[|ids| + i] == bs[i];
  }

  lemma RepairAlternates(ms: seq<Msg>)
    requires Alternates(ms)
    ensures Alternates(Repair(ms))
    ensures ms != [] ==> Repair(ms) != [] && Repair(ms)[0].role == ms[0].role
    ensures ms == [] ==> Repair(ms) == []
  {
    var r := Repair(ms);
    RepairShape(ms);
    forall i | 0 <= i < |r| - 1 ensures r[i].role != r[i + 1].role {
      if i + 1 < |ms| {
        assert ms[i].role != ms[i + 1].role;
      }
    }
  }

  lemma RepairPairs(ms: seq<Msg>, i: nat, id: string)
    requires Alternates(ms) && i < |Repair(ms)| && Repair(ms)[i].role == Assistant && id in ToolUseIds(Repair(ms)[i])
    ensures i + 1 < |Repair(ms)| && HasResult(Repair(ms)[i + 1], id)
  {
    hide HasResult, Unanswered, Synthetic, UseIds, RepairPrefix;
    RepairShape(ms);
    assert Repair(ms)[i] == ms[i];
    UnansweredMeaning(ToolUseIds(ms[i]), Next(ms, i), id);
    if i + 1 < |ms| {
      assert ms[i].role != ms[i + 1].role;
      assert Owed(ms, i + 1) == Missing(ms, i);
      if id in Missing(ms, i) {
        SyntheticAnswers(Missing(ms, i), AsBlocks(ms[i + 1].content), id);
      } else {
        PrependKeepsResults(Missing(ms, i), ms[i + 1], id);
      }
    } else {
      SyntheticAnswers(Missing(ms, i), [], id);
      assert Synthetic(Missing(ms, i)) + [] == Synthetic(Missing(ms, i));
    }
  }

  /** For every history: what is sent starts and ends with the user, alternates, and answers every tool use at once. */
  lemma ShapeIsAcceptable(ms: seq<Msg>)
    ensures Acceptable(Shape(ms))
  {
    var merged := Merge(ms);
    var repaired := Repair(merged);
    MergeAlternates(ms);
    RepairAlternates(merged);
    forall i, id | 0 <= i < |repaired| && repaired[i].role == Assistant && id in ToolUseIds(repaired[i])
      ensures i + 1 < |repaired| && HasResult(repaired[i + 1], id)
    {
      RepairPairs(merged, i, id);
    }
    PaddingKeeps(repaired);
  }

  lemma PaddingKeeps(ms: seq<Msg>)
    requires Alternates(ms) && Paired(ms)
    ensures Acceptable(PadBack(PadFront(ms)))
  {}

  // ---- Doing it again changes nothing ----

  lemma {:induction false} NothingUnanswered(ids: seq<string>, next: Option<Msg>)
    requires forall id | id in ids :: next.Some? && HasResult(next.value, id)
    ensures Unanswered(ids, next) == []
  {
    if ids != [] {
      assert ids[0] in ids;
      NothingUnanswered(ids[1..], next);
    }
  }

  lemma RepairFixed(ms: seq<Msg>)
    requires Alternates(ms) && Paired(ms)
    ensures Repair(ms) == ms
  {
    RepairShape(ms);
    forall i | 0 <= i < |ms| ensures Missing(ms, i) == [] {
      if ms[i].role == Assistant {
        NothingUnanswered(ToolUseIds(ms[i]), Next(ms, i));
      }
    }
    assert Body(ms, |ms|) == ms;
  }

  lemma ShapeFixed(ms: seq<Msg>)
    requires Acceptable(ms)
    ensures Shape(ms) == ms
  {
    MergeFixed(ms);
    RepairFixed(ms);
  }

  lemma ShapeIdempotent(ms: seq<Msg>)
    ensures Shape(Shape(ms)) == Shape(ms)
  {
    ShapeIsAcceptable(ms);
    ShapeFixed(Shape(ms));
  }

  // ---- Nothing is lost, nothing is reordered ----

  datatype Said = Said(role: Role, block: Block)

  function SaidBy(role: Role, bs: seq<Block>): seq<Said> {
    seq(|bs|, i requires 0 <= i < |bs| => Said(role, bs[i]))
  }

  /** The conversation as one stream of blocks, each with its speaker. */
  function Flat(ms: seq<Msg>): seq<Said> {
    if ms == [] then []
    else Flat(ms[..|ms| - 1]) + SaidBy(ms[|ms| - 1].role, AsBlocks(ms[|ms| - 1].content))
  }

  /** The stream of `ms` without the first `drops[i]` blocks of each message. */
  function FlatWithout(ms: seq<Msg>, drops: seq<nat>): seq<Said>
    requires |drops| == |ms| && forall i | 0 <= i < |ms| :: drops[i] <= |AsBlocks(ms[i].content)|
  {
    if ms == [] then []
    else
      var last := |ms| - 1;
      FlatWithout(ms[..last], drops[..last]) + SaidBy(ms[last].role, AsBlocks(ms[last].content)[drops[last]..])
  }

  /** Only synthetic results and the two filler messages. */
  predicate Invented(b: Block) {
    || (b.ToolResult? && b.content == INTERRUPTED)
    || b == Text(OPENING.content) || b == Text(CLOSING.content)
  }

  lemma SaidByConcat(role: Role, a: seq<Block>, b: seq<Block>)
    ensures SaidBy(role, a + b) == SaidBy(role, a) + SaidBy(role, b)
  {}

  lemma FlatSnoc(ms: seq<Msg>, m: Msg)
    ensures Flat(ms + [m]) == Flat(ms) + SaidBy(m.role, AsBlocks(m.content))
  {}

  lemma MergeOneKeepsContent(merged: seq<Msg>, m: Msg)
    ensures Flat(MergeOne(merged, m)) == Flat(merged) + SaidBy(m.role, AsBlocks(m.content))
  {
    hide SaidBy;
    var last := |merged| - 1;
    if merged != [] && merged[last].role == m.role {
      FlatSnoc(merged[..last], Joined(merged[last], m));
      SaidByConcat(m.role, AsBlocks(merged[last].content), AsBlocks(m.content));
    } else {
      FlatSnoc(merged, m);
    }
  }

  lemma {:induction false} MergeKeepsContent(ms: seq<Msg>)
    ensures Flat(Merge(ms)) == Flat(ms)
  {
    if ms != [] {
      MergeKeepsContent(ms[..|ms| - 1]);
      MergeOneKeepsContent(Merge(ms[..|ms| - 1]), ms[|ms| - 1]);
    }
  }

  /** Dropping `drops[i]` leading blocks of each message drops only invented blocks and leaves the stream `said`. */
  ghost predicate Strips(ms: seq<Msg>, drops: seq<nat>, said: seq<Said>) {
    && |drops| == |ms|
    && (forall i | 0 <= i < |ms| :: drops[i] <= |AsBlocks(ms[i].content)|)
    && (forall i, j | 0 <= i < |ms| && 0 <= j < drops[i] :: Invented(AsBlocks(ms[i].content)[j]))
    && FlatWithout(ms, drops) == said
  }

  lemma StripsOne(ms: seq<Msg>, drops: seq<nat>, said: seq<Said>, m: Msg, n: nat)
    requires Strips(ms, drops, said) && n <= |AsBlocks(m.content)|
    requires forall j | 0 <= j < n :: Invented(AsBlocks(m.content)[j])
    ensures Strips(ms + [m], drops + [n], said + SaidBy(m.role, AsBlocks(m.content)[n..]))
  {}

  /** A message that is invented altogether leaves no trace. */
  lemma StripsAll(ms: seq<Msg>, drops: seq<nat>, said: seq<Said>, m: Msg) returns (more: seq<nat>)
    requires Strips(ms, drops, said) && forall b | b in AsBlocks(m.content) :: Invented(b)
    ensures Strips(ms + [m], more, said)
  {
    var n := |AsBlocks(m.content)|;
    StripsOne(ms, drops, said, m, n);
    more := drops + [n];
    assert said + SaidBy(m.role, AsBlocks(m.content)[n..]) == said;
  }

  /** The results a message owes stand in front of its own blocks. */
  lemma RepairedBlocks(ms: seq<Msg>, i: nat)
    requires i < |ms|
    ensures RepairedAt(ms, i).role == ms[i].role
    ensures var owed, bs := Synthetic(Owed(ms, i)), AsBlocks(RepairedAt(ms, i).content);
            && |owed| == |Owed(ms, i)| <= |bs| && bs[|owed|..] == AsBlocks(ms[i].content) && bs == owed + AsBlocks(ms[i].content)
            && forall j | 0 <= j < |owed| :: Invented(bs[j])
  {
    hide Owed;
  }

  lemma {:induction false} StripsBody(start: seq<Msg>, drops: seq<nat>, ms: seq<Msg>, k: nat) returns (more: seq<nat>)
    requires Strips(start, drops, []) && k <= |ms|
    ensures Strips(start + Body(ms, k), more, Flat(ms[..k]))
  {
    hide Strips, SaidBy, Owed, RepairedAt, AsBlocks, Synthetic, Invented;
    if k == 0 {
      more := drops;
      assert start + Body(ms, 0) == start;
    } else {
      more := StripsBody(start, drops, ms, k - 1);
      var m, owed := RepairedAt(ms, k - 1), Owed(ms, k - 1);
      RepairedBlocks(ms, k - 1);
      StripsOne(start + Body(ms, k - 1), more, Flat(ms[..k - 1]), m, |owed|);
      more := more + [|owed|];
      assert start + Body(ms, k) == start + Body(ms, k - 1) + [m];
      assert ms[..k] == ms[..k - 1] + [ms[k - 1]];
      FlatSnoc(ms[..k - 1], ms[k - 1]);
    }
  }

  lemma StripsRepair(start: seq<Msg>, drops: seq<nat>, ms: seq<Msg>) returns (more: seq<nat>)
    requires Strips(start, drops, []) && Alternates(ms)
    ensures Strips(start + Repair(ms), more, Flat(ms))
  {
    hide Strips, Flat, Repair;
    RepairShape(ms);
    more := StripsBody(start, drops, ms, |ms|);
    assert ms[..|ms|] == ms;
    if Tail(ms) == [] {
      assert start + Repair(ms) == start + Body(ms, |ms|);
    } else {
      more := StripsAll(start + Body(ms, |ms|), more, Flat(ms), Tail(ms)[0]);
      assert start + Repair(ms) == start + Body(ms, |ms|) + [Tail(ms)[0]];
    }
  }

  /** Deleting what was invented gives back the converted history, block for block and in order. */
  lemma ContentPreserved(ms: seq<Msg>) returns (drops: seq<nat>)
    ensures Strips(Shape(ms), drops, Flat(ms))
  {
    hide Repair, Merge, FlatWithout;
    var repaired := Repair(Merge(ms));
    MergeAlternates(ms);
    MergeKeepsContent(ms);
    drops := [];
    assert FlatWithout([], []) == [] by { EmptyStream(); }
    if repaired != [] && repaired[0].role != User {
      drops := StripsAll([], [], [], OPENING);
      drops := StripsRepair([] + [OPENING], drops, Merge(ms));
      assert PadFront(repaired) == [] + [OPENING] + repaired;
    } else {
      drops := StripsRepair([], [], Merge(ms));
      assert PadFront(repaired) == [] + repaired;
    }
    if Shape(ms) != PadFront(repaired) {
      drops := StripsAll(PadFront(repaired), drops, Flat(ms), CLOSING);
    }
  }

  lemma EmptyStream()
    ensures FlatWithout([], []) == []
  {}

  // ---- From the caller's history to what is sent ----

  /** What one message of the history contributes is in the stream of the converted list. */
  lemma {:induction false} ConvertedSays(loads: Loads, history: seq<Input>, m: Input, said: Said)
    requires m in history && said in Flat(ConvertOne(loads, m))
    ensures said in Flat(Convert(loads, history))
  {
    hide ConvertOne;
    var last := |history| - 1;
    FlatAppend(Convert(loads, history[..last]), ConvertOne(loads, history[last]));
    if m != history[last] {
      assert m in history[..last];
      ConvertedSays(loads, history[..last], m, said);
    }
  }

  lemma {:induction false} FlatAppend(a: seq<Msg>, b: seq<Msg>)
    ensures Flat(a + b) == Flat(a) + Flat(b)
  {
    hide SaidBy, AsBlocks;
    if b == [] {
      assert a + b == a;
    } else {
      var last := |b| - 1;
      FlatAppend(a, b[..last]);
      assert (a + b)[..|a + b| - 1] == a + b[..last];
    }
  }

  /** Whatever is left of a stripped list is a block of one of its messages. */
  lemma {:induction false} StrippedIsThere(ms: seq<Msg>, drops: seq<nat>, said: Said) returns (i: nat)
    requires |drops| == |ms| && forall j | 0 <= j < |ms| :: drops[j] <= |AsBlocks(ms[j].content)|
    requires said in FlatWithout(ms, drops)
    ensures i < |ms| && ms[i].role == said.role && said.block in AsBlocks(ms[i].content)
  {
    var last := |ms| - 1;
    if said in FlatWithout(ms[..last], drops[..last]) {
      i := StrippedIsThere(ms[..last], drops[..last], said);
    } else {
      i := last;
      assert said in SaidBy(ms[last].role, AsBlocks(ms[last].content)[drops[last]..]);
    }
  }

  lemma SentSays(loads: Loads, history: seq<Input>, m: Input, said: Said) returns (i: nat)
    requires m in history && said in Flat(ConvertOne(loads, m))
    ensures var out := Shape(Convert(loads, history));
            i < |out| && out[i].role == said.role && said.block in AsBlocks(out[i].content)
  {
    hide ConvertOne, Convert, Shape;
    ConvertedSays(loads, history, m, said);
    var drops := ContentPreserved(Convert(loads, history));
    i := StrippedIsThere(Shape(Convert(loads, history)), drops, said);
  }

  /** Every result of the history with an id is sent, word for word, by the user. */
  lemma ResultIsSent(loads: Loads, history: seq<Input>, id: string, content: Content) returns (i: nat)
    requires Tool(Some(id), content) in history && id != ""
    ensures var out := Shape(Convert(loads, history));
            i < |out| && out[i].role == User && ToolResult(Some(id), content) in AsBlocks(out[i].content)
  {
    var m := Tool(Some(id), content);
    var block := ToolResult(Some(id), content);
    BlockIsSaid(User, [block], 0);
    i := SentSays(loads, history, m, Said(User, block));
  }

  /** Every tool call of the history is sent by the assistant and, if it has an id, answered in the very next message. */
  lemma CallIsSentAndAnswered(loads: Loads, history: seq<Input>, said: Option<Content>, calls: seq<ToolCall>, k: nat) returns (i: nat)
    requires FromAssistant(said, calls) in history && k < |calls|
    ensures var out := Shape(Convert(loads, history));
            && i < |out| && out[i].role == Assistant
            && ToolUse(calls[k].id, calls[k].name, ParseArguments(loads, calls[k].arguments)) in AsBlocks(out[i].content)
            && (calls[k].id != None && calls[k].id != Some("") ==>
                  && i + 1 < |out| && out[i + 1].role == User
                  && exists content :: ToolResult(calls[k].id, content) in AsBlocks(out[i + 1].content))
  {
    var use := ToolUse(calls[k].id, calls[k].name, ParseArguments(loads, calls[k].arguments));
    CallIsConverted(loads, said, calls, k);
    hide ConvertOne, Convert, Shape, HasResult;
    i := SentSays(loads, history, FromAssistant(said, calls), Said(Assistant, use));
    var out := Shape(Convert(loads, history));
    ShapeIsAcceptable(Convert(loads, history));
    if ValidId(calls[k].id) {
      UseIsListed(AsBlocks(out[i].content), use);
      assert calls[k].id.value in ToolUseIds(out[i]);
      ResultIsBlock(out[i + 1], calls[k].id.value);
    }
  }

  lemma ResultIsBlock(m: Msg, id: string)
    requires HasResult(m, id)
    ensures m.role == User && exists content :: ToolResult(Some(id), content) in AsBlocks(m.content)
  {
    var i :| 0 <= i < |m.content.blocks| && m.content.blocks[i].ToolResult? && m.content.blocks[i].toolUseId == Some(id);
    assert ToolResult(Some(id), m.content.blocks[i].content) in AsBlocks(m.content);
  }

  lemma CallIsConverted(loads: Loads, said: Option<Content>, calls: seq<ToolCall>, k: nat)
    requires k < |calls|
    ensures Said(Assistant, ToolUse(calls[k].id, calls[k].name, ParseArguments(loads, calls[k].arguments)))
         in Flat(ConvertOne(loads, FromAssistant(said, calls)))
  {
    var uses := ToolUses(loads, calls);
    var items := (if Given(said) then [Text(said.value)] else []) + uses;
    var at := |items| - |uses| + k;
    assert items[at] == uses[k];
    hide ToolUses, Given;
    BlockIsSaid(Assistant, items, at);
  }

  lemma BlockIsSaid(role: Role, items: seq<Block>, at: nat)
    requires at < |items|
    ensures Said(role, items[at]) in Flat([Msg(role, Blocks(items))])
  {
    FlatSnoc([], Msg(role, Blocks(items)));
    assert [] + [Msg(role, Blocks(items))] == [Msg(role, Blocks(items))];
    assert SaidBy(role, items)[at] == Said(role, items[at]);
  }

  lemma {:induction false} UseIsListed(bs: seq<Block>, use: Block)
    requires use in bs && use.ToolUse? && ValidId(use.id)
    ensures use.id.value in UseIds(bs)
  {
    if bs[0] != use {
      UseIsListed(bs[1..], use);
    }
  }
}
