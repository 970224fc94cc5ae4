/** From the caller's history to what is sent: everything said is there, in order, with nothing but fillers in between. */
module MessageHistory {
  import opened Strings
  import opened Messages
  import ToolResults

  // ---- Where the blocks of a list of messages stand ----

  /** Block `j` of message `i`. A string counts as one block. */
  datatype Place = Place(i: nat, j: nat)
  {
    predicate Before(other: Place) { i < other.i || (i == other.i && j < other.j) }

    predicate In(ms: seq<Msg>) { i < |ms| && j < |AsBlocks(ms[i].content)| }

    predicate Says(ms: seq<Msg>, said: Said) {
      In(ms) && ms[i].role == said.role && AsBlocks(ms[i].content)[j] == said.block
    }
  }

  /** The stream stands in the messages at these places, which ascend; the first `drops[i]` blocks of a message are not in it. */
  ghost predicate Placed(ms: seq<Msg>, drops: seq<nat>, said: seq<Said>, at: seq<Place>) {
    && |drops| == |ms| && |at| == |said|
    && (forall k | 0 <= k < |at| :: at[k].Says(ms, said[k]))
    && Ascending(at)
    && forall p: Place | p.In(ms) && p !in at :: p.j < drops[p.i]
  }

  ghost predicate Ascending(at: seq<Place>) {
    forall k, l | 0 <= k < l < |at| :: at[k].Before(at[l])
  }

  function Row(i: nat, from: nat, n: nat): seq<Place> {
    seq(n, k requires 0 <= k < n => Place(i, from + k))
  }

  lemma PlacedSnoc(ms: seq<Msg>, drops: seq<nat>, said: seq<Said>, at: seq<Place>, m: Msg, n: nat)
    requires Placed(ms, drops, said, at) && n <= |AsBlocks(m.content)|
    ensures Placed(ms + [m], drops + [n], said + SaidBy(m.role, AsBlocks(m.content)[n..]),
                   at + Row(|ms|, n, |AsBlocks(m.content)| - n))
  {
    hide AsBlocks;
    var row := Row(|ms|, n, |AsBlocks(m.content)| - n);
    forall k | 0 <= k < |at| ensures at[k].In(ms) && at[k].Says(ms + [m], said[k]) {}
    forall j: nat | n <= j < |AsBlocks(m.content)| ensures Place(|ms|, j) in row {
      assert row[j - n] == Place(|ms|, j);
    }
    forall p: Place | p.In(ms + [m]) && p.i < |ms| ensures p.In(ms) {}
  }

  lemma EmptyPlaced()
    ensures Placed([], [], [], [])
  {}

  lemma {:induction false} PlacesOf(ms: seq<Msg>, drops: seq<nat>) returns (at: seq<Place>)
    requires |drops| == |ms| && forall i | 0 <= i < |ms| :: drops[i] <= |AsBlocks(ms[i].content)|
    ensures Placed(ms, drops, FlatWithout(ms, drops), at)
  {
    hide AsBlocks, Placed;
    if ms == [] {
      at := [];
      EmptyPlaced();
      assert drops == [];
    } else {
      var last := |ms| - 1;
      at := PlacesOf(ms[..last], drops[..last]);
      PlacedSnoc(ms[..last], drops[..last], FlatWithout(ms[..last], drops[..last]), at, ms[last], drops[last]);
      at := at + Row(last, drops[last], |AsBlocks(ms[last].content)| - drops[last]);
      assert ms[..last] + [ms[last]] == ms && drops[..last] + [drops[last]] == drops;
    }
  }

  // ---- What a message of the history says, in blocks ----

  ghost predicate Blank(said: Option<Content>) {
    said == None || said == Some(Plain("")) || said == Some(Blocks([]))
  }

  /** Text is one block, a list of blocks is itself. */
  ghost predicate Spoken(said: Option<Content>, bs: seq<Block>) {
    if Blank(said) then bs == []
    else match said.value case Plain(_) => bs == [Text(said.value)] case Blocks(list) => bs == list
  }

  /** Arguments in JSON text are read; what cannot be read becomes an empty object. */
  ghost predicate Means(loads: Loads, a: Arguments, input: string) {
    match a
    case Parsed(value) => input == value
    case Raw(text) => match loads(text) case Some(value) => input == value case None => input == "{}"
  }

  ghost predicate Uses(loads: Loads, call: ToolCall, b: Block) {
    b.ToolUse? && b.id == call.id && b.name == call.name && Means(loads, call.arguments, b.input)
  }

  /** The words of an assistant that calls tools, in one block, and then a block for each call. */
  ghost predicate SpokenWithCalls(loads: Loads, said: Option<Content>, calls: seq<ToolCall>, bs: seq<Block>) {
    var first := if Blank(said) then 0 else 1;
    && |bs| == first + |calls|
    && (first == 1 ==> bs[0] == Text(said.value))
    && forall k | 0 <= k < |calls| :: Uses(loads, calls[k], bs[first + k])
  }

  ghost predicate Speech(loads: Loads, m: Input, role: Role, bs: seq<Block>) {
    match m
    case System(_) => bs == []
    case Tool(id, content) =>
      if id == None || id == Some("") then bs == [] else role == User && bs == [ToolResult(id, content)]
    case FromAssistant(said, calls) =>
      role == Assistant && if calls == [] then Spoken(said, bs) else SpokenWithCalls(loads, said, calls, bs)
    case FromUser(said) => role == User && Spoken(said, bs)
    case OtherRole => bs == []
  }

  lemma ConvertOneSpeech(loads: Loads, m: Input)
    ensures var ms := ConvertOne(loads, m);
            if ms == [] then Speech(loads, m, if m.FromAssistant? then Assistant else User, [])
            else |ms| == 1 && Speech(loads, m, ms[0].role, AsBlocks(ms[0].content))
  {}

  lemma ConvertOneSays(loads: Loads, m: Input) returns (role: Role, bs: seq<Block>)
    ensures Speech(loads, m, role, bs) && Flat(ConvertOne(loads, m)) == SaidBy(role, bs)
  {
    hide SaidBy, ConvertOne, Speech, AsBlocks;
    var ms := ConvertOne(loads, m);
    ConvertOneSpeech(loads, m);
    if ms == [] {
      role, bs := if m.FromAssistant? then Assistant else User, [];
      NothingSaid(role);
    } else {
      role, bs := ms[0].role, AsBlocks(ms[0].content);
      assert ms == [] + [ms[0]];
      FlatSnoc([], ms[0]);
      assert Flat([]) + SaidBy(role, bs) == SaidBy(role, bs);
    }
  }

  lemma NothingSaid(role: Role)
    ensures SaidBy(role, []) == []
  {}

  /** What message `a` contributes comes after what those before it contribute. */
  lemma {:induction false} ConvertedInOrder(loads: Loads, history: seq<Input>, a: nat)
    requires a < |history|
    ensures Flat(Convert(loads, history[..a + 1])) == Flat(Convert(loads, history[..a])) + Flat(ConvertOne(loads, history[a]))
    ensures Flat(Convert(loads, history[..a + 1])) <= Flat(Convert(loads, history))
  {
    hide ConvertOne, Flat;
    assert history[..a + 1][..a] == history[..a];
    FlatAppend(Convert(loads, history[..a]), ConvertOne(loads, history[a]));
    if a + 1 == |history| {
      assert history[..a + 1] == history;
    } else {
      var last := |history| - 1;
      ConvertedInOrder(loads, history[..last], a);
      assert history[..last][..a + 1] == history[..a + 1] && history[..last][..a] == history[..a];
      FlatAppend(Convert(loads, history[..last]), ConvertOne(loads, history[last]));
    }
  }

  /** The places from `from` to `to` hold, block for block, what the message says, in messages of its speaker. */
  ghost predicate Uttered(loads: Loads, m: Input, ms: seq<Msg>, at: seq<Place>, from: nat, to: nat) {
    from <= to <= |at| && exists role, bs :: Speech(loads, m, role, bs) && Stands(ms, at, from, to, role, bs)
  }

  ghost predicate Stands(ms: seq<Msg>, at: seq<Place>, from: nat, to: nat, role: Role, bs: seq<Block>)
    requires from <= to <= |at|
  {
    |bs| == to - from && forall k | 0 <= k < |bs| :: at[from + k].Says(ms, Said(role, bs[k]))
  }

  /** The user's words that nobody said. */
  ghost predicate Filler(b: Block) {
    || (b.ToolResult? && b.content == Plain("[Error: tool call was interrupted]"))
    || b == Text(Plain("Continue the conversation."))
    || b == Text(Plain("Continue."))
  }

  function Starts(loads: Loads, history: seq<Input>): seq<nat> {
    seq(|history| + 1, a requires 0 <= a <= |history| => |Flat(Convert(loads, history[..a]))|)
  }

  lemma UtteredAt(loads: Loads, history: seq<Input>, a: nat, ms: seq<Msg>, drops: seq<nat>, at: seq<Place>)
    requires a < |history| && Placed(ms, drops, Flat(Convert(loads, history)), at)
    ensures Uttered(loads, history[a], ms, at, |Flat(Convert(loads, history[..a]))|, |Flat(Convert(loads, history[..a + 1]))|)
  {
    hide Speech, Flat, Convert, ConvertOne, Place.Says;
    var said, before := Flat(Convert(loads, history)), Flat(Convert(loads, history[..a]));
    var role, bs := ConvertOneSays(loads, history[a]);
    ConvertedInOrder(loads, history, a);
    forall k | 0 <= k < |bs| ensures said[|before| + k] == Said(role, bs[k]) {
      assert SaidBy(role, bs)[k] == Said(role, bs[k]);
    }
    assert Stands(ms, at, |before|, |before| + |bs|, role, bs);
  }

  /** The history is sent: what its messages say stands at ascending places, message after message, and at the other places
      are only fillers. */
  lemma HistoryIsSent(loads: Loads, history: seq<Input>) returns (at: seq<Place>, start: seq<nat>)
    ensures Ascending(at)
    ensures |start| == |history| + 1 && start[0] == 0 && start[|history|] == |at|
    ensures forall a | 0 <= a < |history| ::
              Uttered(loads, history[a], Shape(Convert(loads, history)), at, start[a], start[a + 1])
    ensures forall p: Place | p.In(Shape(Convert(loads, history))) && p !in at ::
              Filler(AsBlocks(Shape(Convert(loads, history))[p.i].content)[p.j])
  {
    hide Shape, Uttered, Flat;
    var out := Shape(Convert(loads, history));
    var drops := ContentPreserved(Convert(loads, history));
    at := PlacesOf(out, drops);
    start := Starts(loads, history);
    assert history[..|history|] == history;
    assert Flat([]) == [] by { NothingFlat(); }
    forall a | 0 <= a < |history| ensures Uttered(loads, history[a], out, at, start[a], start[a + 1]) {
      UtteredAt(loads, history, a, out, drops, at);
    }
  }

  lemma NothingFlat()
    ensures Flat([]) == []
  {}

  // ---- What is added ----

  lemma {:induction false} MergeFirst(ms: seq<Msg>)
    requires ms != []
    ensures Merge(ms) != [] && Merge(ms)[0].role == ms[0].role
  {
    if |ms| > 1 {
      MergeFirst(ms[..|ms| - 1]);
    }
  }

  /** A conversation the assistant opens gets one message in front, one it would close gets one behind, and no other does. */
  lemma PaddedExactly(ms: seq<Msg>)
    ensures var repaired := Repair(Merge(ms));
            var front := if ms != [] && ms[0].role == Assistant then [Msg(User, Plain("Continue the conversation."))] else [];
            var back := if repaired != [] && repaired[|repaired| - 1].role == Assistant then [Msg(User, Plain("Continue."))] else [];
            Shape(ms) == front + repaired + back
  {
    hide Merge, Repair, PadFront, PadBack, Alternates;
    MergeAlternates(ms);
    RepairAlternates(Merge(ms));
    if ms == [] {
      NothingMerged();
      assert Repair(Merge(ms)) == [];
    } else {
      MergeFirst(ms);
    }
    PadsExactly(Repair(Merge(ms)));
  }

  lemma PadsExactly(ms: seq<Msg>)
    ensures var front := if ms != [] && ms[0].role == Assistant then [Msg(User, Plain("Continue the conversation."))] else [];
            var back := if ms != [] && ms[|ms| - 1].role == Assistant then [Msg(User, Plain("Continue."))] else [];
            PadBack(PadFront(ms)) == front + ms + back
  {}

  lemma NothingMerged()
    ensures Merge([]) == []
  {}

  /** The ids a block list asks results for: block by block, those of its tool uses but the missing and the empty ones. */
  lemma UseIdsExactly(a: seq<Block>, b: Block)
    ensures UseIds([]) == [] && UseIds(a + [b]) == UseIds(a) + UseIds([b])
    ensures UseIds([b]) == if b.ToolUse? && b.id != None && b.id != Some("") then [b.id.value] else []
  {
    ToolResults.UsesConcat(a, [b]);
  }

  /** The ids that stay unanswered: one by one, those the next message has no result for. */
  lemma {:induction false} UnansweredExactly(a: seq<string>, id: string, next: Option<Msg>)
    ensures Unanswered([], next) == [] && Unanswered(a + [id], next) == Unanswered(a, next) + Unanswered([id], next)
    ensures Unanswered([id], next) == if next.Some? && Answers(next.value, id) then [] else [id]
  {
    hide HasResult, Answers;
    if next.Some? {
      AnswersExactly(next.value, id);
    }
    if a != [] {
      UnansweredExactly(a[1..], id, next);
      assert (a + [id])[1..] == a[1..] + [id];
    }
  }

  lemma AnswersExactly(m: Msg, id: string)
    ensures HasResult(m, id) <==> Answers(m, id)
  {
    if HasResult(m, id) {
      var i :| 0 <= i < |m.content.blocks| && m.content.blocks[i].ToolResult? && m.content.blocks[i].toolUseId == Some(id);
      assert ResultFor(m.content.blocks[i], id);
    }
  }

  /** A user message with a result of that id among its blocks. */
  ghost predicate Answers(m: Msg, id: string) {
    m.role == User && m.content.Blocks? && exists b | b in m.content.blocks :: ResultFor(b, id)
  }

  predicate ResultFor(b: Block, id: string) { b.ToolResult? && b.toolUseId == Some(id) }

  /** A result for each id, in order, saying that the call was interrupted. */
  ghost predicate Interrupted(ids: seq<string>, bs: seq<Block>) {
    |bs| == |ids| && forall k | 0 <= k < |ids| :: bs[k] == ToolResult(Some(ids[k]), Plain("[Error: tool call was interrupted]"))
  }

  /** Repairing puts in front of a user's message a result for each call before it that the message leaves unanswered; a message
      with nothing to add stays as it is. */
  lemma RepairedExactly(ms: seq<Msg>, i: nat) returns (results: seq<Block>)
    requires Alternates(ms) && i < |ms|
    ensures |ms| <= |Repair(ms)|
    ensures i > 0 && ms[i].role == User ==> Interrupted(Unanswered(ToolUseIds(ms[i - 1]), Some(ms[i])), results)
    ensures i == 0 || ms[i].role == Assistant ==> results == []
    ensures Repair(ms)[i].role == ms[i].role && AsBlocks(Repair(ms)[i].content) == results + AsBlocks(ms[i].content)
    ensures results == [] ==> Repair(ms)[i] == ms[i]
  {
    hide Unanswered, ToolUseIds, RepairPrefix;
    RepairShape(ms);
    results := Synthetic(Owed(ms, i));
    assert Repair(ms)[i] == RepairedAt(ms, i);
    if i > 0 {
      assert ms[i - 1].role != ms[i - 1 + 1].role;
    }
  }

  /** Calls of a last message get one message more, with their results. */
  lemma RepairedEnd(ms: seq<Msg>) returns (results: seq<Block>)
    requires Alternates(ms) && ms != []
    ensures ms[|ms| - 1].role == Assistant ==> Interrupted(Unanswered(ToolUseIds(ms[|ms| - 1]), None), results)
    ensures ms[|ms| - 1].role == User ==> results == []
    ensures |Repair(ms)| == |ms| + if results == [] then 0 else 1
    ensures results != [] ==> Repair(ms)[|ms|] == Msg(User, Blocks(results))
  {
    hide Unanswered, ToolUseIds, RepairPrefix;
    RepairShape(ms);
    results := Synthetic(Missing(ms, |ms| - 1));
  }

  /** Neighbours of one role become one message with the blocks of both, in order; a message whose neighbours are of the other
      role stays as it is. */
  lemma MergedExactly(ms: seq<Msg>, m: Msg)
    ensures ms != [] && ms[|ms| - 1].role == m.role ==>
              && |Merge(ms + [m])| == |Merge(ms)| && Merge(ms + [m])[..|Merge(ms)| - 1] == Merge(ms)[..|Merge(ms)| - 1]
              && Merge(ms + [m])[|Merge(ms)| - 1]
                 == Msg(m.role, Blocks(AsBlocks(Merge(ms)[|Merge(ms)| - 1].content) + AsBlocks(m.content)))
    ensures ms == [] || ms[|ms| - 1].role != m.role ==> Merge(ms + [m]) == Merge(ms) + [m]
  {
    hide AsBlocks;
    assert (ms + [m])[..|ms|] == ms;
    if ms != [] {
      MergeLast(ms);
    }
  }

  lemma {:induction false} MergeLast(ms: seq<Msg>)
    requires ms != []
    ensures Merge(ms) != [] && Merge(ms)[|Merge(ms)| - 1].role == ms[|ms| - 1].role
  {}

  /** The system prompt is the last system message of the history, if there is one. */
  lemma {:induction false} SystemMessageExactly(history: seq<Input>)
    ensures forall a: nat :: LastSystem(history, a) ==> SystemMessage(history) == Some(history[a].content)
    ensures SystemMessage(history) == None <==> forall a | 0 <= a < |history| :: !history[a].System?
  {
    if history != [] {
      var last := |history| - 1;
      SystemMessageExactly(history[..last]);
      if !history[last].System? {
        forall a: nat ensures LastSystem(history, a) <==> LastSystem(history[..last], a) {}
      }
    }
  }

  predicate LastSystem(history: seq<Input>, a: nat) {
    a < |history| && history[a].System? && forall b | a < b < |history| :: !history[b].System?
  }
}
