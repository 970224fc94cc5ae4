/** The streaming accumulator: one chunk out for every event in, agreeing with what it accumulates. */
module AnthropicStream {
  import opened Strings

  /** Token counts reported by an event; absent and null counts are None. */
  datatype StartUsage = StartUsage(input: Option<int>, output: Option<int>, cacheRead: Option<int>, cacheWrite: Option<int>)

  datatype DeltaUsage = DeltaUsage(output: Option<int>, input: Option<int>)

  datatype Event =
    | MessageStart(startUsage: Option<StartUsage>)
    | ToolStart(index: int, id: Option<string>, name: string)
    | OtherStart(index: int)
    | TextDelta(index: int, text: string)
    | JsonDelta(index: int, json: string)
    | OtherDelta(index: int)
    | BlockStop(index: int)
    | MessageDelta(stopReason: Option<string>, deltaUsage: Option<DeltaUsage>)
    | MessageStop
    | OtherEvent

  datatype Call = Call(id: string, name: string, arguments: string)

  /** The one-element `tool_calls` list of a chunk. */
  datatype ToolChunk = ToolChunk(index: int, call: Call)

  datatype Usage = Usage(prompt: int, completion: int, total: int, cacheRead: int, cacheWrite: int)

  datatype Chunk = Chunk(content: Option<string>, tool: Option<ToolChunk>, finish: Option<string>, usage: Option<Usage>)

  function OrZero(n: Option<int>): int {
    match n case None => 0 case Some(v) => v
  }

  /** Fallback ids are made from the block index; their rendering is a parameter. */
  type FallbackId = int -> string

  function CallId(fallback: FallbackId, index: int, id: Option<string>): string {
    if id.Some? && id.value != "" then id.value else fallback(index)
  }

  // ---- What a stream of events says ----

  function TextOf(events: seq<Event>): string {
    if events == [] then ""
    else
      var last := events[|events| - 1];
      TextOf(events[..|events| - 1]) + if last.TextDelta? then last.text else ""
  }

  predicate Started(events: seq<Event>, index: int) {
    exists k | 0 <= k < |events| :: events[k].ToolStart? && events[k].index == index
  }

  predicate Stopped(events: seq<Event>, index: int) {
    exists k | 0 <= k < |events| :: events[k].BlockStop? && events[k].index == index
  }

  /** All argument text for one block index, from its first tool start on. */
  function AllJson(events: seq<Event>, index: int): string {
    if events == [] then ""
    else
      var last, before := events[|events| - 1], events[..|events| - 1];
      AllJson(before, index) + if last.JsonDelta? && last.index == index && Started(before, index) then last.json else ""
  }

  /** The call accumulated for a block index: its latest start, and the argument text since. */
  function CallOf(fallback: FallbackId, events: seq<Event>, index: int): Option<Call> {
    if events == [] then None
    else
      var last, before := events[|events| - 1], CallOf(fallback, events[..|events| - 1], index);
      if last.ToolStart? && last.index == index then Some(Call(CallId(fallback, index, last.id), last.name, ""))
      else if last.JsonDelta? && last.index == index && before.Some? then
        Some(before.value.(arguments := before.value.arguments + last.json))
      else before
  }

  /** Counts in force after the events: each taken from the last event that reports it. */
  datatype Tokens = Tokens(input: int, output: int, cacheRead: int, cacheWrite: int)

  function TokensOf(events: seq<Event>): Tokens {
    if events == [] then Tokens(0, 0, 0, 0)
    else
      var before := TokensOf(events[..|events| - 1]);
      match events[|events| - 1]
      case MessageStart(Some(u)) => Tokens(OrZero(u.input), OrZero(u.output), OrZero(u.cacheRead), OrZero(u.cacheWrite))
      case MessageDelta(_, Some(u)) =>
        before.(output := if u.output.Some? then u.output.value else before.output,
                input := if u.input.Some? then u.input.value else before.input)
      case _ => before
  }

  // ---- What the emitted chunks say ----

  function ContentOf(chunks: seq<Chunk>): string {
    if chunks == [] then ""
    else
      var last := chunks[|chunks| - 1];
      ContentOf(chunks[..|chunks| - 1]) + if last.content.Some? then last.content.value else ""
  }

  predicate ForIndex(c: Chunk, index: int) { c.tool.Some? && c.tool.value.index == index }

  /** Argument pieces of the chunks of one index, joined. */
  function Grouped(chunks: seq<Chunk>, index: int): string {
    if chunks == [] then ""
    else
      var last := chunks[|chunks| - 1];
      Grouped(chunks[..|chunks| - 1], index) + if ForIndex(last, index) then last.tool.value.call.arguments else ""
  }

  function ChunksFor(chunks: seq<Chunk>, index: int): nat {
    if chunks == [] then 0
    else ChunksFor(chunks[..|chunks| - 1], index) + if ForIndex(chunks[|chunks| - 1], index) then 1 else 0
  }

  /** The tool chunk an event gives rise to: a non-empty piece, or at a stop a call that never got one. */
  function ToolDue(fallback: FallbackId, before: seq<Event>, e: Event): (r: Option<ToolChunk>)
    ensures r.Some? ==> (e.JsonDelta? || e.BlockStop?) && r.value.index == e.index
  {
    match e
    case JsonDelta(index, json) =>
      var call := CallOf(fallback, before, index);
      if call.Some? && json != "" then Some(ToolChunk(index, call.value.(arguments := json))) else None
    case BlockStop(index) =>
      var call := CallOf(fallback, before, index);
      if call.Some? && call.value.arguments == "" then Some(ToolChunk(index, call.value)) else None
    case _ => None
  }

  /** The final usage: everything read in, from or into the cache, and everything written. */
  function UsageDue(t: Tokens): Usage {
    var prompt := t.input + t.cacheRead + t.cacheWrite;
    Usage(prompt, t.output, prompt + t.output, t.cacheRead, t.cacheWrite)
  }

  /** The chunk for `e` says what the events up to `e` call for. */
  ghost predicate Fits(fallback: FallbackId, before: seq<Event>, e: Event, c: Chunk) {
    && c.content == (if e.TextDelta? then Some(e.text) else None)
    && c.tool == ToolDue(fallback, before, e)
    && c.usage == (if e.MessageStop? then Some(UsageDue(TokensOf(before))) else None)
    && c.finish == match e
                   case MessageStop => Some("stop")
                   case MessageDelta(reason, _) => if reason == Some("") then None else reason
                   case _ => None
  }

  ghost predicate AllFit(fallback: FallbackId, events: seq<Event>, chunks: seq<Chunk>) {
    |chunks| == |events| && forall k | 0 <= k < |events| :: Fits(fallback, events[..k], events[k], chunks[k])
  }

  /** How often a block index is due a chunk: each non-empty piece, and each stop with nothing accumulated. */
  function Due(fallback: FallbackId, events: seq<Event>, index: int): nat {
    if events == [] then 0
    else
      var last, before := events[|events| - 1], events[..|events| - 1];
      Due(fallback, before, index) + if ToolDue(fallback, before, last).Some? && last.index == index then 1 else 0
  }

  lemma {:induction false} CallOfStarted(fallback: FallbackId, events: seq<Event>, index: int)
    ensures CallOf(fallback, events, index).Some? <==> Started(events, index)
  {
    if events != [] {
      var last := |events| - 1;
      assert events == events[..last] + [events[last]];
      CallOfStarted(fallback, events[..last], index);
      if Started(events[..last], index) {
        var k :| 0 <= k < last && events[..last][k].ToolStart? && events[..last][k].index == index;
        assert events[k] == events[..last][k];
      }
      if Started(events, index) && !(events[last].ToolStart? && events[last].index == index) {
        var k :| 0 <= k < |events| && events[k].ToolStart? && events[k].index == index;
        assert events[..last][k] == events[k];
      }
    }
  }

  /** The accumulated calls, as the loop holds them. */
  ghost predicate Accumulated(fallback: FallbackId, calls: map<int, Call>, events: seq<Event>) {
    forall index ::
      if index in calls then CallOf(fallback, events, index) == Some(calls[index]) else CallOf(fallback, events, index).None?
  }

  /** For every stream of events, well-formed or not. */
  method Stream(fallback: FallbackId, events: seq<Event>) returns (chunks: seq<Chunk>, calls: map<int, Call>)
    ensures AllFit(fallback, events, chunks)
    ensures Accumulated(fallback, calls, events)
  {
    chunks, calls := [], map[];
    var tokens := Tokens(0, 0, 0, 0);
    for k := 0 to |events|
      invariant AllFit(fallback, events[..k], chunks)
      invariant Accumulated(fallback, calls, events[..k])
      invariant tokens == TokensOf(events[..k])
    {
      hide AllFit, Fits;
      var chunk;
      chunk, calls, tokens := Handle(fallback, events[..k], events[k], calls, tokens);
      AllFitSnoc(fallback, events[..k], events[k], chunks, chunk);
      assert events[..k + 1] == events[..k] + [events[k]];
      chunks := chunks + [chunk];
    }
    assert events[..|events|] == events;
  }

  lemma AllFitSnoc(fallback: FallbackId, events: seq<Event>, e: Event, chunks: seq<Chunk>, c: Chunk)
    requires AllFit(fallback, events, chunks) && Fits(fallback, events, e, c)
    ensures AllFit(fallback, events + [e], chunks + [c])
  {
    assert forall k | 0 <= k <= |events| :: (events + [e])[..k] == events[..k];
    assert events[..|events|] == events;
  }

  /** One pass of the event loop. */
  method Handle(fallback: FallbackId, ghost before: seq<Event>, e: Event, calls: map<int, Call>, tokens: Tokens)
      returns (chunk: Chunk, calls': map<int, Call>, tokens': Tokens)
    requires Accumulated(fallback, calls, before) && tokens == TokensOf(before)
    ensures Fits(fallback, before, e, chunk)
    ensures Accumulated(fallback, calls', before + [e]) && tokens' == TokensOf(before + [e])
  {
    chunk, calls', tokens' := Chunk(None, None, None, None), calls, tokens;
    assert (before + [e])[..|before|] == before;
    match e {
      case MessageStart(usage) =>
        if usage.Some? {
          var u := usage.value;
          tokens' := Tokens(OrZero(u.input), OrZero(u.output), OrZero(u.cacheRead), OrZero(u.cacheWrite));
        }
      case ToolStart(index, id, name) =>
        calls' := calls[index := Call(CallId(fallback, index, id), name, "")];
      case TextDelta(_, text) =>
        chunk := chunk.(content := Some(text));
      case JsonDelta(index, json) =>
        if index in calls {
          var call := calls[index];
          calls' := calls[index := call.(arguments := call.arguments + json)];
          if json != "" {
            chunk := chunk.(tool := Some(ToolChunk(index, call.(arguments := json))));
          }
        }
      case BlockStop(index) =>
        if index in calls && calls[index].arguments == "" {
          chunk := chunk.(tool := Some(ToolChunk(index, calls[index])));
        }
      case MessageDelta(stopReason, usage) =>
        if stopReason.Some? && stopReason.value != "" {
          chunk := chunk.(finish := stopReason);
        }
        if usage.Some? {
          if usage.value.output.Some? { tokens' := tokens'.(output := usage.value.output.value); }
          if usage.value.input.Some? { tokens' := tokens'.(input := usage.value.input.value); }
        }
      case MessageStop =>
        var prompt := tokens.input + tokens.cacheRead + tokens.cacheWrite;
        chunk := chunk.(finish := Some("stop"),
                        usage := Some(Usage(prompt, tokens.output, prompt + tokens.output, tokens.cacheRead, tokens.cacheWrite)));
      case _ =>
    }
  }

  // ---- What the chunks of a whole stream add up to ----

  lemma AllFitPrefix(fallback: FallbackId, events: seq<Event>, chunks: seq<Chunk>)
    requires AllFit(fallback, events, chunks) && events != []
    ensures AllFit(fallback, events[..|events| - 1], chunks[..|events| - 1])
    ensures Fits(fallback, events[..|events| - 1], events[|events| - 1], chunks[|events| - 1])
  {
    var last := |events| - 1;
    assert forall k | 0 <= k < last :: events[..last][..k] == events[..k];
  }

  /** The emitted content is the text of the stream, whatever the stream. */
  lemma {:induction false} ContentAgrees(fallback: FallbackId, events: seq<Event>, chunks: seq<Chunk>)
    requires AllFit(fallback, events, chunks)
    ensures ContentOf(chunks) == TextOf(events)
  {
    if events != [] {
      AllFitPrefix(fallback, events, chunks);
      ContentAgrees(fallback, events[..|events| - 1], chunks[..|events| - 1]);
    }
  }

  /** Every argument piece is emitted under its index, in order, and nothing else is. */
  lemma {:induction false} PiecesAgree(fallback: FallbackId, events: seq<Event>, chunks: seq<Chunk>, index: int)
    requires AllFit(fallback, events, chunks)
    ensures Grouped(chunks, index) == AllJson(events, index)
    ensures ChunksFor(chunks, index) == Due(fallback, events, index)
  {
    if events != [] {
      var before := events[..|events| - 1];
      AllFitPrefix(fallback, events, chunks);
      PiecesAgree(fallback, before, chunks[..|events| - 1], index);
      CallOfStarted(fallback, before, index);
      hide AllFit, CallOf, Started;
    }
  }

  /** No tool block is started twice at one index, and none is spoken of after its stop. */
  ghost predicate WellFormed(events: seq<Event>) {
    forall k | 0 <= k < |events| ::
      && (events[k].ToolStart? ==> !Started(events[..k], events[k].index) && !Stopped(events[..k], events[k].index))
      && (events[k].JsonDelta? || events[k].BlockStop? ==> !Stopped(events[..k], events[k].index))
  }

  lemma WellFormedPrefix(events: seq<Event>)
    requires WellFormed(events) && events != []
    ensures WellFormed(events[..|events| - 1])
  {
    var last := |events| - 1;
    assert forall k | 0 <= k < last :: events[..last][..k] == events[..k];
  }

  lemma StoppedSnoc(events: seq<Event>, index: int)
    requires events != []
    ensures var last := events[|events| - 1];
            && (Stopped(events, index) <==> Stopped(events[..|events| - 1], index) || (last.BlockStop? && last.index == index))
            && (Started(events, index) <==> Started(events[..|events| - 1], index) || (last.ToolStart? && last.index == index))
  {}

  /** In a well-formed stream the pieces of an index are the arguments of its one call. */
  lemma {:induction false} OneCallPerIndex(fallback: FallbackId, events: seq<Event>, index: int)
    requires WellFormed(events)
    ensures match CallOf(fallback, events, index)
            case Some(call) => AllJson(events, index) == call.arguments
            case None => AllJson(events, index) == ""
  {
    if events != [] {
      var before := events[..|events| - 1];
      WellFormedPrefix(events);
      OneCallPerIndex(fallback, before, index);
      CallOfStarted(fallback, before, index);
    }
  }

  /** A call is announced at least once by the time it stops, and exactly once if its arguments are empty. */
  lemma {:induction false} Announced(fallback: FallbackId, events: seq<Event>, index: int)
    requires WellFormed(events)
    ensures var call := CallOf(fallback, events, index);
            && (call.None? ==> Due(fallback, events, index) == 0)
            && (call.Some? && call.value.arguments == "" ==>
                  Due(fallback, events, index) == if Stopped(events, index) then 1 else 0)
            && (call.Some? && call.value.arguments != "" ==> Due(fallback, events, index) >= 1)
  {
    if events != [] {
      var before := events[..|events| - 1];
      WellFormedPrefix(events);
      Announced(fallback, before, index);
      StoppedSnoc(events, index);
      CallOfStarted(fallback, before, index);
      assert before == events[..|events| - 1];
    }
  }

  /** For every well-formed stream: chunks grouped by index give back exactly the accumulated calls. */
  lemma ChunksGiveCalls(fallback: FallbackId, events: seq<Event>, chunks: seq<Chunk>, calls: map<int, Call>, index: int)
    requires WellFormed(events) && AllFit(fallback, events, chunks) && Accumulated(fallback, calls, events)
    ensures ContentOf(chunks) == TextOf(events)
    ensures index in calls ==> Grouped(chunks, index) == calls[index].arguments
    ensures index !in calls ==> ChunksFor(chunks, index) == 0
    ensures index in calls && Stopped(events, index) ==> ChunksFor(chunks, index) >= 1
    ensures index in calls && Stopped(events, index) && calls[index].arguments == "" ==> ChunksFor(chunks, index) == 1
    ensures forall k | 0 <= k < |chunks| && ForIndex(chunks[k], index) ::
              index in calls && chunks[k].tool.value.call.id == calls[index].id && chunks[k].tool.value.call.name == calls[index].name
  {
    hide Fits;
    ContentAgrees(fallback, events, chunks);
    PiecesAgree(fallback, events, chunks, index);
    OneCallPerIndex(fallback, events, index);
    Announced(fallback, events, index);
    forall k | 0 <= k < |chunks| && ForIndex(chunks[k], index)
      ensures CallOf(fallback, events, index).Some?
           && chunks[k].tool.value.call.id == CallOf(fallback, events, index).value.id
           && chunks[k].tool.value.call.name == CallOf(fallback, events, index).value.name
    {
      ChunkNamesCall(fallback, events, chunks, index, k);
    }
  }

  lemma ChunkNamesCall(fallback: FallbackId, events: seq<Event>, chunks: seq<Chunk>, index: int, k: nat)
    requires WellFormed(events) && AllFit(fallback, events, chunks) && k < |chunks| && ForIndex(chunks[k], index)
    ensures var call := CallOf(fallback, events, index);
            call.Some? && chunks[k].tool.value.call.id == call.value.id && chunks[k].tool.value.call.name == call.value.name
  {
    assert Fits(fallback, events[..k], events[k], chunks[k]);
    CallKeepsName(fallback, events, index, k);
  }

  lemma {:induction false} CallKeepsName(fallback: FallbackId, events: seq<Event>, index: int, k: nat)
    requires WellFormed(events) && k <= |events| && CallOf(fallback, events[..k], index).Some?
    ensures var early, call := CallOf(fallback, events[..k], index), CallOf(fallback, events, index);
            call.Some? && call.value.id == early.value.id && call.value.name == early.value.name
    decreases |events|
  {
    if k == |events| {
      assert events[..k] == events;
    } else {
      var before := events[..|events| - 1];
      WellFormedPrefix(events);
      assert before[..k] == events[..k];
      CallKeepsName(fallback, before, index, k);
      CallOfStarted(fallback, before, index);
    }
  }

  // ---- What one event gives, by its kind ----

  /** A call keeps the id it is given; without one, or with an empty one, it gets the fallback of its index. */
  lemma CallIdExactly(fallback: FallbackId, index: int, id: string)
    ensures CallId(fallback, index, None) == CallId(fallback, index, Some("")) == fallback(index)
    ensures id != "" ==> CallId(fallback, index, Some(id)) == id
  {}

  datatype Counter = InputCount | OutputCount | CacheReadCount | CacheWriteCount

  /** The start reports every count, an absent one as zero; a delta reports what it has of input and output. */
  function Reported(e: Event, c: Counter): Option<int> {
    match e
    case MessageStart(Some(u)) =>
      var given := match c
        case InputCount => u.input
        case OutputCount => u.output
        case CacheReadCount => u.cacheRead
        case CacheWriteCount => u.cacheWrite;
      if given == None then Some(0) else given
    case MessageDelta(_, Some(u)) =>
      (match c
       case InputCount => u.input
       case OutputCount => u.output
       case _ => None)
    case _ => None
  }

  /** `n` is what the last event that reports the counter says, or zero if none does. */
  ghost predicate LastReport(events: seq<Event>, c: Counter, n: int) {
    || (n == 0 && forall k | 0 <= k < |events| :: Reported(events[k], c) == None)
    || (exists k | 0 <= k < |events| ::
          Reported(events[k], c) == Some(n) && forall j | k < j < |events| :: Reported(events[j], c) == None)
  }

  lemma LastReportSnoc(events: seq<Event>, c: Counter, n: int)
    requires events != []
    requires match Reported(events[|events| - 1], c)
             case Some(m) => n == m
             case None => LastReport(events[..|events| - 1], c, n)
    ensures LastReport(events, c, n)
  {
    var last := |events| - 1;
    if Reported(events[last], c) == None {
      var before := events[..last];
      if k :| 0 <= k < |before| && Reported(before[k], c) == Some(n) && forall j | k < j < |before| :: Reported(before[j], c) == None {
        assert Reported(events[k], c) == Some(n);
      }
    }
  }

  /** Every count in force is that of the last event that reports it. */
  lemma {:induction false} TokensExactly(events: seq<Event>)
    ensures LastReport(events, InputCount, TokensOf(events).input) && LastReport(events, OutputCount, TokensOf(events).output)
    ensures LastReport(events, CacheReadCount, TokensOf(events).cacheRead)
    ensures LastReport(events, CacheWriteCount, TokensOf(events).cacheWrite)
  {
    if events != [] {
      hide LastReport;
      TokensExactly(events[..|events| - 1]);
      LastReportSnoc(events, InputCount, TokensOf(events).input);
      LastReportSnoc(events, OutputCount, TokensOf(events).output);
      LastReportSnoc(events, CacheReadCount, TokensOf(events).cacheRead);
      LastReportSnoc(events, CacheWriteCount, TokensOf(events).cacheWrite);
    } else {
      NothingReported();
    }
  }

  lemma NothingReported()
    ensures forall c :: LastReport([], c, 0)
  {}

  /** The usage goes out with the end of the message, and only then: the prompt is everything read, from the cache, into it or
      past it, and the total is the prompt and what was written. */
  lemma UsageExactly(fallback: FallbackId, events: seq<Event>, chunks: seq<Chunk>, k: nat)
    requires AllFit(fallback, events, chunks) && k < |events|
    ensures chunks[k].usage == None <==> events[k] != MessageStop
    ensures events[k] == MessageStop ==>
              var u := chunks[k].usage.value;
              && LastReport(events[..k], InputCount, u.prompt - u.cacheRead - u.cacheWrite)
              && LastReport(events[..k], OutputCount, u.completion) && u.total == u.prompt + u.completion
              && LastReport(events[..k], CacheReadCount, u.cacheRead) && LastReport(events[..k], CacheWriteCount, u.cacheWrite)
  {
    hide LastReport;
    assert Fits(fallback, events[..k], events[k], chunks[k]);
    TokensExactly(events[..k]);
  }

  /** A piece of text goes out with its own event; the reason to stop with the delta that gives one; the end says `stop`. */
  lemma ContentAndFinishExactly(fallback: FallbackId, events: seq<Event>, chunks: seq<Chunk>, k: nat)
    requires AllFit(fallback, events, chunks) && k < |events|
    ensures events[k].TextDelta? ==> chunks[k].content == Some(events[k].text)
    ensures !events[k].TextDelta? ==> chunks[k].content == None
    ensures events[k].MessageStop? ==> chunks[k].finish == Some("stop")
    ensures events[k].MessageDelta? && events[k].stopReason !in {None, Some("")} ==> chunks[k].finish == events[k].stopReason
    ensures events[k].MessageDelta? && events[k].stopReason in {None, Some("")} ==> chunks[k].finish == None
    ensures !events[k].MessageStop? && !events[k].MessageDelta? ==> chunks[k].finish == None
  {
    assert Fits(fallback, events[..k], events[k], chunks[k]);
  }

  /** The argument text of a block index. */
  function JsonFor(events: seq<Event>, index: int): string {
    if events == [] then ""
    else (if events[0].JsonDelta? && events[0].index == index then events[0].json else "") + JsonFor(events[1..], index)
  }

  /** A piece goes out under its index with the call's id and name, which are those of the latest start; the end of a block gives
      its call with no arguments if none came since that start. */
  lemma ToolExactly(fallback: FallbackId, events: seq<Event>, chunks: seq<Chunk>, k: nat, start: nat)
    requires AllFit(fallback, events, chunks) && start < k < |events| && (events[k].JsonDelta? || events[k].BlockStop?)
    requires LatestStart(events[..k], start, events[k].index)
    ensures chunks[k].tool.Some? <==>
              if events[k].JsonDelta? then events[k].json != "" else JsonFor(events[start + 1..k], events[k].index) == ""
    ensures chunks[k].tool.Some? ==>
              && chunks[k].tool.value.index == events[k].index && chunks[k].tool.value.call.name == events[start].name
              && chunks[k].tool.value.call.id == (if events[start].id in {None, Some("")} then fallback(events[k].index)
                                                  else events[start].id.value)
              && chunks[k].tool.value.call.arguments == if events[k].JsonDelta? then events[k].json else ""
  {
    assert Fits(fallback, events[..k], events[k], chunks[k]);
    CallExactly(fallback, events[..k], start, events[k].index);
    assert events[..k][start + 1..] == events[start + 1..k];
  }

  /** Before its first start nothing goes out for a block index, nor with events of other kinds. */
  lemma NoToolExactly(fallback: FallbackId, events: seq<Event>, chunks: seq<Chunk>, k: nat)
    requires AllFit(fallback, events, chunks) && k < |events|
    requires events[k].JsonDelta? || events[k].BlockStop? ==> !Started(events[..k], events[k].index)
    ensures chunks[k].tool == None
  {
    assert Fits(fallback, events[..k], events[k], chunks[k]);
    if events[k].JsonDelta? || events[k].BlockStop? {
      CallOfStarted(fallback, events[..k], events[k].index);
    }
  }

  predicate LatestStart(events: seq<Event>, start: nat, index: int) {
    && start < |events| && events[start].ToolStart? && events[start].index == index
    && forall j | start < j < |events| :: !(events[j].ToolStart? && events[j].index == index)
  }

  /** The call held for an index: the id and name of its latest start, and the argument text since. */
  lemma {:induction false} CallExactly(fallback: FallbackId, events: seq<Event>, start: nat, index: int)
    requires LatestStart(events, start, index)
    ensures CallOf(fallback, events, index)
         == Some(Call(if events[start].id in {None, Some("")} then fallback(index) else events[start].id.value,
                      events[start].name, JsonFor(events[start + 1..], index)))
  {
    var last := |events| - 1;
    if start < last {
      var since := events[..last][start + 1..];
      CallExactly(fallback, events[..last], start, index);
      assert events[start + 1..] == since + [events[last]];
      JsonSnoc(since, events[last], index);
      assert CallOf(fallback, events, index).value.arguments == JsonFor(since + [events[last]], index);
    } else {
      assert events[start + 1..] == [];
    }
  }

  lemma {:induction false} JsonSnoc(events: seq<Event>, e: Event, index: int)
    ensures JsonFor(events + [e], index) == JsonFor(events, index) + if e.JsonDelta? && e.index == index then e.json else ""
  {
    if events == [] {
      assert (events + [e])[1..] == [];
    } else {
      JsonSnoc(events[1..], e, index);
      assert (events + [e])[1..] == events[1..] + [e];
    }
  }
}
