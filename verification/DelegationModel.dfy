/** Agent conversations that suspend on delegated sub-agents: a tree of conversations, each a chain of jobs. */
module DelegationModel {
  import opened Strings

  datatype Outcome = Answered(text: string) | Failed(error: string)

  /** What goes out on the stream channel when a conversation ends. */
  datatype Signal = Done | Error(error: string)

  function SignalOf(o: Outcome): Signal {
    match o case Answered(_) => Done case Failed(e) => Error(e)
  }

  /** A delegated call: the parent's checkpoint row and the tool call that waits there. */
  datatype Call = Call(checkpoint: nat, tool: string)

  /** What a job owes at its end: an Execution row to terminate, a parent to report to. */
  datatype Meta = Meta(execution: Option<nat>, parent: Option<Call>)

  datatype JobStatus = QUEUED | RUNNING | SUSPENDED | COMPLETED | FAILED

  datatype Phase =
    | Queued
    | Streaming(parts: seq<string>, suspended: bool)
    | Settling(outcome: Outcome)
    | Reporting(outcome: Outcome)
    | Ended
  {
    predicate Spoke() { Settling? || Reporting? }
  }

  /** A message or delegate-resume job; `checkpointed` once its stream has stored a checkpoint. */
  datatype Job = Job(conv: nat, meta: Meta, status: JobStatus, phase: Phase, checkpointed: bool)

  /** The PendingDelegation row; `awaited` are the child conversations that have not reported (no step reads it). */
  datatype Checkpoint = Checkpoint(
    conv: nat, context: Meta, tools: seq<string>, remaining: int, open: bool,
    results: seq<(string, Outcome)>, awaited: set<nat>)

  /** Who carries a conversation on (no step reads it). */
  datatype Holder = AtJob(job: nat) | AtCheckpoint(checkpoint: nat) | Over(outcome: Outcome) | Lost

  /** A conversation, what was done in its name, and how many of its jobs failed after storing a checkpoint. */
  datatype Conv = Conv(
    meta: Meta, holder: Holder, signals: seq<Signal>, terminations: seq<Outcome>, reports: seq<Outcome>, late: nat)

  datatype State = State(jobs: seq<Job>, checkpoints: seq<Checkpoint>, convs: seq<Conv>)
  {
    function SetJob(j: nat, job: Job): State requires j < |jobs| { this.(jobs := jobs[j := job]) }

    function SetConv(c: nat, conv: Conv): State requires c < |convs| { this.(convs := convs[c := conv]) }

    predicate Has(j: nat) { j < |jobs| && jobs[j].conv < |convs| }
  }

  const INIT := State([], [], [])

  datatype Chunk = Content(text: string) | DelegationPending | Other

  /** One atomic step; jobs interleave freely between steps. */
  datatype Action =
    | Submit(execution: Option<nat>)
    | Start(job: nat)
    | Delegate(job: nat, tools: seq<string>)
    | Yield(job: nat, chunk: Chunk)
    | EndStream(job: nat, fault: Option<string>)
    | Cancel(job: nat)
    | Terminate(job: nat)
    | Report(job: nat)

  const CANCELLED := "Job cancelled or timed out"

  /** The generator stores at most one checkpoint, announces it, and does not end normally in between. */
  predicate Enabled(s: State, a: Action) {
    match a
    case Submit(_) => true
    case Start(j) => s.Has(j) && s.jobs[j].phase.Queued?
    case Delegate(j, tools) => s.Has(j) && s.jobs[j].phase.Streaming? && !s.jobs[j].checkpointed && tools != []
    case Yield(j, chunk) =>
      && s.Has(j) && s.jobs[j].phase.Streaming?
      && (chunk.DelegationPending? ==> s.jobs[j].checkpointed && !s.jobs[j].phase.suspended)
    case EndStream(j, fault) =>
      && s.Has(j) && s.jobs[j].phase.Streaming?
      && (fault.None? ==> (s.jobs[j].checkpointed <==> s.jobs[j].phase.suspended))
    case Cancel(j) => s.Has(j) && s.jobs[j].phase.Streaming?
    case Terminate(j) => s.Has(j) && s.jobs[j].phase.Settling?
    case Report(j) => s.Has(j) && s.jobs[j].phase.Reporting?
  }

  function Concat(parts: seq<string>): string {
    if parts == [] then "" else Concat(parts[..|parts| - 1]) + parts[|parts| - 1]
  }

  /** The parts in their order, with nothing in between. */
  lemma {:induction false} ConcatExactly(parts: seq<string>, part: string)
    ensures Concat([]) == "" && Concat([part]) == part
    ensures Concat([part] + parts) == part + Concat(parts)
  {
    assert [part] == [] + [part];
    if parts == [] {
      assert [part] + parts == [part];
    } else {
      var last := |parts| - 1;
      ConcatExactly(parts[..last], part);
      assert ([part] + parts)[..last + 1] == [part] + parts[..last];
    }
  }

  /** New conversations and their message jobs, one for each metadata record. */
  function Enqueued(s: State, metas: seq<Meta>): State {
    s.(jobs := s.jobs + seq(|metas|, i requires 0 <= i < |metas| => Job(|s.convs| + i, metas[i], QUEUED, Queued, false)),
       convs := s.convs + seq(|metas|, i requires 0 <= i < |metas| => Conv(metas[i], AtJob(|s.jobs| + i), [], [], [], 0)))
  }

  /** A delegated child has no Execution row of its own and reports to the checkpoint. */
  function ChildMetas(checkpoint: nat, tools: seq<string>): seq<Meta> {
    seq(|tools|, i requires 0 <= i < |tools| => Meta(None, Some(Call(checkpoint, tools[i]))))
  }

  /** The ids the next `n` conversations get. */
  function Ids(from: nat, n: nat): (ids: set<nat>)
    ensures |ids| == n && forall c :: c in ids <==> from <= c < from + n
  {
    if n == 0 then {} else Ids(from, n - 1) + {from + n - 1}
  }

  /** Store the checkpoint with the job's metadata, then enqueue one child per call. */
  function Suspended(s: State, j: nat, tools: seq<string>): State
    requires s.Has(j)
  {
    var job, k := s.jobs[j], |s.checkpoints|;
    var row := Checkpoint(job.conv, job.meta, tools, |tools|, true, [], Ids(|s.convs|, |tools|));
    Enqueued(
      s.SetJob(j, job.(checkpointed := true))
       .SetConv(job.conv, s.convs[job.conv].(holder := AtCheckpoint(k)))
       .(checkpoints := s.checkpoints + [row]),
      ChildMetas(k, tools))
  }

  /** A child's result reaches the checkpoint row, if it is still there; the last one enqueues the resume job. */
  function OnChildComplete(s: State, call: Call, child: nat, o: Outcome): State {
    var k := call.checkpoint;
    if k >= |s.checkpoints| || !s.checkpoints[k].open || s.checkpoints[k].conv >= |s.convs| then s
    else
      var row := s.checkpoints[k];
      var isLast := row.remaining - 1 <= 0;
      var t := s.(checkpoints := s.checkpoints[k := row.(
        remaining := row.remaining - 1, open := !isLast,
        results := row.results + [(call.tool, o)], awaited := row.awaited - {child})]);
      if isLast then
        t.SetConv(row.conv, t.convs[row.conv].(holder := AtJob(|t.jobs|)))
         .(jobs := t.jobs + [Job(row.conv, row.context, QUEUED, Queued, false)])
      else t
  }

  function Ending(s: State, j: nat, o: Outcome): State
    requires s.Has(j)
  {
    var job := s.jobs[j];
    var conv := s.convs[job.conv];
    s.SetJob(j, job.(phase := Settling(o), status := if o.Answered? then COMPLETED else FAILED))
     .SetConv(job.conv, conv.(signals := conv.signals + [SignalOf(o)], late := conv.late + if job.checkpointed then 1 else 0))
  }

  function Cancelled(s: State, j: nat): State
    requires s.Has(j)
  {
    var job := s.jobs[j];
    var conv := s.convs[job.conv];
    s.SetJob(j, job.(phase := Ended, status := FAILED))
     .SetConv(job.conv, conv.(signals := conv.signals + [Error(CANCELLED)],
                              late := conv.late + if job.checkpointed then 1 else 0,
                              holder := if job.checkpointed then conv.holder else Lost))
  }

  /** The Execution row, when there is one. */
  function Terminated(s: State, j: nat, o: Outcome): State
    requires s.Has(j)
  {
    var job := s.jobs[j];
    var conv := s.convs[job.conv];
    s.SetJob(j, job.(phase := Reporting(o)))
     .SetConv(job.conv, conv.(terminations := conv.terminations + if job.meta.execution.Some? then [o] else []))
  }

  /** The report, when there is a parent; the job ends. */
  function Reported(s: State, j: nat, o: Outcome): State
    requires s.Has(j)
  {
    var job := s.jobs[j];
    var conv := s.convs[job.conv];
    var t := s.SetJob(j, job.(phase := Ended))
              .SetConv(job.conv, conv.(reports := conv.reports + if job.meta.parent.Some? then [o] else [],
                                       holder := if job.checkpointed then conv.holder else Over(o)));
    if job.meta.parent.Some? then OnChildComplete(t, job.meta.parent.value, job.conv, o) else t
  }

  function Step(s: State, a: Action): State
    requires Enabled(s, a)
  {
    match a
    case Submit(execution) => Enqueued(s, [Meta(execution, None)])
    case Start(j) => s.SetJob(j, s.jobs[j].(phase := Streaming([], false), status := RUNNING))
    case Delegate(j, tools) => Suspended(s, j, tools)
    case Yield(j, chunk) =>
      var p := s.jobs[j].phase;
      s.SetJob(j, s.jobs[j].(phase :=
        match chunk
        case Content(text) => if text == "" then p else p.(parts := p.parts + [text])
        case DelegationPending => p.(suspended := true)
        case Other => p))
    case EndStream(j, fault) =>
      if fault.Some? then Ending(s, j, Failed(fault.value))
      else if s.jobs[j].phase.suspended then s.SetJob(j, s.jobs[j].(phase := Ended, status := SUSPENDED))
      else Ending(s, j, Answered(Concat(s.jobs[j].phase.parts)))
    case Cancel(j) => Cancelled(s, j)
    case Terminate(j) => Terminated(s, j, s.jobs[j].phase.outcome)
    case Report(j) => Reported(s, j, s.jobs[j].phase.outcome)
  }

  /** A cancelled job signals an error and does nothing more: no row is terminated, and no parent hears of it. */
  lemma CancelledExactly(s: State, j: nat)
    requires Enabled(s, Cancel(j))
    ensures var t, c := Step(s, Cancel(j)), s.jobs[j].conv;
            && t.Has(j) && t.jobs[j].status == FAILED && t.jobs[j].phase == Ended
            && t.convs[c].signals == s.convs[c].signals + [Error("Job cancelled or timed out")]
            && t.convs[c].terminations == s.convs[c].terminations && t.convs[c].reports == s.convs[c].reports
            && t.checkpoints == s.checkpoints && |t.jobs| == |s.jobs| && |t.convs| == |s.convs|
            && forall i | 0 <= i < |s.jobs| && i != j :: t.jobs[i] == s.jobs[i]
  {}

  /** Any schedule of steps; one that is not possible is passed over. */
  function Run(s: State, schedule: seq<Action>): State
    decreases schedule
  {
    if schedule == [] then s
    else Run(if Enabled(s, schedule[0]) then Step(s, schedule[0]) else s, schedule[1..])
  }

  // ---- The status a job shows ----

  /** The status of every job tells where it stands: queued, running, done with an answer or with an error, or, at its end only,
      suspended on a checkpoint of its own. */
  ghost predicate StatusTells(s: State) {
    forall j | 0 <= j < |s.jobs| :: Tells(s.jobs[j])
  }

  predicate Tells(job: Job) {
    match job.phase
    case Queued => job.status == QUEUED
    case Streaming(_, suspended) => job.status == RUNNING && (suspended ==> job.checkpointed)
    case Settling(o) => job.status == if o.Answered? then COMPLETED else FAILED
    case Reporting(o) => job.status == if o.Answered? then COMPLETED else FAILED
    case Ended => job.status in {COMPLETED, FAILED, SUSPENDED} && (job.status == SUSPENDED ==> job.checkpointed)
  }

  lemma StepTells(s: State, a: Action)
    requires StatusTells(s) && Enabled(s, a)
    ensures StatusTells(Step(s, a))
  {
    if a.Report? {
      ReportTells(s, a.job, s.jobs[a.job].phase.outcome);
    }
  }

  lemma ReportTells(s: State, j: nat, o: Outcome)
    requires StatusTells(s) && s.Has(j) && s.jobs[j].phase == Reporting(o)
    ensures StatusTells(Reported(s, j, o))
  {}

  lemma {:induction false} RunTells(s: State, schedule: seq<Action>)
    requires StatusTells(s)
    ensures StatusTells(Run(s, schedule))
    decreases schedule
  {
    if schedule != [] {
      hide StatusTells, Step, Enabled;
      if Enabled(s, schedule[0]) {
        StepTells(s, schedule[0]);
        RunTells(Step(s, schedule[0]), schedule[1..]);
      } else {
        RunTells(s, schedule[1..]);
      }
    }
  }
}
