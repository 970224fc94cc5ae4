/** The job handlers, updating the job, checkpoint and conversation records in place, proved to take the model's steps. */
module AgentJobs {
  import opened Strings
  import opened DelegationModel

  /** What the conversation stream does next: hand a chunk over, or suspend on delegated calls. */
  datatype Event = Say(chunk: Chunk) | Suspend(tools: seq<string>)

  /** One suspension at most, announced afterwards, and not left unannounced by a stream that ends normally. */
  predicate Orderly(stream: seq<Event>, fault: Option<string>, checkpointed: bool, suspended: bool)
    decreases stream
  {
    if stream == [] then fault.Some? || (checkpointed <==> suspended)
    else
      match stream[0]
      case Suspend(tools) => tools != [] && !checkpointed && Orderly(stream[1..], fault, true, suspended)
      case Say(DelegationPending) => checkpointed && !suspended && Orderly(stream[1..], fault, checkpointed, true)
      case Say(_) => Orderly(stream[1..], fault, checkpointed, suspended)
  }

  function ActionOf(j: nat, e: Event): Action {
    match e case Say(chunk) => Yield(j, chunk) case Suspend(tools) => Delegate(j, tools)
  }

  /** The steps of a job that has started. */
  function Trace(j: nat, stream: seq<Event>, fault: Option<string>): seq<Action>
    decreases stream
  {
    if stream == [] then [EndStream(j, fault), Terminate(j), Report(j)]
    else [ActionOf(j, stream[0])] + Trace(j, stream[1..], fault)
  }

  /** The text of the stream, chunk after chunk. */
  function Words(stream: seq<Event>): string {
    if stream == [] then ""
    else (if stream[0].Say? && stream[0].chunk.Content? then stream[0].chunk.text else "") + Words(stream[1..])
  }

  predicate Pends(stream: seq<Event>) { exists n | 0 <= n < |stream| :: stream[n] == Say(DelegationPending) }

  /** Nothing was said or done in the conversation's name in between. */
  predicate Silent(before: Conv, after: Conv) {
    && after.meta == before.meta && after.signals == before.signals
    && after.terminations == before.terminations && after.reports == before.reports
  }

  /** One signal went out, the Execution row was terminated if there is one, and the parent told if there is one. */
  predicate Spoke(before: Conv, after: Conv, meta: Meta, o: Outcome) {
    && after.meta == before.meta
    && after.signals == before.signals + [if o.Answered? then Done else Error(o.error)]
    && after.terminations == before.terminations + (if meta.execution == None then [] else [o])
    && after.reports == before.reports + (if meta.parent == None then [] else [o])
  }

  lemma RunFirst(s: State, a: Action, rest: seq<Action>)
    ensures Run(s, [a] + rest) == Run(if Enabled(s, a) then Step(s, a) else s, rest)
  {}

  class Records {
    var jobs: seq<Job>
    var checkpoints: seq<Checkpoint>
    var convs: seq<Conv>

    ghost function Model(): State
      reads this
    {
      State(jobs, checkpoints, convs)
    }

    constructor ()
      ensures Model() == INIT
    {
      jobs, checkpoints, convs := [], [], [];
    }

    method EnqueueMessage(meta: Meta) returns (j: nat)
      modifies this`jobs, this`convs
      ensures j == old(|jobs|) && Model() == Enqueued(old(Model()), [meta])
    {
      j := |jobs|;
      jobs := jobs + [Job(|convs|, meta, QUEUED, Queued, false)];
      convs := convs + [Conv(meta, AtJob(j), [], [], [], 0)];
    }

    /** The checkpoint row first, then the children, or a fast child could report before it is there. */
    method SuspendDelegations(j: nat, tools: seq<string>)
      requires Model().Has(j)
      modifies this
      ensures Model() == Suspended(old(Model()), j, tools)
      ensures checkpoints == old(checkpoints) + [checkpoints[|old(checkpoints)|]] && |jobs| == |old(jobs)| + |tools|
      ensures var row := checkpoints[|old(checkpoints)|];
              && row.conv == old(jobs[j]).conv && row.context == old(jobs[j]).meta && row.tools == tools
              && row.remaining == |tools| && row.open && row.results == []
      ensures forall i | 0 <= i < |tools| ::
                jobs[|old(jobs)| + i]
                == Job(|old(convs)| + i, Meta(None, Some(Call(|old(checkpoints)|, tools[i]))), QUEUED, Queued, false)
    {
      var c, k, first := jobs[j].conv, |checkpoints|, |convs|;
      jobs := jobs[j := jobs[j].(checkpointed := true)];
      convs := convs[c := convs[c].(holder := AtCheckpoint(k))];
      checkpoints := checkpoints + [Checkpoint(c, jobs[j].meta, tools, |tools|, true, [], Ids(first, |tools|))];
      ghost var s := Model();
      for i := 0 to |tools|
        invariant Model() == Enqueued(s, ChildMetas(k, tools[..i]))
      {
        var _ := EnqueueMessage(Meta(None, Some(Call(k, tools[i]))));
        assert ChildMetas(k, tools[..i + 1]) == ChildMetas(k, tools[..i]) + [Meta(None, Some(Call(k, tools[i])))];
      }
      assert tools[..|tools|] == tools;
    }

    /** The row is still there. */
    predicate Waits(call: Call)
      reads this
    {
      && call.checkpoint < |checkpoints| && checkpoints[call.checkpoint].open
      && checkpoints[call.checkpoint].conv < |convs|
    }

    /** One transaction on the locked row; a row that is gone is left alone. */
    method OnChildComplete(call: Call, child: nat, o: Outcome)
      modifies this
      ensures Model() == DelegationModel.OnChildComplete(old(Model()), call, child, o)
      ensures old(Waits(call)) ==>
                var row, now := old(checkpoints)[call.checkpoint], checkpoints[call.checkpoint];
                && now.results == row.results + [(call.tool, o)] && now.remaining == row.remaining - 1
                && (now.open <==> row.remaining > 1)
                && jobs == old(jobs) + if row.remaining > 1 then [] else [Job(row.conv, row.context, QUEUED, Queued, false)]
      ensures !old(Waits(call)) ==> jobs == old(jobs) && checkpoints == old(checkpoints) && convs == old(convs)
    {
      var k := call.checkpoint;
      if k >= |checkpoints| || !checkpoints[k].open || checkpoints[k].conv >= |convs| {
        return;
      }
      var row := checkpoints[k];
      var remaining := row.remaining - 1;
      var isLast := remaining <= 0;
      checkpoints := checkpoints[k := row.(remaining := remaining, open := !isLast,
                                           results := row.results + [(call.tool, o)], awaited := row.awaited - {child})];
      if isLast {
        convs := convs[row.conv := convs[row.conv].(holder := AtJob(|jobs|))];
        jobs := jobs + [Job(row.conv, row.context, QUEUED, Queued, false)];
      }
    }

    method Publish(j: nat, o: Outcome)
      requires Model().Has(j)
      modifies this
      ensures Model() == Ending(old(Model()), j, o)
    {
      var c := jobs[j].conv;
      convs := convs[c := convs[c].(signals := convs[c].signals + [SignalOf(o)],
                                    late := convs[c].late + if jobs[j].checkpointed then 1 else 0)];
      jobs := jobs[j := jobs[j].(phase := Settling(o), status := if o.Answered? then COMPLETED else FAILED)];
    }

    method TerminateExecution(j: nat, o: Outcome)
      requires Model().Has(j)
      modifies this
      ensures Model() == Terminated(old(Model()), j, o)
    {
      var c := jobs[j].conv;
      assert convs[c].terminations + [] == convs[c].terminations;
      if jobs[j].meta.execution.Some? {
        convs := convs[c := convs[c].(terminations := convs[c].terminations + [o])];
      }
      jobs := jobs[j := jobs[j].(phase := Reporting(o))];
    }

    method ReportToParent(j: nat, o: Outcome)
      requires Model().Has(j)
      modifies this
      ensures Model() == Reported(old(Model()), j, o)
    {
      var c, job := jobs[j].conv, jobs[j];
      var conv := convs[c];
      jobs := jobs[j := job.(phase := Ended)];
      convs := convs[c := conv.(reports := conv.reports + if job.meta.parent.Some? then [o] else [],
                                holder := if job.checkpointed then conv.holder else Over(o))];
      if job.meta.parent.Some? {
        OnChildComplete(job.meta.parent.value, c, o);
      }
    }

    /** One chunk or suspension of the stream. */
    method Consume(j: nat, e: Event, parts: seq<string>, suspended: bool) returns (parts': seq<string>, suspended': bool)
      requires Model().Has(j) && jobs[j].phase == Streaming(parts, suspended) && Enabled(Model(), ActionOf(j, e))
      modifies this
      ensures Model() == Step(old(Model()), ActionOf(j, e))
      ensures Model().Has(j) && jobs[j].phase == Streaming(parts', suspended')
      ensures jobs[j].checkpointed == (old(jobs[j].checkpointed) || e.Suspend?)
      ensures suspended' == (suspended || e == Say(DelegationPending))
      ensures parts' == parts + if e.Say? && e.chunk.Content? && e.chunk.text != "" then [e.chunk.text] else []
      ensures jobs[j].conv == old(jobs[j]).conv && jobs[j].meta == old(jobs[j]).meta
      ensures Silent(old(convs)[old(jobs[j]).conv], convs[jobs[j].conv])
    {
      parts', suspended' := parts, suspended;
      match e
      case Suspend(tools) => SuspendDelegations(j, tools);
      case Say(chunk) =>
        if chunk.Content? && chunk.text != "" {
          parts' := parts' + [chunk.text];
        }
        if chunk.DelegationPending? {
          suspended' := true;
        }
        jobs := jobs[j := jobs[j].(phase := Streaming(parts', suspended'))];
    }

    /** The end of the stream, by itself or by a fault: everything a job does after it. */
    method Finish(j: nat, parts: seq<string>, suspended: bool, fault: Option<string>)
      requires Model().Has(j) && jobs[j].phase == Streaming(parts, suspended) && Enabled(Model(), EndStream(j, fault))
      modifies this
      ensures Model() == Run(old(Model()), [EndStream(j, fault), Terminate(j), Report(j)])
      ensures Model().Has(j) && jobs[j].phase == Ended && jobs[j].conv == old(jobs[j]).conv
      ensures fault == None && suspended ==>
                jobs[j].status == SUSPENDED && Silent(old(convs)[jobs[j].conv], convs[jobs[j].conv])
      ensures fault != None ==>
                jobs[j].status == FAILED
                && Spoke(old(convs)[jobs[j].conv], convs[jobs[j].conv], old(jobs[j]).meta, Failed(fault.value))
      ensures fault == None && !suspended ==>
                jobs[j].status == COMPLETED
                && Spoke(old(convs)[jobs[j].conv], convs[jobs[j].conv], old(jobs[j]).meta, Answered(Concat(parts)))
    {
      RunFirst(Model(), EndStream(j, fault), [Terminate(j), Report(j)]);
      if fault.None? && suspended {
        jobs := jobs[j := jobs[j].(phase := Ended, status := SUSPENDED)];
        NothingLeft(Model(), j);
      } else {
        var o := if fault.Some? then Failed(fault.value) else Answered(Concat(parts));
        EndingSpeaks(Model(), j, o);
        hide Ending, Terminated, Reported, Spoke, Concat;
        Publish(j, o);
        RunFirst(Model(), Terminate(j), [Report(j)]);
        TerminateExecution(j, o);
        RunFirst(Model(), Report(j), []);
        ReportToParent(j, o);
      }
    }

    /** A message or delegate-resume job from start to end, nobody else running. */
    method ExecuteJob(j: nat, stream: seq<Event>, fault: Option<string>)
      requires Model().Has(j) && jobs[j].phase.Queued? && !jobs[j].checkpointed && Orderly(stream, fault, false, false)
      modifies this
      ensures Model() == Run(old(Model()), [Start(j)] + Trace(j, stream, fault))
      ensures Model().Has(j) && jobs[j].phase == Ended && jobs[j].conv == old(jobs[j]).conv
      ensures fault == None && Pends(stream) ==>
                jobs[j].status == SUSPENDED && Silent(old(convs)[jobs[j].conv], convs[jobs[j].conv])
      ensures fault != None ==>
                jobs[j].status == FAILED
                && Spoke(old(convs)[jobs[j].conv], convs[jobs[j].conv], old(jobs[j]).meta, Failed(fault.value))
      ensures fault == None && !Pends(stream) ==>
                jobs[j].status == COMPLETED
                && Spoke(old(convs)[jobs[j].conv], convs[jobs[j].conv], old(jobs[j]).meta, Answered(Words(stream)))
    {
      hide Run, Concat, Words, Pends, Silent, Spoke, Orderly, Trace;
      RunFirst(Model(), Start(j), Trace(j, stream, fault));
      var parts: seq<string>, suspended := [], false;
      jobs := jobs[j := jobs[j].(phase := Streaming(parts, suspended), status := RUNNING)];
      ghost var started, c := Model(), jobs[j].conv;
      NothingRead(stream, convs[c]);
      for n := 0 to |stream|
        invariant Model().Has(j) && jobs[j].phase == Streaming(parts, suspended)
        invariant Orderly(stream[n..], fault, jobs[j].checkpointed, suspended)
        invariant Run(Model(), Trace(j, stream[n..], fault)) == Run(started, Trace(j, stream, fault))
        invariant jobs[j].conv == c == old(jobs[j]).conv && jobs[j].meta == old(jobs[j]).meta
        invariant Silent(old(convs)[c], convs[c])
        invariant Concat(parts) + Words(stream[n..]) == Words(stream)
        invariant suspended <==> Pends(stream[..n])
      {
        OrderlyNext(Model(), j, stream, n, fault, jobs[j].checkpointed, parts, suspended);
        WordsNext(stream, n, parts);
        SilentOn(old(convs)[c], convs[c]);
        RunFirst(Model(), ActionOf(j, stream[n]), Trace(j, stream[n + 1..], fault));
        parts, suspended := Consume(j, stream[n], parts, suspended);
      }
      NothingRead([], convs[c]);
      assert stream[..|stream|] == stream && stream[|stream|..] == [];
      OrderlyEnd(fault, jobs[j].checkpointed, suspended, j);
      SilentOn(old(convs)[c], convs[c]);
      Finish(j, parts, suspended, fault);
    }
  }

  lemma NothingRead(stream: seq<Event>, conv: Conv)
    ensures stream[0..] == stream && stream[..0] == [] && !Pends([]) && Silent(conv, conv)
    ensures Concat([]) + Words(stream) == Words(stream) && Words([]) == "" && forall s: string :: s + "" == s
  {}

  lemma SilentOn(a: Conv, b: Conv)
    requires Silent(a, b)
    ensures forall c :: Silent(b, c) ==> Silent(a, c)
    ensures forall c, meta, o :: Spoke(b, c, meta, o) ==> Spoke(a, c, meta, o)
  {}

  lemma OrderlyEnd(fault: Option<string>, checkpointed: bool, suspended: bool, j: nat)
    ensures Orderly([], fault, checkpointed, suspended) ==> fault.Some? || (checkpointed <==> suspended)
    ensures Trace(j, [], fault) == [EndStream(j, fault), Terminate(j), Report(j)]
  {}

  lemma OrderlyNext(s: State, j: nat, stream: seq<Event>, n: nat, fault: Option<string>, checkpointed: bool, parts: seq<string>,
                    suspended: bool)
    requires n < |stream| && Orderly(stream[n..], fault, checkpointed, suspended)
    requires s.Has(j) && s.jobs[j].phase == Streaming(parts, suspended) && s.jobs[j].checkpointed == checkpointed
    ensures Enabled(s, ActionOf(j, stream[n]))
    ensures Orderly(stream[n + 1..], fault, checkpointed || stream[n].Suspend?, suspended || stream[n] == Say(DelegationPending))
    ensures Trace(j, stream[n..], fault) == [ActionOf(j, stream[n])] + Trace(j, stream[n + 1..], fault)
    ensures Pends(stream[..n + 1]) <==> Pends(stream[..n]) || stream[n] == Say(DelegationPending)
  {
    assert stream[n..][0] == stream[n] && stream[n..][1..] == stream[n + 1..];
    if Pends(stream[..n]) {
      var i :| 0 <= i < n && stream[..n][i] == Say(DelegationPending);
      assert stream[..n + 1][i] == Say(DelegationPending);
    }
    if Pends(stream[..n + 1]) && stream[n] != Say(DelegationPending) {
      var i :| 0 <= i < n + 1 && stream[..n + 1][i] == Say(DelegationPending);
      assert stream[..n][i] == Say(DelegationPending);
    }
    if stream[n] == Say(DelegationPending) {
      assert stream[..n + 1][n] == Say(DelegationPending);
    }
  }

  lemma WordsNext(stream: seq<Event>, n: nat, parts: seq<string>)
    requires n < |stream|
    ensures var e := stream[n];
            var more := if e.Say? && e.chunk.Content? && e.chunk.text != "" then [e.chunk.text] else [];
            Concat(parts + more) + Words(stream[n + 1..]) == Concat(parts) + Words(stream[n..])
  {
    assert stream[n..][0] == stream[n] && stream[n..][1..] == stream[n + 1..];
    var e := stream[n];
    if e.Say? && e.chunk.Content? && e.chunk.text != "" {
      assert (parts + [e.chunk.text])[..|parts|] == parts;
    } else {
      assert parts + [] == parts;
    }
  }

  /** What a job does after its stream: signal, terminate, report. */
  lemma EndingSpeaks(s: State, j: nat, o: Outcome)
    requires s.Has(j)
    ensures var t := Ending(s, j, o);
            && t.Has(j) && Terminated(t, j, o).Has(j)
            && var u := Reported(Terminated(t, j, o), j, o);
               && u.Has(j) && u.jobs[j].phase == Ended && u.jobs[j].conv == s.jobs[j].conv
               && u.jobs[j].status == (if o.Answered? then COMPLETED else FAILED)
               && Spoke(s.convs[s.jobs[j].conv], u.convs[s.jobs[j].conv], s.jobs[j].meta, o)
  {
    var t := Terminated(Ending(s, j, o), j, o);
    var c := s.jobs[j].conv;
    assert s.convs[c].terminations + [] == s.convs[c].terminations;
    assert t.jobs[j].meta == s.jobs[j].meta && t.jobs[j].conv == c;
    ReportingSpeaks(t, j, o);
  }

  lemma ReportingSpeaks(s: State, j: nat, o: Outcome)
    requires s.Has(j)
    ensures var u, c := Reported(s, j, o), s.jobs[j].conv;
            && u.Has(j) && u.jobs[j].phase == Ended && u.jobs[j].conv == c && u.jobs[j].status == s.jobs[j].status
            && u.convs[c].meta == s.convs[c].meta && u.convs[c].signals == s.convs[c].signals
            && u.convs[c].terminations == s.convs[c].terminations
            && u.convs[c].reports == s.convs[c].reports + if s.jobs[j].meta.parent == None then [] else [o]
  {}

  lemma NothingLeft(s: State, j: nat)
    requires s.Has(j) && s.jobs[j].phase.Ended?
    ensures Run(s, [Terminate(j), Report(j)]) == s
  {
    RunFirst(s, Terminate(j), [Report(j)]);
    RunFirst(s, Report(j), []);
  }
}
