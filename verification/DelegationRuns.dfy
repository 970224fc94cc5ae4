/** Runs that reach what can go wrong: a late failure that speaks twice or wakes a parent early, a cancelled child. */
module DelegationRuns {
  import opened Strings
  import opened DelegationModel
  import opened DelegationProtocol

  lemma {:induction false} RunSnoc(s: State, schedule: seq<Action>, a: Action)
    requires Enabled(Run(s, schedule), a)
    ensures Run(s, schedule + [a]) == Step(Run(s, schedule), a)
    decreases schedule
  {
    if schedule == [] {
      assert [] + [a] == [a];
    } else {
      assert (schedule + [a])[1..] == schedule[1..] + [a];
      RunSnoc(if Enabled(s, schedule[0]) then Step(s, schedule[0]) else s, schedule[1..], a);
    }
  }

  /** The three steps after a stream. */
  lemma FailAndReport(before: seq<Action>, s: State, j: nat, end: Action) returns (schedule: seq<Action>)
    requires Run(INIT, before) == s && end.EndStream? && end.job == j && Enabled(s, end)
    requires end.fault.Some? || !s.jobs[j].phase.suspended
    ensures var o := if end.fault.Some? then Failed(end.fault.value) else Answered(Concat(s.jobs[j].phase.parts));
            var t := Terminated(Ending(s, j, o), j, o);
            t.Has(j) && Run(INIT, schedule) == Reported(t, j, o)
  {
    RunSnoc(INIT, before, end);
    RunSnoc(INIT, before + [end], Terminate(j));
    RunSnoc(INIT, before + [end] + [Terminate(j)], Report(j));
    schedule := before + [end] + [Terminate(j)] + [Report(j)];
  }

  const ROOT := Meta(Some(0), None)
  const CHILD := Meta(None, Some(Call(0, "call")))

  /** A root conversation that has stored a checkpoint for one call; its stream goes on. */
  lemma RootDelegates() returns (schedule: seq<Action>)
    ensures Run(INIT, schedule) == State(
              [Job(0, ROOT, RUNNING, Streaming([], false), true), Job(1, CHILD, QUEUED, Queued, false)],
              [Checkpoint(0, ROOT, ["call"], 1, true, [], {1})],
              [Conv(ROOT, AtCheckpoint(0), [], [], [], 0), Conv(CHILD, AtJob(1), [], [], [], 0)])
  {
    var submit, start, delegate := Submit(Some(0)), Start(0), Delegate(0, ["call"]);
    RunSnoc(INIT, [], submit);
    RunSnoc(INIT, [] + [submit], start);
    var s := State([Job(0, ROOT, RUNNING, Streaming([], false), false)], [], [Conv(ROOT, AtJob(0), [], [], [], 0)]);
    assert Run(INIT, [] + [submit] + [start]) == s;
    schedule := [] + [submit] + [start] + [delegate];
    RunSnoc(INIT, [] + [submit] + [start], delegate);
    assert Ids(1, 1) == {1};
    assert Step(s, delegate).jobs == [Job(0, ROOT, RUNNING, Streaming([], false), true), Job(1, CHILD, QUEUED, Queued, false)];
    assert Step(s, delegate).convs == [Conv(ROOT, AtCheckpoint(0), [], [], [], 0), Conv(CHILD, AtJob(1), [], [], [], 0)];
  }

  /** The root conversation stores a checkpoint, then its stream fails. */
  lemma LateFailure(error: string) returns (schedule: seq<Action>)
    ensures Run(INIT, schedule) == State(
              [Job(0, ROOT, FAILED, Ended, true), Job(1, CHILD, QUEUED, Queued, false)],
              [Checkpoint(0, ROOT, ["call"], 1, true, [], {1})],
              [Conv(ROOT, AtCheckpoint(0), [Error(error)], [Failed(error)], [], 1), Conv(CHILD, AtJob(1), [], [], [], 0)])
  {
    schedule := RootDelegates();
    schedule := FailAndReport(schedule, Run(INIT, schedule), 0, EndStream(0, Some(error)));
    var s := Run(INIT, schedule);
    assert s.convs[0].signals == [Error(error)] && s.convs[0].terminations == [Failed(error)] && s.convs[0].reports == [];
    assert s.jobs[0] == Job(0, ROOT, FAILED, Ended, true);
  }

  lemma ChildAnswers(before: seq<Action>, error: string) returns (schedule: seq<Action>)
    requires |Run(INIT, before).convs| == 2 && |Run(INIT, before).jobs| == 2 && |Run(INIT, before).checkpoints| == 1
    requires var s := Run(INIT, before);
             && s.jobs[1] == Job(1, CHILD, QUEUED, Queued, false)
             && s.checkpoints[0] == Checkpoint(0, ROOT, ["call"], 1, true, [], {1})
             && s.convs[0] == Conv(ROOT, AtCheckpoint(0), [Error(error)], [Failed(error)], [], 1)
    ensures var s := Run(INIT, schedule);
            && |s.convs| == 2 && |s.jobs| == 3 && s.jobs[2] == Job(0, ROOT, QUEUED, Queued, false)
            && s.convs[0].signals == [Error(error)] && s.convs[0].terminations == [Failed(error)]
  {
    RunSnoc(INIT, before, Start(1));
    schedule := before + [Start(1)];
    schedule := FailAndReport(schedule, Run(INIT, schedule), 1, EndStream(1, None));
  }

  /** Such a failure is reachable: the conversation says Error and, once the child has reported, Done. */
  lemma LateFailureSpeaksTwice(error: string) returns (schedule: seq<Action>)
    ensures var s := Run(INIT, schedule);
            |s.convs| == 2 && s.convs[0].signals == [Error(error), Done] && s.convs[0].terminations == [Failed(error), Answered("")]
  {
    schedule := LateFailure(error);
    schedule := ChildAnswers(schedule, error);
    RunSnoc(INIT, schedule, Start(2));
    schedule := schedule + [Start(2)];
    schedule := FailAndReport(schedule, Run(INIT, schedule), 2, EndStream(2, None));
  }

  /** A cancelled child under a sleeping parent is reachable, with nothing left to happen. */
  lemma CancelledChildRun() returns (schedule: seq<Action>)
    ensures var s := Run(INIT, schedule);
            |s.convs| == 2 && s.convs[1].holder == Lost && s.convs[0].holder == AtCheckpoint(0) && Blocked(s, 0) && Quiet(s)
  {
    schedule := RootDelegates();
    var s := Run(INIT, schedule);
    var announce, suspend, start, cancel := Yield(0, DelegationPending), EndStream(0, None), Start(1), Cancel(1);
    RunSnoc(INIT, schedule, announce);
    RunSnoc(INIT, schedule + [announce], suspend);
    RunSnoc(INIT, schedule + [announce] + [suspend], start);
    RunSnoc(INIT, schedule + [announce] + [suspend] + [start], cancel);
    schedule := schedule + [announce] + [suspend] + [start] + [cancel];
    var t := Run(INIT, schedule);
    assert ChildOf(t, 1, 0) && Blocked(t, 1);
    assert t.jobs[0].phase.Ended? && t.jobs[1].phase.Ended? && |t.jobs| == 2;
  }

  // A late failure counts twice on the row: a parent that wakes while a child is still out.

  const CALL_A := Meta(None, Some(Call(0, "a")))
  const CALL_B := Meta(None, Some(Call(0, "b")))
  const CALL_C := Meta(None, Some(Call(1, "c")))

  /** The root waits for two children. */
  const WAITING_FOR_TWO := State(
    [Job(0, ROOT, RUNNING, Streaming([], false), true), Job(1, CALL_A, QUEUED, Queued, false), Job(2, CALL_B, QUEUED, Queued, false)],
    [Checkpoint(0, ROOT, ["a", "b"], 2, true, [], {1, 2})],
    [Conv(ROOT, AtCheckpoint(0), [], [], [], 0), Conv(CALL_A, AtJob(1), [], [], [], 0), Conv(CALL_B, AtJob(2), [], [], [], 0)])

  /** The first child has delegated in its turn, and then failed. */
  function FailedLate(error: string): State {
    State(
      [WAITING_FOR_TWO.jobs[0], Job(1, CALL_A, FAILED, Ended, true), WAITING_FOR_TWO.jobs[2], Job(3, CALL_C, QUEUED, Queued, false)],
      [Checkpoint(0, ROOT, ["a", "b"], 1, true, [("a", Failed(error))], {2}), Checkpoint(1, CALL_A, ["c"], 1, true, [], {3})],
      [WAITING_FOR_TWO.convs[0], Conv(CALL_A, AtCheckpoint(1), [Error(error)], [], [Failed(error)], 1), WAITING_FOR_TWO.convs[2],
       Conv(CALL_C, AtJob(3), [], [], [], 0)])
  }

  /** The grandchild has answered, and the first child goes on. */
  function Resumed(error: string): State {
    var s := FailedLate(error);
    State(
      [s.jobs[0], s.jobs[1], s.jobs[2], Job(3, CALL_C, COMPLETED, Ended, false), Job(1, CALL_A, QUEUED, Queued, false)],
      [s.checkpoints[0], Checkpoint(1, CALL_A, ["c"], 0, false, [("c", Answered(""))], {})],
      [s.convs[0], s.convs[1].(holder := AtJob(4)), s.convs[2],
       Conv(CALL_C, Over(Answered("")), [Done], [], [Answered("")], 0)])
  }

  lemma WaitForTwo() returns (schedule: seq<Action>)
    ensures Run(INIT, schedule) == WAITING_FOR_TWO
  {
    var submit, start, delegate := Submit(Some(0)), Start(0), Delegate(0, ["a", "b"]);
    RunSnoc(INIT, [], submit);
    RunSnoc(INIT, [] + [submit], start);
    var s := State([Job(0, ROOT, RUNNING, Streaming([], false), false)], [], [Conv(ROOT, AtJob(0), [], [], [], 0)]);
    assert Run(INIT, [] + [submit] + [start]) == s;
    schedule := [] + [submit] + [start] + [delegate];
    RunSnoc(INIT, [] + [submit] + [start], delegate);
    assert Ids(1, 2) == {1, 2};
    assert Step(s, delegate).jobs == WAITING_FOR_TWO.jobs && Step(s, delegate).convs == WAITING_FOR_TWO.convs;
  }

  /** The first child has delegated in its turn. */
  const CHILD_DELEGATED := State(
    [WAITING_FOR_TWO.jobs[0], Job(1, CALL_A, RUNNING, Streaming([], false), true), WAITING_FOR_TWO.jobs[2],
     Job(3, CALL_C, QUEUED, Queued, false)],
    [WAITING_FOR_TWO.checkpoints[0], Checkpoint(1, CALL_A, ["c"], 1, true, [], {3})],
    [WAITING_FOR_TWO.convs[0], WAITING_FOR_TWO.convs[1].(holder := AtCheckpoint(1)), WAITING_FOR_TWO.convs[2],
     Conv(CALL_C, AtJob(3), [], [], [], 0)])

  lemma ChildDelegates(before: seq<Action>) returns (schedule: seq<Action>)
    requires Run(INIT, before) == WAITING_FOR_TWO
    ensures Run(INIT, schedule) == CHILD_DELEGATED
  {
    RunSnoc(INIT, before, Start(1));
    var s, delegate := Step(WAITING_FOR_TWO, Start(1)), Delegate(1, ["c"]);
    RunSnoc(INIT, before + [Start(1)], delegate);
    schedule := before + [Start(1)] + [delegate];
    assert Ids(3, 1) == {3};
    assert Step(s, delegate).jobs == CHILD_DELEGATED.jobs && Step(s, delegate).convs == CHILD_DELEGATED.convs;
  }

  lemma FailLate(before: seq<Action>, error: string) returns (schedule: seq<Action>)
    requires Run(INIT, before) == CHILD_DELEGATED
    ensures Run(INIT, schedule) == FailedLate(error)
  {
    schedule := FailAndReport(before, CHILD_DELEGATED, 1, EndStream(1, Some(error)));
    var t := Reported(Terminated(Ending(CHILD_DELEGATED, 1, Failed(error)), 1, Failed(error)), 1, Failed(error));
    assert t.convs[1] == FailedLate(error).convs[1] && t.checkpoints[0] == FailedLate(error).checkpoints[0];
    assert t.jobs == FailedLate(error).jobs && t.checkpoints == FailedLate(error).checkpoints && t.convs == FailedLate(error).convs;
  }

  lemma Resume(before: seq<Action>, error: string) returns (schedule: seq<Action>)
    requires Run(INIT, before) == FailedLate(error)
    ensures Run(INIT, schedule) == Resumed(error)
  {
    RunSnoc(INIT, before, Start(3));
    var s, o := Step(FailedLate(error), Start(3)), Answered("");
    schedule := FailAndReport(before + [Start(3)], s, 3, EndStream(3, None));
    var t := Reported(Terminated(Ending(s, 3, o), 3, o), 3, o);
    assert t.convs[3] == Resumed(error).convs[3] && t.checkpoints[1] == Resumed(error).checkpoints[1];
    assert t.jobs == Resumed(error).jobs && t.checkpoints == Resumed(error).checkpoints && t.convs == Resumed(error).convs;
  }

  /** The first child reports twice; the row of two calls closes while the second child has not even started. */
  lemma LateFailureWakesEarly(error: string) returns (schedule: seq<Action>)
    ensures var s := Run(INIT, schedule);
            && |s.checkpoints| == 2 && |s.convs| == 4 && |s.jobs| == 6
            && !s.checkpoints[0].open && s.checkpoints[0].awaited == {2} && s.convs[0].holder == AtJob(5)
            && s.convs[2].holder == AtJob(2) && s.jobs[2].phase == Queued
            && s.convs[1].reports == [Failed(error), Answered("")]
  {
    schedule := WaitForTwo();
    schedule := ChildDelegates(schedule);
    schedule := FailLate(schedule, error);
    schedule := Resume(schedule, error);
    RunSnoc(INIT, schedule, Start(4));
    schedule := FailAndReport(schedule + [Start(4)], Step(Resumed(error), Start(4)), 4, EndStream(4, None));
  }
}
