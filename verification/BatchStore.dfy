/** The rows the protocol updates in place, one method per database step, each proved to take the model's step. */
module BatchStore {
  import opened BatchModel

  class Batch {
    var children: seq<ExecStatus>
    var handlers: seq<Phase>
    var cancels: seq<CancelPhase>
    var status: BatchStatus
    var finished: bool
    var callbacks: seq<Callback>
    const hasUrl: bool

    ghost function Model(): State
      reads this
    {
      State(children, handlers, cancels, status, finished, hasUrl, callbacks)
    }

    constructor (cancelCalls: nat, hasUrl: bool)
      ensures Model() == Init(0, cancelCalls, hasUrl)
    {
      this.hasUrl := hasUrl;
      children, handlers, cancels := [], [], seq(cancelCalls, _ => Unasked);
      status, finished, callbacks := Queued, false, [];
      new;
      assert Model() == Init(0, cancelCalls, hasUrl);
    }

    /** Rejects an empty or oversized submission; otherwise one pending child row per input. */
    static method SubmitFunctionBatch(inputs: nat, maxBatchSize: nat, cancelCalls: nat, hasUrl: bool) returns (batch: Batch?)
      ensures batch == null <==> inputs == 0 || inputs > maxBatchSize
      ensures batch != null ==> fresh(batch) && batch.Model() == Init(inputs, cancelCalls, hasUrl)
      ensures batch != null ==>
                && |batch.children| == inputs && (forall i | 0 <= i < inputs :: batch.children[i] == PENDING)
                && batch.status == Queued && !batch.finished && batch.callbacks == []
    {
      if inputs == 0 || inputs > maxBatchSize {
        return null;
      }
      batch := new Batch(cancelCalls, hasUrl);
      for i := 0 to inputs
        invariant batch.Model() == Init(i, cancelCalls, hasUrl)
      {
        batch.AddChild();
        assert batch.children == seq(i + 1, _ => PENDING) && batch.handlers == seq(i + 1, _ => Working);
      }
    }

    method AddChild()
      modifies this`children, this`handlers
      ensures children == old(children) + [PENDING] && handlers == old(handlers) + [Working]
    {
      children, handlers := children + [PENDING], handlers + [Working];
    }

    method Perform(a: Action)
      requires Enabled(Model(), a)
      modifies this
      ensures Model() == Step(old(Model()), a)
    {
      match a
      case Work(i, e) => children := children[i := e];
      case Commit(i, e) =>
        children := children[i := e];
        handlers := handlers[i := Committed];
      case Count(i) =>
        var pending := CountPending(children);
        handlers := handlers[i := if pending > 0 then SawPending else SawNone];
      case Bump(i) =>
        if status == Queued {
          status := Running;
        }
        handlers := handlers[i := Returned(WithPending)];
      case Tally(i) => handlers := handlers[i := Tallied(CountByStatus(children))];
      case Cas(i) =>
        var counts := handlers[i].counts;
        var rowcount := 0;
        if !finished {
          status := DeriveTerminalStatus(counts);
          finished := true;
          rowcount := 1;
        }
        handlers := handlers[i := if rowcount == 0 then Returned(AsLoser) else Won(counts)];
      case Fire(i) =>
        Send(ByHandler(i), status, handlers[i].counts);
        handlers := handlers[i := Returned(AsWinner)];
      case CancelRead(k) => cancels := cancels[k := if finished then Refused else SawOpen];
      case CancelWrite(k) =>
        cancels := cancels[k := Wrote(finished)];
        children := CancelChildren(children);
        status := Cancelled;
        finished := true;
      case CancelCount(k) =>
        var pending := CountPending(children);
        var over := cancels[k].overwrote;
        cancels := cancels[k := if pending == 0 && hasUrl then Firing(over) else Done(over, false)];
      case CancelFire(k) =>
        Send(ByCancel(k), Cancelled, CountByStatus(children));
        cancels := cancels[k := Done(cancels[k].overwrote, true)];
    }

    method Send(source: Source, status: BatchStatus, counts: Counts)
      modifies this`callbacks
      ensures Model() == old(Model()).Send(source, status, counts)
    {
      if hasUrl {
        callbacks := callbacks + [Callback(source, status, counts)];
      }
    }

    /** Any schedule, step by step; a step whose participant is not at that point is passed over. */
    method Execute(schedule: seq<Action>)
      modifies this
      ensures Model() == Run(old(Model()), schedule)
    {
      for n := 0 to |schedule|
        invariant Run(Model(), schedule[n..]) == Run(old(Model()), schedule)
      {
        assert schedule[n..][0] == schedule[n] && schedule[n..][1..] == schedule[n + 1..];
        var enabled := CanPerform(schedule[n]);
        if enabled {
          Perform(schedule[n]);
        }
      }
    }

    method CanPerform(a: Action) returns (enabled: bool)
      ensures enabled <==> Enabled(Model(), a)
    {
      enabled := Enabled(State(children, handlers, cancels, status, finished, hasUrl, callbacks), a);
    }

    /** One undisturbed call of the completion hook for a child that has just committed. */
    method OnExecutionTerminated(i: nat)
      requires i < |handlers| && handlers[i] == Committed && |children| == |handlers|
      modifies this
      ensures |handlers| == |old(handlers)| && handlers[i].Returned? && handlers == old(handlers)[i := handlers[i]]
      ensures children == old(children) && cancels == old(cancels)
      ensures CountPending(children) > 0 ==>
                && status == (if old(status) == Queued then Running else old(status))
                && finished == old(finished) && callbacks == old(callbacks)
      ensures CountPending(children) == 0 && old(finished) ==>
                status == old(status) && finished && callbacks == old(callbacks)
      ensures CountPending(children) == 0 && !old(finished) ==>
                && status == DeriveTerminalStatus(CountByStatus(children)) && finished
                && callbacks == old(callbacks) + if hasUrl then [Callback(ByHandler(i), status, CountByStatus(children))] else []
    {
      hide CountPending, CountByStatus, DeriveTerminalStatus;
      Perform(Count(i));
      if handlers[i] == SawPending {
        Perform(Bump(i));
        return;
      }
      Perform(Tally(i));
      Perform(Cas(i));
      if handlers[i].Won? {
        Perform(Fire(i));
      }
    }
  
    /** One undisturbed cancel call; the result is the number of children it cancelled. */
    method CancelBatch(k: nat) returns (cancelledChildren: nat)
      requires k < |cancels| && cancels[k] == Unasked
      modifies this
      ensures handlers == old(handlers)
      ensures old(finished) ==>
                cancelledChildren == 0 && children == old(children) && status == old(status) && finished && callbacks == old(callbacks)
      ensures !old(finished) ==>
                && |children| == |old(children)| && status == Cancelled && finished
                && (forall i | 0 <= i < |children| ::
                      children[i] == if old(children)[i] in {PENDING, AWAITING_INPUT} then CANCELLED else old(children)[i])
                && cancelledChildren == |Changed(old(children), children)|
                && CountPending(children) == |Those(old(children), RUNNING)|
                && callbacks == old(callbacks) +
                     if hasUrl && CountPending(children) == 0 then [Callback(ByCancel(k), Cancelled, CountByStatus(children))] else []
    {
      hide CountPending, DeriveTerminalStatus, Changed, Those;
      CancelExactly(children);
      cancelledChildren := 0;
      Perform(CancelRead(k));
      if cancels[k] == SawOpen {
        cancelledChildren := CountByStatus(children).pending + CountByStatus(children).awaiting;
        Perform(CancelWrite(k));
        Perform(CancelCount(k));
        if cancels[k].Firing? {
          Perform(CancelFire(k));
        }
      }
    }
  }
}
