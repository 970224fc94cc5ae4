/** The batch completion protocol: one handler per child, any number of cancel calls, interleaved at every database step. */
module BatchModel {
  datatype ExecStatus = PENDING | RUNNING | AWAITING_INPUT | COMPLETED | FAILED | CANCELLED
  {
    predicate Terminal() { COMPLETED? || FAILED? || CANCELLED? }

    predicate Cancellable() { PENDING? || AWAITING_INPUT? }
  }

  datatype BatchStatus = Queued | Running | Completed | Partial | Failed | Cancelled
  {
    predicate Terminal() { !Queued? && !Running? }
  }

  /** Children per status, as grouped by the database. */
  datatype Counts = Counts(pending: nat, running: nat, awaiting: nat, completed: nat, failed: nat, cancelled: nat)
  {
    function TotalTerminal(): nat { completed + failed + cancelled }
  }

  function CountByStatus(children: seq<ExecStatus>): Counts {
    var m := multiset(children);
    Counts(m[PENDING], m[RUNNING], m[AWAITING_INPUT], m[COMPLETED], m[FAILED], m[CANCELLED])
  }

  function CountPending(children: seq<ExecStatus>): nat {
    var c := CountByStatus(children);
    c.pending + c.running + c.awaiting
  }

  function DeriveTerminalStatus(c: Counts): BatchStatus {
    if c.TotalTerminal() == 0 then Failed
    else if c.cancelled > 0 && c.completed == 0 && c.failed == 0 then Cancelled
    else if c.completed == c.TotalTerminal() then Completed
    else if c.failed == c.TotalTerminal() then Failed
    else Partial
  }

  /** Where the termination handler of one child stands, with what it has read so far. */
  datatype Phase =
    | Working
    | Committed
    | SawPending
    | SawNone
    | Tallied(counts: Counts)
    | Won(counts: Counts)
    | Returned(exit: Exit)
  {
    predicate HasWon() { Won? || (Returned? && exit.AsWinner?) }

    /** It counted no pending child. */
    predicate Past() { !Working? && !Committed? && !SawPending? && this != Returned(WithPending) }
  }

  datatype Exit = WithPending | AsLoser | AsWinner

  /** `overwrote`: the batch was finished already when this call wrote. */
  datatype CancelPhase =
    | Unasked
    | SawOpen
    | Wrote(overwrote: bool)
    | Firing(overwrote: bool)
    | Refused
    | Done(overwrote: bool, fired: bool)
  {
    predicate HasWritten() { Wrote? || Firing? || Done? }
  }

  datatype Source = ByHandler(i: nat) | ByCancel(k: nat)

  datatype Callback = Callback(source: Source, status: BatchStatus, counts: Counts)

  datatype State = State(
    children: seq<ExecStatus>,
    handlers: seq<Phase>,
    cancels: seq<CancelPhase>,
    status: BatchStatus,
    finished: bool,
    hasUrl: bool,
    callbacks: seq<Callback>)
  {
    predicate Handler(i: nat, p: Phase) { i < |handlers| && handlers[i] == p }

    predicate AtCancel(k: nat, p: CancelPhase) { k < |cancels| && cancels[k] == p }

    function Move(i: nat, p: Phase): State
      requires i < |handlers|
    {
      this.(handlers := handlers[i := p])
    }

    function MoveCancel(k: nat, p: CancelPhase): State
      requires k < |cancels|
    {
      this.(cancels := cancels[k := p])
    }

    function Send(source: Source, status: BatchStatus, counts: Counts): State {
      if hasUrl then this.(callbacks := callbacks + [Callback(source, status, counts)]) else this
    }
  }

  /** One atomic step of one participant. */
  datatype Action =
    | Work(i: nat, e: ExecStatus)
    | Commit(i: nat, e: ExecStatus)
    | Count(i: nat)
    | Bump(i: nat)
    | Tally(i: nat)
    | Cas(i: nat)
    | Fire(i: nat)
    | CancelRead(k: nat)
    | CancelWrite(k: nat)
    | CancelCount(k: nat)
    | CancelFire(k: nat)

  predicate Enabled(s: State, a: Action) {
    match a
    case Work(i, e) => i < |s.children| && s.Handler(i, Working) && !e.Terminal()
    case Commit(i, e) => i < |s.children| && s.Handler(i, Working) && e.Terminal()
    case Count(i) => s.Handler(i, Committed)
    case Bump(i) => s.Handler(i, SawPending)
    case Tally(i) => s.Handler(i, SawNone)
    case Cas(i) => i < |s.handlers| && s.handlers[i].Tallied?
    case Fire(i) => i < |s.handlers| && s.handlers[i].Won?
    case CancelRead(k) => s.AtCancel(k, Unasked)
    case CancelWrite(k) => s.AtCancel(k, SawOpen)
    case CancelCount(k) => k < |s.cancels| && s.cancels[k].Wrote?
    case CancelFire(k) => k < |s.cancels| && s.cancels[k].Firing?
  }

  function CancelChildren(children: seq<ExecStatus>): seq<ExecStatus> {
    seq(|children|, i requires 0 <= i < |children| => if children[i].Cancellable() then CANCELLED else children[i])
  }

  /** What each step does; a step that is not enabled changes nothing. */
  function Step(s: State, a: Action): (t: State)
    ensures |t.children| == |s.children| && |t.handlers| == |s.handlers|
    ensures |t.cancels| == |s.cancels| && t.hasUrl == s.hasUrl
  {
    if !Enabled(s, a) then s
    else match a
      case Work(i, e) => s.(children := s.children[i := e])
      case Commit(i, e) => s.(children := s.children[i := e]).Move(i, Committed)
      case Count(i) => s.Move(i, if CountPending(s.children) > 0 then SawPending else SawNone)
      case Bump(i) => s.(status := if s.status == Queued then Running else s.status).Move(i, Returned(WithPending))
      case Tally(i) => s.Move(i, Tallied(CountByStatus(s.children)))
      case Cas(i) =>
        if s.finished then s.Move(i, Returned(AsLoser))
        else s.(status := DeriveTerminalStatus(s.handlers[i].counts), finished := true).Move(i, Won(s.handlers[i].counts))
      case Fire(i) => s.Send(ByHandler(i), s.status, s.handlers[i].counts).Move(i, Returned(AsWinner))
      case CancelRead(k) => s.MoveCancel(k, if s.finished then Refused else SawOpen)
      case CancelWrite(k) =>
        s.(children := CancelChildren(s.children), status := Cancelled, finished := true).MoveCancel(k, Wrote(s.finished))
      case CancelCount(k) =>
        var over := s.cancels[k].overwrote;
        s.MoveCancel(k, if CountPending(s.children) == 0 && s.hasUrl then Firing(over) else Done(over, false))
      case CancelFire(k) =>
        s.Send(ByCancel(k), Cancelled, CountByStatus(s.children)).MoveCancel(k, Done(s.cancels[k].overwrote, true))
  }

  function Run(s: State, actions: seq<Action>): (t: State)
    ensures |t.children| == |s.children| && |t.handlers| == |s.handlers|
    ensures |t.cancels| == |s.cancels| && t.hasUrl == s.hasUrl
    decreases actions
  {
    if actions == [] then s else Run(Step(s, actions[0]), actions[1..])
  }

  /** A batch just submitted: every child pending, every handler and cancel call still to come. */
  function Init(total: nat, cancels: nat, hasUrl: bool): State {
    State(seq(total, _ => PENDING), seq(total, _ => Working), seq(cancels, _ => Unasked), Queued, false, hasUrl, [])
  }

  // ---- Counting ----

  /** Nothing is lost between the statuses: the counts reported for a batch add up to its total. */
  lemma {:induction false} CountsAddUp(children: seq<ExecStatus>)
    ensures var c := CountByStatus(children);
            c.completed + c.failed + c.cancelled + c.running + (c.pending + c.awaiting) == |children|
  {
    if children == [] {
      assert forall e: ExecStatus :: e !in multiset(children);
    } else {
      var last := |children| - 1;
      assert children == children[..last] + [children[last]];
      CountsAddUp(children[..last]);
      assert multiset(children) == multiset(children[..last]) + multiset{children[last]};
      assert forall e: ExecStatus ::
        multiset(children)[e] == multiset(children[..last])[e] + if e == children[last] then 1 else 0;
    }
  }

  /** The children with a status, by their places. */
  function Those(children: seq<ExecStatus>, e: ExecStatus): set<nat> {
    set i: nat | i < |children| && children[i] == e
  }

  lemma OneMore(children: seq<ExecStatus>, last: ExecStatus, e: ExecStatus)
    ensures |Those(children + [last], e)| == |Those(children, e)| + if last == e then 1 else 0
  {
    var before := Those(children, e);
    assert Those(children + [last], e) == if last == e then before + {|children|} else before;
  }

  lemma {:induction false} CountedByPlace(children: seq<ExecStatus>, e: ExecStatus)
    ensures multiset(children)[e] == |Those(children, e)|
  {
    hide Those;
    if children == [] {
      NobodyCounted(e);
    } else {
      var last := |children| - 1;
      assert children == children[..last] + [children[last]];
      CountedByPlace(children[..last], e);
      OneMore(children[..last], children[last], e);
    }
  }

  lemma NobodyCounted(e: ExecStatus)
    ensures Those([], e) == {}
  {}

  /** Each count is the number of children with that status. */
  lemma CountsExactly(children: seq<ExecStatus>)
    ensures var c := CountByStatus(children);
            && c.pending == |Those(children, PENDING)| && c.running == |Those(children, RUNNING)|
            && c.awaiting == |Those(children, AWAITING_INPUT)| && c.completed == |Those(children, COMPLETED)|
            && c.failed == |Those(children, FAILED)| && c.cancelled == |Those(children, CANCELLED)|
    ensures CountPending(children)
         == |Those(children, PENDING)| + |Those(children, RUNNING)| + |Those(children, AWAITING_INPUT)|
  {
    forall e: ExecStatus ensures multiset(children)[e] == |Those(children, e)| {
      CountedByPlace(children, e);
    }
    hide Those;
  }

  /** A cancel takes exactly the children that are waiting to start or waiting for input; those that run are left to run. */
  lemma CancelExactly(children: seq<ExecStatus>)
    ensures var after := CancelChildren(children);
            && |after| == |children|
            && (forall i | 0 <= i < |children| ::
                  after[i] == if children[i] == PENDING || children[i] == AWAITING_INPUT then CANCELLED else children[i])
            && CountByStatus(children).pending + CountByStatus(children).awaiting == |Changed(children, after)|
            && (forall i | 0 <= i < |children| :: after[i].Terminal() <==> children[i] != RUNNING)
            && CountPending(after) == |Those(children, RUNNING)|
  {
    hide CountByStatus, CountPending;
    var after := CancelChildren(children);
    CountsExactly(children);
    CountsExactly(after);
    assert Those(after, PENDING) == {} && Those(after, AWAITING_INPUT) == {};
    assert Those(after, RUNNING) == Those(children, RUNNING);
    assert Changed(children, after) == Those(children, PENDING) + Those(children, AWAITING_INPUT);
    assert Those(children, PENDING) !! Those(children, AWAITING_INPUT);
  }

  function Changed(before: seq<ExecStatus>, after: seq<ExecStatus>): set<nat>
    requires |before| == |after|
  {
    set i: nat | i < |before| && after[i] != before[i]
  }

  lemma NonePending(children: seq<ExecStatus>)
    ensures CountPending(children) == 0 <==> forall i | 0 <= i < |children| :: children[i].Terminal()
  {}

  /** What the derived status says about the children themselves. */
  lemma DeriveMeaning(children: seq<ExecStatus>)
    requires children != [] && forall i | 0 <= i < |children| :: children[i].Terminal()
    ensures var status := DeriveTerminalStatus(CountByStatus(children));
            && status.Terminal()
            && (status == Completed <==> forall i | 0 <= i < |children| :: children[i] == COMPLETED)
            && (status == Failed <==> forall i | 0 <= i < |children| :: children[i] == FAILED)
            && (status == Cancelled <==> forall i | 0 <= i < |children| :: children[i] == CANCELLED)
  {
    CountsAddUp(children);
    NonePending(children);
    OnlyStatus(children, COMPLETED);
    OnlyStatus(children, FAILED);
    OnlyStatus(children, CANCELLED);
  }

  lemma {:induction false} OnlyStatus(children: seq<ExecStatus>, e: ExecStatus)
    ensures multiset(children)[e] <= |children|
    ensures multiset(children)[e] == |children| <==> forall i | 0 <= i < |children| :: children[i] == e
  {
    if children != [] {
      var last := |children| - 1;
      assert children == children[..last] + [children[last]];
      OnlyStatus(children[..last], e);
    }
  }
}
