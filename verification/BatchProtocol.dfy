/** What every interleaving of the batch protocol keeps, and where it ends. */
module BatchProtocol {
  import opened Strings
  import opened BatchModel

  ghost predicate AllTerminal(s: State) {
    forall i | 0 <= i < |s.children| :: s.children[i].Terminal()
  }

  predicate AllReturned(s: State) {
    && (forall i | 0 <= i < |s.handlers| :: s.handlers[i].Returned?)
    && (forall k | 0 <= k < |s.cancels| :: s.cancels[k].Refused? || s.cancels[k].Done?)
  }

  // ---- Safety with any number of cancel calls ----

  /** A participant that turned the batch from unfinished to finished. */
  predicate Finisher(s: State, p: Source) {
    match p
    case ByHandler(i) => i < |s.handlers| && s.handlers[i].HasWon()
    case ByCancel(k) => k < |s.cancels| && s.cancels[k].HasWritten() && !s.cancels[k].overwrote
  }

  /** A participant whose callback has gone out. */
  predicate Fired(s: State, p: Source) {
    match p
    case ByHandler(i) => i < |s.handlers| && s.handlers[i] == Returned(AsWinner)
    case ByCancel(k) => k < |s.cancels| && s.cancels[k].Done? && s.cancels[k].fired
  }

  predicate Sent(s: State, p: Source) {
    exists j | 0 <= j < |s.callbacks| :: s.callbacks[j].source == p
  }

  ghost predicate Shape(s: State) {
    && |s.handlers| == |s.children|
    && (s.finished <==> s.status.Terminal())
    && (forall i | 0 <= i < |s.handlers| && !s.handlers[i].Working? :: s.children[i].Terminal())
  }

  /** The batch is finished exactly when somebody finished it, and nobody else did. */
  ghost predicate OneFinisher(s: State) {
    && (s.finished <==> exists p :: Finisher(s, p))
    && (forall p, q :: Finisher(s, p) && Finisher(s, q) ==> p == q)
  }

  /** Each participant that fired is in the log exactly once, and nobody else is. */
  ghost predicate Accounted(s: State) {
    && (forall i, j | 0 <= i < j < |s.callbacks| :: s.callbacks[i].source != s.callbacks[j].source)
    && (forall p :: Sent(s, p) <==> s.hasUrl && Fired(s, p))
    && (forall k | 0 <= k < |s.cancels| && (s.cancels[k].Firing? || (s.cancels[k].Done? && s.cancels[k].fired)) :: s.hasUrl)
  }

  lemma ShapeKept(s: State, a: Action)
    requires Shape(s)
    ensures Shape(Step(s, a))
  {
    hide CountPending, CountByStatus, DeriveTerminalStatus;
    if Enabled(s, a) && a.Cas? {
      DerivedIsTerminal(s.handlers[a.i].counts);
    }
  }

  lemma DerivedIsTerminal(c: Counts)
    ensures DeriveTerminalStatus(c).Terminal()
  {}

  /** Who finishes the batch in this step. */
  function Newcomer(s: State, a: Action): Option<Source> {
    if !Enabled(s, a) || s.finished then None
    else match a
      case Cas(i) => Some(ByHandler(i))
      case CancelWrite(k) => Some(ByCancel(k))
      case _ => None
  }

  lemma FinisherStep(s: State, a: Action, p: Source)
    ensures Finisher(Step(s, a), p) <==> Finisher(s, p) || Newcomer(s, a) == Some(p)
  {
    hide CountPending, CountByStatus, DeriveTerminalStatus;
    if Enabled(s, a) {
      match a
      case Cas(i) =>
      case Count(i) =>
      case Fire(i) =>
      case CancelWrite(k) =>
      case CancelCount(k) =>
      case _ =>
    }
  }

  lemma FinisherKept(s: State, a: Action)
    requires Shape(s) && OneFinisher(s)
    ensures OneFinisher(Step(s, a))
  {
    var s' := Step(s, a);
    forall p ensures Finisher(s', p) <==> Finisher(s, p) || Newcomer(s, a) == Some(p) {
      FinisherStep(s, a, p);
    }
    if s'.finished {
      if s.finished {
        var p :| Finisher(s, p);
        assert Finisher(s', p);
      } else {
        assert Finisher(s', Newcomer(s, a).value);
      }
    }
  }

  /** Who fires in this step. */
  function Sender(s: State, a: Action): Option<Source> {
    if !Enabled(s, a) then None
    else match a
      case Fire(i) => Some(ByHandler(i))
      case CancelFire(k) => Some(ByCancel(k))
      case _ => None
  }

  lemma FiredStep(s: State, a: Action, p: Source)
    ensures Fired(Step(s, a), p) <==> Fired(s, p) || Sender(s, a) == Some(p)
    ensures Sender(s, a) == Some(p) ==> !Fired(s, p)
  {
    hide CountPending, CountByStatus, DeriveTerminalStatus;
  }

  lemma SentStep(s: State, a: Action, p: Source)
    ensures Sent(Step(s, a), p) <==> Sent(s, p) || (s.hasUrl && Sender(s, a) == Some(p))
  {
    var s' := Step(s, a);
    if s'.callbacks != s.callbacks {
      assert s'.callbacks[|s.callbacks|].source == Sender(s, a).value;
    }
    if j :| 0 <= j < |s.callbacks| && s.callbacks[j].source == p {
      assert s'.callbacks[j].source == p;
    }
  }

  lemma AccountedKept(s: State, a: Action)
    requires Accounted(s)
    ensures Accounted(Step(s, a))
  {
    var s' := Step(s, a);
    forall p ensures Sent(s', p) <==> s'.hasUrl && Fired(s', p) {
      FiredStep(s, a, p);
      SentStep(s, a, p);
    }
    if s'.callbacks != s.callbacks {
      var p := Sender(s, a).value;
      FiredStep(s, a, p);
      assert !Sent(s, p);
    }
  }

  /** Kept by every step, whatever the interleaving and however many cancel calls. */
  ghost predicate Safe(s: State) {
    Shape(s) && OneFinisher(s) && Accounted(s)
  }

  lemma InitSafe(total: nat, cancels: nat, hasUrl: bool)
    ensures Safe(Init(total, cancels, hasUrl))
  {}

  lemma {:induction false} RunSafe(s: State, actions: seq<Action>)
    requires Safe(s)
    ensures Safe(Run(s, actions))
    ensures s.finished ==> Run(s, actions).finished
    decreases actions
  {
    hide Shape, OneFinisher, Accounted;
    if actions != [] {
      ShapeKept(s, actions[0]);
      FinisherKept(s, actions[0]);
      AccountedKept(s, actions[0]);
      RunSafe(Step(s, actions[0]), actions[1..]);
    }
  }

  /** Status is terminal exactly when the batch is finished, for good; and the reported counts add up to the total. */
  lemma StatusAndCounts(total: nat, cancels: nat, hasUrl: bool, before: seq<Action>, after: seq<Action>)
    ensures var s := Run(Init(total, cancels, hasUrl), before);
            var t := Run(s, after);
            && (t.status.Terminal() <==> t.finished)
            && (s.status.Terminal() ==> t.status.Terminal())
            && var c := CountByStatus(t.children);
               c.completed + c.failed + c.cancelled + c.running + (c.pending + c.awaiting) == total
  {
    InitSafe(total, cancels, hasUrl);
    RunSafe(Init(total, cancels, hasUrl), before);
    var s := Run(Init(total, cancels, hasUrl), before);
    RunSafe(s, after);
    CountsAddUp(Run(s, after).children);
  }

  /** Every participant that has sent its callback. */
  ghost function FiredSet(s: State): set<Source> {
    (set i | 0 <= i < |s.handlers| && s.handlers[i] == Returned(AsWinner) :: ByHandler(i))
    + (set k | 0 <= k < |s.cancels| && s.cancels[k].Done? && s.cancels[k].fired :: ByCancel(k))
  }

  /** The exact number of callbacks: one for the handler that won, one for each cancel call that found nothing pending. */
  lemma CallbacksCounted(s: State)
    requires Accounted(s) && s.hasUrl
    ensures |s.callbacks| == |FiredSet(s)|
  {
    var sources := seq(|s.callbacks|, j requires 0 <= j < |s.callbacks| => s.callbacks[j].source);
    assert forall j | 0 <= j < |s.callbacks| :: s.callbacks[j].source == sources[j];
    forall p ensures p in sources <==> p in FiredSet(s) {
      assert Sent(s, p) <==> Fired(s, p);
    }
    DistinctCount(sources, FiredSet(s));
  }

  lemma {:induction false} DistinctCount(sources: seq<Source>, all: set<Source>)
    requires forall i, j | 0 <= i < j < |sources| :: sources[i] != sources[j]
    requires forall p :: p in sources <==> p in all
    ensures |sources| == |all|
  {
    if sources == [] {
      assert all == {};
    } else {
      var last := |sources| - 1;
      assert sources == sources[..last] + [sources[last]];
      DistinctCount(sources[..last], all - {sources[last]});
    }
  }

  /** At most one callback unless some cancel call wrote over a batch that had finished since it looked. */
  lemma AtMostOnce(s: State)
    requires Safe(s) && forall k | 0 <= k < |s.cancels| && s.cancels[k].HasWritten() :: !s.cancels[k].overwrote
    ensures |s.callbacks| <= 1
  {
    if |s.callbacks| > 1 {
      var p, q := s.callbacks[0].source, s.callbacks[1].source;
      assert Sent(s, p) && Sent(s, q);
      assert Finisher(s, p) && Finisher(s, q);
    }
  }

  // ---- No cancel call: exactly once ----

  /** Handlers that found nothing pending found it for good. */
  ghost predicate Settled(s: State) {
    && s.cancels == [] && |s.handlers| == |s.children|
    && (forall i | 0 <= i < |s.handlers| :: s.handlers[i].Working? <==> !s.children[i].Terminal())
    && (forall i | 0 <= i < |s.handlers| && s.handlers[i].Past() :: AllTerminal(s))
  }

  /** Whatever was read past that point, written to the batch or sent out is what the final children give. */
  ghost predicate Agreed(s: State) {
    && (forall i | 0 <= i < |s.handlers| && (s.handlers[i].Tallied? || s.handlers[i].Won?) ::
          s.handlers[i].counts == CountByStatus(s.children))
    && (forall i | 0 <= i < |s.handlers| && s.handlers[i] == Returned(AsLoser) :: s.finished)
    && (s.finished ==> s.status == DeriveTerminalStatus(CountByStatus(s.children)))
    && (s.callbacks != [] ==> s.finished)
    && (forall j | 0 <= j < |s.callbacks| ::
          s.callbacks[j].status == s.status && s.callbacks[j].counts == CountByStatus(s.children))
  }

  /** Somebody is still to find nothing pending, or has found it: the last child to commit cannot miss it. */
  ghost predicate Awaited(s: State) {
    exists i :: 0 <= i < |s.handlers| && (s.handlers[i].Working? || s.handlers[i].Committed? || s.handlers[i].Past())
  }

  lemma SettledKept(s: State, a: Action)
    requires Settled(s)
    ensures Settled(Step(s, a))
  {
    hide CountPending, CountByStatus, DeriveTerminalStatus;
    if a.Count? {
      NonePending(s.children);
    }
  }

  lemma AgreedKept(s: State, a: Action)
    requires Settled(s) && Agreed(s) && Shape(s) && OneFinisher(s)
    ensures Agreed(Step(s, a))
  {
    hide CountPending, CountByStatus, DeriveTerminalStatus;
    if Enabled(s, a) {
      match a
      case Work(i, _) =>
        WorkingMeansOpen(s, i);
        OpenAgrees(Step(s, a));
      case Commit(i, _) =>
        WorkingMeansOpen(s, i);
        OpenAgrees(Step(s, a));
      case Cas(i) => CasAgrees(s, i);
      case Fire(i) => FireAgrees(s, i);
      case _ =>
    }
  }

  lemma CasAgrees(s: State, i: nat)
    requires Settled(s) && Agreed(s) && Enabled(s, Cas(i))
    ensures Agreed(Step(s, Cas(i)))
  {}

  lemma FireAgrees(s: State, i: nat)
    requires Settled(s) && Agreed(s) && OneFinisher(s) && Enabled(s, Fire(i))
    ensures Agreed(Step(s, Fire(i)))
  {
    hide CountPending, CountByStatus, DeriveTerminalStatus;
    assert Finisher(s, ByHandler(i));
  }

  /** While one child works, nobody is past the count, so nothing has been tallied, finished or sent. */
  lemma WorkingMeansOpen(s: State, i: nat)
    requires Settled(s) && Agreed(s) && OneFinisher(s) && s.Handler(i, Working)
    ensures !s.finished && s.callbacks == [] && forall j | 0 <= j < |s.handlers| :: !s.handlers[j].Past()
  {}

  lemma OpenAgrees(s: State)
    requires !s.finished && s.callbacks == [] && forall j | 0 <= j < |s.handlers| :: !s.handlers[j].Past()
    ensures Agreed(s)
  {}

  lemma AwaitedKept(s: State, a: Action)
    requires Settled(s) && Awaited(s)
    ensures Awaited(Step(s, a))
  {
    hide CountPending, DeriveTerminalStatus, CountByStatus;
    var s' := Step(s, a);
    NonePending(s.children);
    var i :| 0 <= i < |s.handlers| && (s.handlers[i].Working? || s.handlers[i].Committed? || s.handlers[i].Past());
    if Enabled(s, a) && a.Count? && CountPending(s.children) > 0 {
      var j :| 0 <= j < |s.children| && !s.children[j].Terminal();
      assert s'.handlers[j].Working?;
    } else {
      assert s'.handlers[i].Working? || s'.handlers[i].Committed? || s'.handlers[i].Past();
    }
  }

  lemma {:induction false} RunAgreed(s: State, actions: seq<Action>)
    requires Safe(s) && Settled(s) && Agreed(s) && Awaited(s)
    ensures var t := Run(s, actions); Settled(t) && Agreed(t) && Awaited(t)
    decreases actions
  {
    hide Shape, OneFinisher, Accounted, Settled, Agreed, Awaited;
    if actions != [] {
      RunSafe(s, [actions[0]]);
      assert Run(s, [actions[0]]) == Step(s, actions[0]);
      SettledKept(s, actions[0]);
      AgreedKept(s, actions[0]);
      AwaitedKept(s, actions[0]);
      RunAgreed(Step(s, actions[0]), actions[1..]);
    }
  }

  /** One CAS won, the status is derived from the final children, one callback carries both. */
  ghost predicate CompletedOnce(s: State, winner: nat) {
    && s.finished && AllTerminal(s) && winner < |s.handlers|
    && s.status == DeriveTerminalStatus(CountByStatus(s.children))
    && (forall i | 0 <= i < |s.handlers| :: s.handlers[i].HasWon() <==> i == winner)
    && s.callbacks == if s.hasUrl then [Callback(ByHandler(winner), s.status, CountByStatus(s.children))] else []
  }

  lemma RestIsComplete(s: State) returns (winner: nat)
    requires Safe(s) && Settled(s) && Agreed(s) && Awaited(s) && AllReturned(s)
    ensures CompletedOnce(s, winner)
  {
    hide DeriveTerminalStatus, CountByStatus;
    var i :| 0 <= i < |s.handlers| && s.handlers[i].Past();
    assert s.finished by {
      if s.handlers[i].HasWon() { assert Finisher(s, ByHandler(i)); }
    }
    var p :| Finisher(s, p);
    winner := p.i;
    forall j | 0 <= j < |s.handlers| ensures s.handlers[j].HasWon() <==> j == winner {
      assert Finisher(s, ByHandler(j)) <==> s.handlers[j].HasWon();
    }
    AtMostOnce(s);
    assert Fired(s, p);
    assert s.hasUrl ==> Sent(s, p);
    if s.callbacks != [] {
      assert Sent(s, s.callbacks[0].source);
      assert Finisher(s, s.callbacks[0].source);
    }
  }

  /** Every interleaving of a batch nobody cancels, once all handlers have returned, completed it exactly once. */
  lemma ExactlyOnce(total: nat, hasUrl: bool, actions: seq<Action>) returns (winner: nat)
    requires total > 0 && AllReturned(Run(Init(total, 0, hasUrl), actions))
    ensures CompletedOnce(Run(Init(total, 0, hasUrl), actions), winner)
  {
    var start := Init(total, 0, hasUrl);
    InitSafe(total, 0, hasUrl);
    RunSafe(start, actions);
    assert start.handlers[0].Working?;
    RunAgreed(start, actions);
    winner := RestIsComplete(Run(start, actions));
  }

  // ---- What the callbacks say ----

  /** From handler `i` the counts it tallied before it claimed the batch; from a cancel the status Cancelled. */
  predicate Says(c: Callback, i: nat, counts: Counts) {
    (c.source == ByHandler(i) ==> c.counts == counts) && (c.source.ByCancel? ==> c.status == Cancelled)
  }

  ghost predicate Saying(s: State, i: nat, counts: Counts, from: nat) {
    && i < |s.handlers|
    && (s.handlers[i] == Tallied(counts) || s.handlers[i] == Won(counts) || s.handlers[i].Returned?)
    && from <= |s.callbacks| && forall n | from <= n < |s.callbacks| :: Says(s.callbacks[n], i, counts)
  }

  lemma StepSaying(s: State, i: nat, counts: Counts, from: nat, a: Action)
    requires Saying(s, i, counts, from)
    ensures Saying(Step(s, a), i, counts, from)
  {
    hide CountByStatus, CountPending, DeriveTerminalStatus, CancelChildren;
  }

  /** In every run, whatever the others do between the tally and the callback. */
  lemma {:induction false} SentAsTallied(s: State, i: nat, actions: seq<Action>, from: nat)
    requires i < |s.handlers| && s.handlers[i] == SawNone && from == |s.callbacks|
    ensures var counts := CountByStatus(s.children);
            Saying(Run(Step(s, Tally(i)), actions), i, counts, from)
  {
    hide CountByStatus;
    var counts := CountByStatus(s.children);
    var t := Step(s, Tally(i));
    assert t.handlers[i] == Tallied(counts);
    RunSaying(t, i, counts, from, actions);
  }

  lemma {:induction false} RunSaying(s: State, i: nat, counts: Counts, from: nat, actions: seq<Action>)
    requires Saying(s, i, counts, from)
    ensures Saying(Run(s, actions), i, counts, from)
    decreases actions
  {
    hide Saying, Step;
    if actions != [] {
      StepSaying(s, i, counts, from, actions[0]);
      RunSaying(Step(s, actions[0]), i, counts, from, actions[1..]);
    }
  }

  // ---- Every run can be completed ----

  function StepsLeft(p: Phase): nat {
    match p
    case Working => 5
    case Committed => 4
    case SawNone => 3
    case Tallied(_) => 2
    case Won(_) => 1
    case SawPending => 1
    case Returned(_) => 0
  }

  function CancelStepsLeft(c: CancelPhase): nat {
    match c
    case Unasked => 4
    case SawOpen => 3
    case Wrote(_) => 2
    case Firing(_) => 1
    case _ => 0
  }

  function HandlerSteps(handlers: seq<Phase>): nat {
    if handlers == [] then 0 else StepsLeft(handlers[0]) + HandlerSteps(handlers[1..])
  }

  function CancelSteps(cancels: seq<CancelPhase>): nat {
    if cancels == [] then 0 else CancelStepsLeft(cancels[0]) + CancelSteps(cancels[1..])
  }

  lemma {:induction false} HandlerMoves(handlers: seq<Phase>, i: nat, p: Phase)
    requires i < |handlers|
    ensures HandlerSteps(handlers[i := p]) == HandlerSteps(handlers) - StepsLeft(handlers[i]) + StepsLeft(p)
  {
    if i == 0 {
      assert handlers[0 := p][1..] == handlers[1..];
    } else {
      HandlerMoves(handlers[1..], i - 1, p);
      assert handlers[i := p][1..] == handlers[1..][i - 1 := p];
    }
  }

  lemma {:induction false} CancelMoves(cancels: seq<CancelPhase>, k: nat, p: CancelPhase)
    requires k < |cancels|
    ensures CancelSteps(cancels[k := p]) == CancelSteps(cancels) - CancelStepsLeft(cancels[k]) + CancelStepsLeft(p)
  {
    if k == 0 {
      assert cancels[0 := p][1..] == cancels[1..];
    } else {
      CancelMoves(cancels[1..], k - 1, p);
      assert cancels[k := p][1..] == cancels[1..][k - 1 := p];
    }
  }

  /** Steps the participants can still take; only a child's own work is not counted. */
  function Remaining(s: State): nat {
    HandlerSteps(s.handlers) + CancelSteps(s.cancels)
  }

  lemma StepsRunOut(s: State, a: Action)
    requires Enabled(s, a) && !a.Work?
    ensures Remaining(Step(s, a)) < Remaining(s)
  {
    hide CountPending, CountByStatus, DeriveTerminalStatus;
    if a.CancelRead? || a.CancelWrite? || a.CancelCount? || a.CancelFire? {
      CancelMoves(s.cancels, a.k, Step(s, a).cancels[a.k]);
    } else {
      HandlerMoves(s.handlers, a.i, Step(s, a).handlers[a.i]);
    }
  }

  /** While somebody has not returned, somebody can move. */
  lemma SomebodyCanMove(s: State) returns (a: Action)
    requires |s.handlers| == |s.children| && !AllReturned(s)
    ensures Enabled(s, a) && !a.Work?
  {
    if i :| 0 <= i < |s.handlers| && !s.handlers[i].Returned? {
      match s.handlers[i] {
        case Working => a := Commit(i, COMPLETED);
        case Committed => a := Count(i);
        case SawPending => a := Bump(i);
        case SawNone => a := Tally(i);
        case Tallied(_) => a := Cas(i);
        case Won(_) => a := Fire(i);
      }
    } else {
      var k :| 0 <= k < |s.cancels| && !s.cancels[k].Refused? && !s.cancels[k].Done?;
      match s.cancels[k] {
        case Unasked => a := CancelRead(k);
        case SawOpen => a := CancelWrite(k);
        case Wrote(_) => a := CancelCount(k);
        case Firing(_) => a := CancelFire(k);
      }
    }
  }

  /** From every state, some continuation lets everybody return. */
  lemma {:induction false} CanComplete(s: State) returns (actions: seq<Action>)
    requires |s.handlers| == |s.children|
    ensures AllReturned(Run(s, actions))
    decreases Remaining(s)
  {
    hide Enabled, Step;
    actions := [];
    if !AllReturned(s) {
      var a := SomebodyCanMove(s);
      StepsRunOut(s, a);
      var rest := CanComplete(Step(s, a));
      actions := [a] + rest;
    }
  }

  // ---- What cancelling does to the promises ----

  /** Nobody is left who could send a callback or change the status. */
  ghost predicate Frozen(s: State) {
    && s.finished && s.status.Terminal()
    && (forall i | 0 <= i < |s.handlers| :: !s.handlers[i].Won?)
    && (forall k | 0 <= k < |s.cancels| :: s.cancels[k].Unasked? || s.cancels[k].Refused? || s.cancels[k].Done?)
  }

  lemma FrozenStep(s: State, a: Action)
    requires Frozen(s)
    ensures var t := Step(s, a); Frozen(t) && t.callbacks == s.callbacks && t.status == s.status
  {}

  lemma {:induction false} FrozenStays(s: State, actions: seq<Action>)
    requires Frozen(s)
    ensures var t := Run(s, actions); Frozen(t) && t.callbacks == s.callbacks && t.status == s.status
    decreases actions
  {
    hide Frozen, Step;
    if actions != [] {
      FrozenStep(s, actions[0]);
      FrozenStays(Step(s, actions[0]), actions[1..]);
    }
  }

  /** A cancel call that finished the batch over children still running: no callback, then or ever, from them or it. */
  lemma CancelSilencesRunning(s: State, after: seq<Action>)
    requires Safe(s) && |s.cancels| == 1 && s.cancels[0] == Done(false, false)
    ensures Run(s, after).callbacks == [] && Run(s, after).status == s.status
  {
    assert Finisher(s, ByCancel(0));
    forall i | 0 <= i < |s.handlers| ensures !s.handlers[i].HasWon() {
      assert Finisher(s, ByHandler(i)) <==> s.handlers[i].HasWon();
    }
    if s.callbacks != [] {
      assert Sent(s, s.callbacks[0].source);
    }
    FrozenStays(s, after);
  }

  /** The state that lemma speaks of is reached: the child still runs when the cancel call counts. */
  lemma SilencedRun() returns (actions: seq<Action>)
    ensures var s := Run(Init(1, 1, true), actions);
            Safe(s) && s == State([RUNNING], [Working], [Done(false, false)], Cancelled, true, true, [])
  {
    hide CountPending, CountByStatus, DeriveTerminalStatus, Shape, OneFinisher, Accounted;
    var s0 := State([PENDING], [Working], [Unasked], Queued, false, true, []);
    assert Init(1, 1, true) == s0;
    var s1 := s0.(children := [RUNNING]);
    var s2 := s1.(cancels := [SawOpen]);
    var s3 := s2.(cancels := [Wrote(false)], status := Cancelled, finished := true);
    var s4 := s3.(cancels := [Done(false, false)]);
    OneRunning();
    assert Step(s0, Work(0, RUNNING)) == s1;
    assert Step(s1, CancelRead(0)) == s2;
    assert CancelChildren([RUNNING]) == [RUNNING];
    assert Step(s2, CancelWrite(0)) == s3;
    assert Step(s3, CancelCount(0)) == s4;
    actions := [Work(0, RUNNING), CancelRead(0), CancelWrite(0), CancelCount(0)];
    ShortRun(s0, actions, [s1, s2, s3, s4]);
    InitSafe(1, 1, true);
    RunSafe(s0, actions);
  }

  lemma OneRunning()
    ensures CountPending([RUNNING]) == 1
  {}

  const ONE_COMPLETED := Counts(0, 0, 0, 1, 0, 0)

  lemma OneCompleted()
    ensures CountByStatus([COMPLETED]) == ONE_COMPLETED && CountPending([COMPLETED]) == 0
    ensures DeriveTerminalStatus(ONE_COMPLETED) == Completed
  {}

  /** The only child has ended and its callback has gone out, after a cancel call looked and before it writes. */
  function Overtaken(): State {
    State([COMPLETED], [Returned(AsWinner)], [SawOpen], Completed, true, true, [Callback(ByHandler(0), Completed, ONE_COMPLETED)])
  }

  lemma OvertakenRun() returns (before: seq<Action>)
    ensures Run(Init(1, 1, true), before) == Overtaken()
  {
    hide CountPending, CountByStatus, DeriveTerminalStatus;
    OneCompleted();
    var c := ONE_COMPLETED;
    var s0 := State([PENDING], [Working], [Unasked], Queued, false, true, []);
    assert Init(1, 1, true) == s0;
    var s1 := s0.(cancels := [SawOpen]);
    var s2 := s1.(children := [COMPLETED], handlers := [Committed]);
    var s3 := s2.(handlers := [SawNone]);
    var s4 := s3.(handlers := [Tallied(c)]);
    var s5 := s4.(handlers := [Won(c)], status := Completed, finished := true);
    assert Step(s0, CancelRead(0)) == s1 && Step(s1, Commit(0, COMPLETED)) == s2 && Step(s2, Count(0)) == s3;
    assert Step(s3, Tally(0)) == s4 && Step(s4, Cas(0)) == s5 && Step(s5, Fire(0)) == Overtaken();
    before := [CancelRead(0), Commit(0, COMPLETED), Count(0), Tally(0), Cas(0), Fire(0)];
    ShortRun(s0, before, [s1, s2, s3, s4, s5, Overtaken()]);
  }

  /** The cancel call writes all the same: COMPLETED is lost, and a second callback goes out. */
  lemma OverwrittenRun() returns (before: seq<Action>, actions: seq<Action>)
    ensures Run(Init(1, 1, true), before) == Overtaken()
    ensures var s := Run(Overtaken(), actions);
            AllReturned(s) && s.status == Cancelled && |s.callbacks| == 2 && s.children == [COMPLETED]
  {
    hide CountPending, CountByStatus, DeriveTerminalStatus;
    OneCompleted();
    before := OvertakenRun();
    var s6 := Overtaken();
    var s7 := s6.(cancels := [Wrote(true)], status := Cancelled);
    var s8 := s7.(cancels := [Firing(true)]);
    var s9 := s8.(cancels := [Done(true, true)], callbacks := s8.callbacks + [Callback(ByCancel(0), Cancelled, ONE_COMPLETED)]);
    assert Step(s6, CancelWrite(0)) == s7 && Step(s7, CancelCount(0)) == s8 && Step(s8, CancelFire(0)) == s9;
    actions := [CancelWrite(0), CancelCount(0), CancelFire(0)];
    ShortRun(s6, actions, [s7, s8, s9]);
  }

  /** A run spelled out state by state. */
  lemma {:induction false} ShortRun(s: State, actions: seq<Action>, states: seq<State>)
    requires |states| == |actions| > 0 && Step(s, actions[0]) == states[0]
    requires forall j | 0 < j < |states| :: Step(states[j - 1], actions[j]) == states[j]
    ensures Run(s, actions) == states[|states| - 1]
    decreases actions
  {
    hide Step;
    if |actions| > 1 {
      ShortRun(states[0], actions[1..], states[1..]);
    } else {
      assert Run(states[0], []) == states[0];
    }
  }
}
