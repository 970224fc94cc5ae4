/** Exactly when a cancel call costs a batch its callback, or gives it a second one. */
module BatchCancel {
  import opened BatchModel
  import opened BatchProtocol

  // ---- Any number of cancel calls: one callback per step that finds its guard open ----

  /** The step is a compare-and-set that finds the batch open, or a cancel call's count that finds nothing pending. */
  predicate Decides(s: State, a: Action) {
    && Enabled(s, a)
    && ((a.Cas? && !s.finished) || (a.CancelCount? && CountPending(s.children) == 0))
  }

  function Decisions(s: State, actions: seq<Action>): nat
    decreases actions
  {
    if actions == [] then 0
    else (if Decides(s, actions[0]) then 1 else 0) + Decisions(Step(s, actions[0]), actions[1..])
  }

  function WonHandlers(handlers: seq<Phase>): nat {
    if handlers == [] then 0 else (if handlers[0].Won? then 1 else 0) + WonHandlers(handlers[1..])
  }

  function FiringCancels(cancels: seq<CancelPhase>): nat {
    if cancels == [] then 0 else (if cancels[0].Firing? then 1 else 0) + FiringCancels(cancels[1..])
  }

  /** Callbacks sent, and those a participant has decided to send. */
  function Committed(s: State): nat { |s.callbacks| + WonHandlers(s.handlers) + FiringCancels(s.cancels) }

  lemma {:induction false} WonMoves(handlers: seq<Phase>, i: nat, p: Phase)
    requires i < |handlers|
    ensures WonHandlers(handlers[i := p])
         == WonHandlers(handlers) - (if handlers[i].Won? then 1 else 0) + (if p.Won? then 1 else 0)
  {
    if i == 0 {
      assert handlers[0 := p][1..] == handlers[1..];
    } else {
      WonMoves(handlers[1..], i - 1, p);
      assert handlers[i := p][1..] == handlers[1..][i - 1 := p];
    }
  }

  lemma {:induction false} FiringMoves(cancels: seq<CancelPhase>, k: nat, p: CancelPhase)
    requires k < |cancels|
    ensures FiringCancels(cancels[k := p])
         == FiringCancels(cancels) - (if cancels[k].Firing? then 1 else 0) + (if p.Firing? then 1 else 0)
  {
    if k == 0 {
      assert cancels[0 := p][1..] == cancels[1..];
    } else {
      FiringMoves(cancels[1..], k - 1, p);
      assert cancels[k := p][1..] == cancels[1..][k - 1 := p];
    }
  }

  lemma StepDecides(s: State, a: Action)
    requires s.hasUrl
    ensures Committed(Step(s, a)) == Committed(s) + if Decides(s, a) then 1 else 0
  {
    hide CountPending, CountByStatus, DeriveTerminalStatus, WonHandlers, FiringCancels;
    if Enabled(s, a) {
      if a.CancelRead? || a.CancelWrite? || a.CancelCount? || a.CancelFire? {
        FiringMoves(s.cancels, a.k, Step(s, a).cancels[a.k]);
      } else if !a.Work? {
        WonMoves(s.handlers, a.i, Step(s, a).handlers[a.i]);
      }
    }
  }

  lemma {:induction false} RunDecides(s: State, actions: seq<Action>)
    requires s.hasUrl
    ensures Committed(Run(s, actions)) == Committed(s) + Decisions(s, actions)
    decreases actions
  {
    hide Committed, Decides, Step;
    if actions != [] {
      StepDecides(s, actions[0]);
      RunDecides(Step(s, actions[0]), actions[1..]);
    }
  }

  lemma {:induction false} NoneWon(handlers: seq<Phase>)
    requires forall i | 0 <= i < |handlers| :: !handlers[i].Won?
    ensures WonHandlers(handlers) == 0
  {
    if handlers != [] {
      NoneWon(handlers[1..]);
    }
  }

  lemma {:induction false} NoneFiring(cancels: seq<CancelPhase>)
    requires forall k | 0 <= k < |cancels| :: !cancels[k].Firing?
    ensures FiringCancels(cancels) == 0
  {
    if cancels != [] {
      NoneFiring(cancels[1..]);
    }
  }

  /** Nobody is about to send, and every cancel call has returned. Handlers need not have: the handler of a child that was
      cancelled while it waited for input is never called. */
  predicate NobodySending(s: State) {
    && (forall i | 0 <= i < |s.handlers| :: !s.handlers[i].Won?)
    && (forall k | 0 <= k < |s.cancels| :: s.cancels[k].Refused? || s.cancels[k].Done?)
  }

  /** However many cancel calls interfere: as many callbacks as steps of the schedule that found their guard open. */
  lemma CallbacksAreDecisions(total: nat, cancels: nat, actions: seq<Action>)
    requires NobodySending(Run(Init(total, cancels, true), actions))
    ensures |Run(Init(total, cancels, true), actions).callbacks| == Decisions(Init(total, cancels, true), actions)
  {
    var start := Init(total, cancels, true);
    var s := Run(start, actions);
    RunDecides(start, actions);
    NoneWon(start.handlers);
    NoneFiring(start.cancels);
    NoneWon(s.handlers);
    NoneFiring(s.cancels);
  }

  // ---- One cancel call ----

  /** Until the cancel call writes, a handler is at work exactly while its child is open, and one past the count has
      seen all children end; and if the call then writes over a finished batch, that is still so. */
  ghost predicate Tracked(s: State) {
    && |s.handlers| == |s.children| && |s.cancels| == 1
    && var c := s.cancels[0];
       && (!c.HasWritten() ==>
             && (forall i | 0 <= i < |s.handlers| :: s.handlers[i].Working? <==> !s.children[i].Terminal())
             && (forall i | 0 <= i < |s.handlers| && s.handlers[i].Past() :: AllTerminal(s)))
       && (c.HasWritten() && c.overwrote ==> AllTerminal(s) && forall i | 0 <= i < |s.handlers| :: !s.handlers[i].Working?)
       && (c.HasWritten() || c.Refused? ==> s.finished)
       && (c.Done? && c.overwrote && s.hasUrl ==> c.fired)
  }

  lemma HandlerTracked(s: State, a: Action)
    requires Tracked(s) && Enabled(s, a) && !(a.CancelRead? || a.CancelWrite? || a.CancelCount? || a.CancelFire?)
    ensures Tracked(Step(s, a))
  {
    hide CountPending, CountByStatus, DeriveTerminalStatus;
    if a.Count? {
      NonePending(s.children);
    }
  }

  /** If the batch is finished before the call writes, a handler finished it. */
  lemma FinishedByHandler(s: State)
    requires Tracked(s) && OneFinisher(s) && s.finished && !s.cancels[0].HasWritten()
    ensures AllTerminal(s) && forall i | 0 <= i < |s.handlers| :: !s.handlers[i].Working?
  {
    var p :| Finisher(s, p);
    assert p.ByHandler? && s.handlers[p.i].Past();
  }

  lemma CancelTracked(s: State, a: Action)
    requires Tracked(s) && OneFinisher(s) && Enabled(s, a) && (a.CancelRead? || a.CancelWrite? || a.CancelCount? || a.CancelFire?)
    ensures Tracked(Step(s, a))
  {
    hide CountPending, CountByStatus, DeriveTerminalStatus;
    if a.CancelWrite? && s.finished {
      FinishedByHandler(s);
    }
    NonePending(s.children);
  }

  lemma {:induction false} RunTracked(s: State, actions: seq<Action>)
    requires Safe(s) && Tracked(s)
    ensures Safe(Run(s, actions)) && Tracked(Run(s, actions))
    decreases actions
  {
    hide Shape, OneFinisher, Accounted, Tracked;
    if actions != [] {
      var a := actions[0];
      RunSafe(s, [a]);
      assert Run(s, [a]) == Step(s, a);
      if Enabled(s, a) {
        if a.CancelRead? || a.CancelWrite? || a.CancelCount? || a.CancelFire? {
          CancelTracked(s, a);
        } else {
          HandlerTracked(s, a);
        }
      }
      RunTracked(Step(s, a), actions[1..]);
    }
  }

  lemma InitTracked(total: nat, hasUrl: bool)
    ensures Safe(Init(total, 1, hasUrl)) && Tracked(Init(total, 1, hasUrl))
  {
    InitSafe(total, 1, hasUrl);
  }

  /** How many callbacks a batch with one cancel call ends with. */
  function Owed(c: CancelPhase): nat {
    match c
    case Done(overwrote, fired) => if overwrote then 2 else if fired then 1 else 0
    case _ => 1
  }

  lemma InFiredSet(s: State, q: Source)
    ensures q in FiredSet(s) <==> Fired(s, q)
  {}

  lemma FiredAtRest(s: State, q: Source)
    requires |s.cancels| == 1 && NobodySending(s)
    ensures Fired(s, q) <==>
            if q.ByHandler? then Finisher(s, q) else q.k == 0 && s.cancels[0].Done? && s.cancels[0].fired
  {}

  /** At rest the batch is finished by a handler, or by a cancel call that did not overwrite. */
  lemma FinisherAtRest(s: State) returns (p: Source)
    requires OneFinisher(s) && Tracked(s) && NobodySending(s)
    ensures Finisher(s, p) && forall q :: Finisher(s, q) ==> q == p
    ensures p.ByCancel? <==> s.cancels[0].Done? && !s.cancels[0].overwrote
    ensures p.ByCancel? ==> p == ByCancel(0)
  {
    p :| Finisher(s, p);
    if s.cancels[0].Done? && !s.cancels[0].overwrote {
      assert Finisher(s, ByCancel(0));
    }
  }

  /** Who has sent a callback. */
  function Senders(p: Source, c: CancelPhase): set<Source> {
    (if p.ByHandler? then {p} else {}) + (if c.Done? && c.fired then {ByCancel(0)} else {})
  }

  lemma SenderAtRest(s: State, p: Source, q: Source)
    requires |s.cancels| == 1 && NobodySending(s) && Finisher(s, p) && forall r :: Finisher(s, r) ==> r == p
    ensures q in FiredSet(s) <==> q in Senders(p, s.cancels[0])
  {
    InFiredSet(s, q);
    FiredAtRest(s, q);
    hide FiredSet, Fired, NobodySending;
  }

  lemma SendersCounted(p: Source, c: CancelPhase)
    requires c.Done? || c.Refused?
    requires p.ByCancel? <==> c.Done? && !c.overwrote
    requires c.Done? && c.overwrote ==> c.fired
    ensures |Senders(p, c)| == Owed(c)
  {}

  lemma OutcomeAtRest(s: State)
    requires Safe(s) && Tracked(s) && NobodySending(s) && s.hasUrl
    ensures |s.callbacks| == Owed(s.cancels[0])
  {
    CallbacksCounted(s);
    var p := FinisherAtRest(s);
    hide Shape, OneFinisher, Accounted, FiredSet, Finisher, Owed, Senders;
    var c := s.cancels[0];
    forall q ensures q in FiredSet(s) <==> q in Senders(p, c) {
      SenderAtRest(s, p, q);
    }
    assert FiredSet(s) == Senders(p, c);
    SendersCounted(p, c);
  }

  /** In every interleaving of a batch and one cancel call: at most two callbacks; two exactly if the call wrote over
      a finished batch, none exactly if it finished the batch itself and found children still pending. */
  lemma OneCancelExactly(total: nat, actions: seq<Action>)
    requires NobodySending(Run(Init(total, 1, true), actions))
    ensures var s := Run(Init(total, 1, true), actions);
            && |s.callbacks| <= 2
            && (|s.callbacks| == 2 <==> s.cancels[0].Done? && s.cancels[0].overwrote)
            && (s.callbacks == [] <==> s.cancels[0] == Done(false, false))
  {
    InitTracked(total, true);
    RunTracked(Init(total, 1, true), actions);
    OutcomeAtRest(Run(Init(total, 1, true), actions));
  }

  /** What the cancel call has found does not change. */
  lemma {:induction false} FindingsStay(s: State, actions: seq<Action>)
    requires |s.cancels| == 1 && s.cancels[0].HasWritten()
    ensures var c, d := s.cancels[0], Run(s, actions).cancels[0];
            && d.HasWritten() && d.overwrote == c.overwrote
            && (c.Firing? && d.Done? ==> d.fired) && (c.Done? ==> d == c)
    ensures s.finished && s.status == Cancelled ==> Run(s, actions).finished && Run(s, actions).status == Cancelled
    decreases actions
  {
    hide CountPending, CountByStatus, DeriveTerminalStatus;
    if actions != [] {
      FindingsStay(Step(s, actions[0]), actions[1..]);
    }
  }

  /** The guard that is missing at the write: a second callback exactly if the batch is finished when the call writes.
      Whatever status it had is lost. */
  lemma SecondCallbackExactly(total: nat, before: seq<Action>, after: seq<Action>)
    requires var s := Run(Init(total, 1, true), before);
             Enabled(s, CancelWrite(0)) && NobodySending(Run(Step(s, CancelWrite(0)), after))
    ensures var s := Run(Init(total, 1, true), before);
            var t := Run(Step(s, CancelWrite(0)), after);
            (|t.callbacks| == 2 <==> s.finished) && t.status == Cancelled
  {
    hide CountPending, CountByStatus, DeriveTerminalStatus;
    InitTracked(total, true);
    RunTracked(Init(total, 1, true), before);
    var s := Run(Init(total, 1, true), before);
    RunTracked(s, [CancelWrite(0)]);
    assert Run(s, [CancelWrite(0)]) == Step(s, CancelWrite(0));
    RunTracked(Step(s, CancelWrite(0)), after);
    FindingsStay(Step(s, CancelWrite(0)), after);
    OutcomeAtRest(Run(Step(s, CancelWrite(0)), after));
  }

  /** No callback at all exactly if children are still pending when the call counts them. */
  lemma SilenceExactly(total: nat, before: seq<Action>, after: seq<Action>)
    ensures var s := Run(Init(total, 1, true), before);
            var t := Run(Step(s, CancelCount(0)), after);
            Enabled(s, CancelCount(0)) && NobodySending(t) ==> (t.callbacks == [] <==> CountPending(s.children) > 0)
  {
    hide CountPending, CountByStatus, DeriveTerminalStatus;
    var s := Run(Init(total, 1, true), before);
    var t := Run(Step(s, CancelCount(0)), after);
    if Enabled(s, CancelCount(0)) && NobodySending(t) {
      InitTracked(total, true);
      RunTracked(Init(total, 1, true), before);
      NonePending(s.children);
      RunTracked(s, [CancelCount(0)]);
      assert Run(s, [CancelCount(0)]) == Step(s, CancelCount(0));
      RunTracked(Step(s, CancelCount(0)), after);
      FindingsStay(Step(s, CancelCount(0)), after);
      OutcomeAtRest(t);
    }
  }

  const ONE_CANCELLED := Counts(0, 0, 0, 0, 0, 1)

  lemma OneCancelled()
    ensures CountByStatus([CANCELLED]) == ONE_CANCELLED && CountPending([CANCELLED]) == 0
  {
    assert multiset([CANCELLED]) == multiset{CANCELLED};
  }

  const WAITING := State([AWAITING_INPUT], [Working], [Unasked], Queued, false, true, [])
  const CANCELLED_WAITING := State([CANCELLED], [Working], [Wrote(false)], Cancelled, true, true, [])

  lemma WaitingIsCancelled()
    ensures Step(Init(1, 1, true), Work(0, AWAITING_INPUT)) == WAITING
    ensures Step(WAITING, CancelRead(0)) == WAITING.(cancels := [SawOpen])
    ensures Step(WAITING.(cancels := [SawOpen]), CancelWrite(0)) == CANCELLED_WAITING
  {
    assert Init(1, 1, true) == WAITING.(children := [PENDING]);
    assert CancelChildren([AWAITING_INPUT]) == [CANCELLED];
  }

  /** A batch at rest whose only child was cancelled while it waited for input: one callback, and a handler that never runs. */
  lemma WaitingChildRun() returns (actions: seq<Action>)
    ensures var s := Run(Init(1, 1, true), actions);
            NobodySending(s) && !AllReturned(s) && s.children == [CANCELLED]
            && s.callbacks == [Callback(ByCancel(0), Cancelled, ONE_CANCELLED)]
  {
    hide CountPending, CountByStatus, DeriveTerminalStatus;
    OneCancelled();
    WaitingIsCancelled();
    var firing := CANCELLED_WAITING.(cancels := [Firing(false)]);
    var done := firing.(cancels := [Done(false, true)], callbacks := [Callback(ByCancel(0), Cancelled, ONE_CANCELLED)]);
    assert Step(CANCELLED_WAITING, CancelCount(0)) == firing && Step(firing, CancelFire(0)) == done;
    hide Step, Init;
    actions := [Work(0, AWAITING_INPUT), CancelRead(0), CancelWrite(0), CancelCount(0), CancelFire(0)];
    ShortRun(Init(1, 1, true), actions, [WAITING, WAITING.(cancels := [SawOpen]), CANCELLED_WAITING, firing, done]);
  }
}
