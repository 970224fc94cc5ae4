/** Every run of the delegation protocol: each conversation is carried on by one holder, and speaks exactly once. */
module DelegationProtocol {
  import opened Strings
  import opened DelegationModel

  /** A job inherits its conversation's metadata, and carries it on until it stores a checkpoint or ends. */
  predicate JobOk(s: State, j: nat)
    requires j < |s.jobs|
  {
    var job := s.jobs[j];
    && job.conv < |s.convs| && job.meta == s.convs[job.conv].meta
    && (!job.phase.Ended? && !job.checkpointed ==> s.convs[job.conv].holder == AtJob(j))
    && (job.checkpointed && job.phase.Spoke() ==> s.convs[job.conv].late > 0)
    && (job.phase.Queued? ==> !job.checkpointed)
  }

  /** An open checkpoint holds its conversation and keeps its metadata. */
  predicate RowOk(s: State, k: nat)
    requires k < |s.checkpoints|
  {
    var row := s.checkpoints[k];
    row.conv < |s.convs| && row.context == s.convs[row.conv].meta && (row.open ==> s.convs[row.conv].holder == AtCheckpoint(k))
  }

  /** The holder is there. */
  predicate Held(s: State, c: nat)
    requires c < |s.convs|
  {
    match s.convs[c].holder
    case AtJob(j) => j < |s.jobs| && s.jobs[j].conv == c && !s.jobs[j].phase.Ended? && !s.jobs[j].checkpointed
    case AtCheckpoint(k) => k < |s.checkpoints| && s.checkpoints[k].conv == c && s.checkpoints[k].open
    case Over(_) => true
    case Lost => true
  }

  /** The outcome a conversation has announced, if it has. */
  function Announced(s: State, c: nat): Option<Outcome>
    requires c < |s.convs| && Held(s, c)
  {
    match s.convs[c].holder
    case AtJob(j) => if s.jobs[j].phase.Spoke() then Some(s.jobs[j].phase.outcome) else None
    case AtCheckpoint(_) => None
    case Over(o) => Some(o)
    case Lost => Some(Failed(CANCELLED))
  }

  /** What is due by now: the announcement, the termination if there is an Execution, the report if there is a parent. */
  predicate ExactlyDue(s: State, c: nat)
    requires c < |s.convs| && Held(s, c)
  {
    var conv := s.convs[c];
    var reporting := conv.holder.AtJob? && s.jobs[conv.holder.job].phase.Reporting?;
    var announced := Announced(s, c);
    && conv.signals == (if announced.Some? then [SignalOf(announced.value)] else [])
    && conv.terminations == (if conv.meta.execution.Some? && (conv.holder.Over? || reporting) then [announced.value] else [])
    && conv.reports == (if conv.meta.parent.Some? && conv.holder.Over? then [announced.value] else [])
  }

  predicate ConvOk(s: State, c: nat)
    requires c < |s.convs|
  {
    && Held(s, c)
    && |s.convs[c].signals| == s.convs[c].late + (if Announced(s, c).Some? then 1 else 0)
    && (s.convs[c].late == 0 ==> ExactlyDue(s, c))
  }

  ghost predicate Sound(s: State) {
    && (forall j | 0 <= j < |s.jobs| :: JobOk(s, j))
    && (forall k | 0 <= k < |s.checkpoints| :: RowOk(s, k))
    && (forall c | 0 <= c < |s.convs| :: ConvOk(s, c))
  }

  // What every step keeps, whatever faults it brings.

  lemma EnqueueSound(s: State, metas: seq<Meta>)
    requires Sound(s)
    ensures Sound(Enqueued(s, metas))
  {
    var t := Enqueued(s, metas);
    forall c | 0 <= c < |s.convs| ensures ConvOk(t, c) {
      assert ConvOk(s, c);
    }
    forall j | 0 <= j < |s.jobs| ensures JobOk(t, j) {
      assert JobOk(s, j);
    }
    forall k | 0 <= k < |s.checkpoints| ensures RowOk(t, k) {
      assert RowOk(s, k);
    }
  }

  /** One job and its conversation change, nothing else. */
  predicate Touches(s: State, t: State, j: nat) {
    && s.Has(j) && |t.jobs| == |s.jobs| && |t.convs| == |s.convs| && t.checkpoints == s.checkpoints
    && (forall i | 0 <= i < |s.jobs| && i != j :: t.jobs[i] == s.jobs[i])
    && (forall c | 0 <= c < |s.convs| && c != s.jobs[j].conv :: t.convs[c] == s.convs[c])
    && t.jobs[j].conv == s.jobs[j].conv && t.convs[t.jobs[j].conv].meta == s.convs[s.jobs[j].conv].meta
  }

  lemma TouchSound(s: State, t: State, j: nat)
    requires Sound(s) && Touches(s, t, j)
    requires JobOk(t, j) && ConvOk(t, t.jobs[j].conv)
    requires var c := s.jobs[j].conv;
             (t.convs[c].holder == s.convs[c].holder || s.convs[c].holder == AtJob(j)) && t.convs[c].late >= s.convs[c].late
    ensures Sound(t)
  {
    forall i | 0 <= i < |t.jobs| ensures JobOk(t, i) {
      assert JobOk(s, i) && JobOk(s, j);
    }
    forall k | 0 <= k < |t.checkpoints| ensures RowOk(t, k) {
      assert RowOk(s, k);
    }
    forall c | 0 <= c < |t.convs| ensures ConvOk(t, c) {
      assert ConvOk(s, c);
    }
  }

  lemma StartSound(s: State, j: nat)
    requires Sound(s) && Enabled(s, Start(j))
    ensures Sound(Step(s, Start(j)))
  {
    assert JobOk(s, j) && ConvOk(s, s.jobs[j].conv);
    TouchSound(s, Step(s, Start(j)), j);
  }

  lemma YieldSound(s: State, j: nat, chunk: Chunk)
    requires Sound(s) && Enabled(s, Yield(j, chunk))
    ensures Sound(Step(s, Yield(j, chunk)))
  {
    assert JobOk(s, j) && ConvOk(s, s.jobs[j].conv);
    TouchSound(s, Step(s, Yield(j, chunk)), j);
  }

  lemma EndingSound(s: State, j: nat, o: Outcome)
    requires Sound(s) && s.Has(j) && s.jobs[j].phase.Streaming?
    ensures Sound(Ending(s, j, o))
  {
    assert JobOk(s, j) && ConvOk(s, s.jobs[j].conv);
    TouchSound(s, Ending(s, j, o), j);
  }

  lemma EndStreamSound(s: State, j: nat, fault: Option<string>)
    requires Sound(s) && Enabled(s, EndStream(j, fault))
    ensures Sound(Step(s, EndStream(j, fault)))
  {
    if fault.Some? {
      EndingSound(s, j, Failed(fault.value));
    } else if s.jobs[j].phase.suspended {
      assert JobOk(s, j) && ConvOk(s, s.jobs[j].conv);
      TouchSound(s, Step(s, EndStream(j, fault)), j);
    } else {
      EndingSound(s, j, Answered(Concat(s.jobs[j].phase.parts)));
    }
  }

  lemma CancelSound(s: State, j: nat)
    requires Sound(s) && Enabled(s, Cancel(j))
    ensures Sound(Step(s, Cancel(j)))
  {
    assert JobOk(s, j) && ConvOk(s, s.jobs[j].conv);
    TouchSound(s, Step(s, Cancel(j)), j);
  }

  lemma TerminateSound(s: State, j: nat)
    requires Sound(s) && Enabled(s, Terminate(j))
    ensures Sound(Step(s, Terminate(j)))
  {
    assert JobOk(s, j) && ConvOk(s, s.jobs[j].conv);
    TouchSound(s, Step(s, Terminate(j)), j);
  }

  lemma DelegateSound(s: State, j: nat, tools: seq<string>)
    requires Sound(s) && Enabled(s, Delegate(j, tools))
    ensures Sound(Step(s, Delegate(j, tools)))
  {
    var k, c := |s.checkpoints|, s.jobs[j].conv;
    assert JobOk(s, j) && ConvOk(s, c);
    var row := Checkpoint(c, s.jobs[j].meta, tools, |tools|, true, [], Ids(|s.convs|, |tools|));
    var t := s.SetJob(j, s.jobs[j].(checkpointed := true)).SetConv(c, s.convs[c].(holder := AtCheckpoint(k)))
              .(checkpoints := s.checkpoints + [row]);
    forall i | 0 <= i < |t.jobs| ensures JobOk(t, i) {
      assert JobOk(s, i);
    }
    forall i | 0 <= i < |t.checkpoints| ensures RowOk(t, i) {
      assert i < k ==> RowOk(s, i);
    }
    forall d | 0 <= d < |t.convs| ensures ConvOk(t, d) {
      assert ConvOk(s, d);
    }
    EnqueueSound(t, ChildMetas(k, tools));
  }

  lemma OnChildCompleteSound(s: State, call: Call, child: nat, o: Outcome)
    requires Sound(s)
    ensures Sound(OnChildComplete(s, call, child, o))
  {
    var t, k := OnChildComplete(s, call, child, o), call.checkpoint;
    if t != s {
      assert RowOk(s, k) && ConvOk(s, s.checkpoints[k].conv);
      forall j | 0 <= j < |t.jobs| ensures JobOk(t, j) {
        assert j < |s.jobs| ==> JobOk(s, j);
      }
      forall i | 0 <= i < |t.checkpoints| ensures RowOk(t, i) {
        assert RowOk(s, i);
      }
      forall c | 0 <= c < |t.convs| ensures ConvOk(t, c) {
        assert ConvOk(s, c);
      }
    }
  }

  lemma ReportSound(s: State, j: nat)
    requires Sound(s) && Enabled(s, Report(j))
    ensures Sound(Step(s, Report(j)))
  {
    var job := s.jobs[j];
    var o := job.phase.outcome;
    assert JobOk(s, j) && ConvOk(s, job.conv);
    var conv := s.convs[job.conv];
    var t := s.SetJob(j, job.(phase := Ended))
              .SetConv(job.conv, conv.(reports := conv.reports + if job.meta.parent.Some? then [o] else [],
                                       holder := if job.checkpointed then conv.holder else Over(o)));
    TouchSound(s, t, j);
    if job.meta.parent.Some? {
      OnChildCompleteSound(t, job.meta.parent.value, job.conv, o);
    }
  }

  lemma StepSound(s: State, a: Action)
    requires Sound(s) && Enabled(s, a)
    ensures Sound(Step(s, a))
  {
    hide Sound;
    match a
    case Submit(execution) => EnqueueSound(s, [Meta(execution, None)]);
    case Start(j) => StartSound(s, j);
    case Delegate(j, tools) => DelegateSound(s, j, tools);
    case Yield(j, chunk) => YieldSound(s, j, chunk);
    case EndStream(j, fault) => EndStreamSound(s, j, fault);
    case Cancel(j) => CancelSound(s, j);
    case Terminate(j) => TerminateSound(s, j);
    case Report(j) => ReportSound(s, j);
  }

  // How a parent's checkpoint row stands to its children, late failures included.

  predicate ChildOf(s: State, c: nat, k: nat)
    requires c < |s.convs|
  {
    s.convs[c].meta.parent.Some? && s.convs[c].meta.parent.value.checkpoint == k
  }

  /** A child comes after its parent. */
  predicate Descends(s: State, c: nat)
    requires c < |s.convs|
  {
    s.convs[c].meta.parent.Some? ==>
      var k := s.convs[c].meta.parent.value.checkpoint;
      k < |s.checkpoints| && s.checkpoints[k].conv < c
  }

  predicate Pending(s: State, k: nat, c: nat) { c < |s.convs| && ChildOf(s, c, k) && !s.convs[c].holder.Over? }

  /** Every report counts once; while the row is open, those still awaited are not over, and no fewer than it counts. */
  ghost predicate RowCounts(s: State, k: nat)
    requires k < |s.checkpoints|
  {
    var row := s.checkpoints[k];
    && row.remaining + |row.results| == |row.tools|
    && (row.open ==> 0 < row.remaining <= |row.awaited| && forall c | c in row.awaited :: Pending(s, k, c))
  }

  ghost predicate Counted(s: State) {
    && (forall c | 0 <= c < |s.convs| :: Descends(s, c))
    && (forall k | 0 <= k < |s.checkpoints| :: RowCounts(s, k))
  }

  /** No child waited for on row `k` had a job that failed after storing a checkpoint. */
  ghost predicate PunctualRow(s: State, k: nat) {
    forall c | 0 <= c < |s.convs| && ChildOf(s, c, k) :: s.convs[c].late == 0
  }

  /** A child is awaited until it is over; then its outcome is on the row, under its tool call. */
  predicate Recorded(s: State, k: nat, c: nat)
    requires k < |s.checkpoints| && c < |s.convs| && ChildOf(s, c, k)
  {
    var row := s.checkpoints[k];
    match s.convs[c].holder
    case Over(o) => (s.convs[c].meta.parent.value.tool, o) in row.results && c !in row.awaited
    case _ => row.open && c in row.awaited
  }

  /** The row counts exactly the children that are not over. */
  ghost predicate RowJoined(s: State, k: nat)
    requires k < |s.checkpoints|
  {
    var row := s.checkpoints[k];
    && row.remaining == |row.awaited| && (row.open <==> row.awaited != {})
    && forall c | 0 <= c < |s.convs| && ChildOf(s, c, k) :: Recorded(s, k, c)
  }

  ghost predicate Joined(s: State) {
    && Counted(s)
    && forall k | 0 <= k < |s.checkpoints| && PunctualRow(s, k) :: RowJoined(s, k)
  }

  lemma PunctualBefore(s: State, t: State, k: nat)
    requires |s.convs| <= |t.convs| && PunctualRow(t, k)
    requires forall c | 0 <= c < |s.convs| :: t.convs[c].meta == s.convs[c].meta && t.convs[c].late >= s.convs[c].late
    ensures PunctualRow(s, k)
  {
    forall c | 0 <= c < |s.convs| && ChildOf(s, c, k) ensures s.convs[c].late == 0 {
      assert ChildOf(t, c, k);
    }
  }

  /** A job or holder changes, but no child conversation gets over. */
  lemma TouchJoined(s: State, t: State, j: nat)
    requires Joined(s) && Touches(s, t, j)
    requires var c := s.jobs[j].conv;
             && t.convs[c].late >= s.convs[c].late
             && (s.convs[c].meta.parent.None? || t.convs[c].holder == s.convs[c].holder
                 || (!s.convs[c].holder.Over? && !t.convs[c].holder.Over?))
    ensures Joined(t)
  {
    forall c | 0 <= c < |t.convs| ensures Descends(t, c) {
      assert Descends(s, c);
    }
    forall k | 0 <= k < |t.checkpoints| ensures RowCounts(t, k) {
      assert RowCounts(s, k);
      forall c | t.checkpoints[k].open && c in t.checkpoints[k].awaited ensures Pending(t, k, c) {
        assert Pending(s, k, c);
      }
    }
    forall k | 0 <= k < |t.checkpoints| && PunctualRow(t, k) ensures RowJoined(t, k) {
      TouchRowJoined(s, t, j, k);
    }
  }

  lemma TouchRowJoined(s: State, t: State, j: nat, k: nat)
    requires Joined(s) && Touches(s, t, j) && k < |t.checkpoints| && PunctualRow(t, k)
    requires var c := s.jobs[j].conv;
             && t.convs[c].late >= s.convs[c].late
             && (s.convs[c].meta.parent.None? || t.convs[c].holder == s.convs[c].holder
                 || (!s.convs[c].holder.Over? && !t.convs[c].holder.Over?))
    ensures RowJoined(t, k)
  {
    PunctualBefore(s, t, k);
    assert RowJoined(s, k);
    forall c | 0 <= c < |t.convs| && ChildOf(t, c, k) ensures Recorded(t, k, c) {
      assert ChildOf(s, c, k) && Recorded(s, k, c);
    }
  }

  /** New conversations; old rows have no new children. */
  lemma EnqueueJoined(s: State, t: State, metas: seq<Meta>, k: nat)
    requires t == Enqueued(s, metas) && k < |s.checkpoints|
    requires forall i | 0 <= i < |metas| && metas[i].parent.Some? :: metas[i].parent.value.checkpoint != k
    requires RowCounts(s, k) && (PunctualRow(s, k) ==> RowJoined(s, k))
    ensures RowCounts(t, k) && (PunctualRow(t, k) ==> RowJoined(t, k))
  {
    forall c | s.checkpoints[k].open && c in t.checkpoints[k].awaited ensures Pending(t, k, c) {
      assert Pending(s, k, c);
    }
    if PunctualRow(t, k) {
      PunctualBefore(s, t, k);
      assert RowJoined(s, k);
      forall c | 0 <= c < |t.convs| && ChildOf(t, c, k) ensures Recorded(t, k, c) {
        assert c < |s.convs| && ChildOf(s, c, k) && Recorded(s, k, c);
      }
    }
  }

  lemma SubmitJoined(s: State, execution: Option<nat>)
    requires Joined(s)
    ensures Joined(Enqueued(s, [Meta(execution, None)]))
  {
    var t := Enqueued(s, [Meta(execution, None)]);
    forall c | 0 <= c < |t.convs| ensures Descends(t, c) {
      assert c < |s.convs| ==> Descends(s, c);
    }
    forall k | 0 <= k < |t.checkpoints| ensures RowCounts(t, k) && (PunctualRow(t, k) ==> RowJoined(t, k)) {
      EnqueueJoined(s, t, [Meta(execution, None)], k);
    }
  }

  /** The state a delegation leaves before the children are enqueued. */
  function Stored(s: State, j: nat, tools: seq<string>): State
    requires s.Has(j)
  {
    var job := s.jobs[j];
    s.SetJob(j, job.(checkpointed := true)).SetConv(job.conv, s.convs[job.conv].(holder := AtCheckpoint(|s.checkpoints|)))
     .(checkpoints := s.checkpoints + [Checkpoint(job.conv, job.meta, tools, |tools|, true, [], Ids(|s.convs|, |tools|))])
  }

  lemma StoredKeepsRow(s: State, j: nat, tools: seq<string>, k: nat)
    requires Sound(s) && Joined(s) && Enabled(s, Delegate(j, tools)) && k < |s.checkpoints|
    ensures var t := Stored(s, j, tools); RowCounts(t, k) && (PunctualRow(t, k) ==> RowJoined(t, k))
  {
    var t := Stored(s, j, tools);
    assert JobOk(s, j) && RowCounts(s, k);
    forall c | s.checkpoints[k].open && c in s.checkpoints[k].awaited ensures Pending(t, k, c) {
      assert Pending(s, k, c);
    }
    if PunctualRow(t, k) {
      PunctualBefore(s, t, k);
      assert RowJoined(s, k);
      forall c | 0 <= c < |t.convs| && ChildOf(t, c, k) ensures Recorded(t, k, c) {
        assert ChildOf(s, c, k) && Recorded(s, k, c);
      }
    }
  }

  lemma DelegateJoined(s: State, j: nat, tools: seq<string>)
    requires Sound(s) && Joined(s) && Enabled(s, Delegate(j, tools))
    ensures Joined(Step(s, Delegate(j, tools)))
  {
    var u, t, new_ := Stored(s, j, tools), Step(s, Delegate(j, tools)), |s.checkpoints|;
    assert JobOk(s, j);
    assert t == Enqueued(u, ChildMetas(new_, tools));
    forall c | 0 <= c < |t.convs| ensures Descends(t, c) {
      assert c < |s.convs| ==> Descends(s, c);
    }
    forall k | 0 <= k < |t.checkpoints| ensures RowCounts(t, k) && (PunctualRow(t, k) ==> RowJoined(t, k)) {
      if k < new_ {
        StoredKeepsRow(s, j, tools, k);
        EnqueueJoined(u, t, ChildMetas(new_, tools), k);
      } else {
        NewRowJoined(s, j, tools);
      }
    }
  }

  lemma NewRowJoined(s: State, j: nat, tools: seq<string>)
    requires Sound(s) && Joined(s) && Enabled(s, Delegate(j, tools))
    ensures var t, k := Step(s, Delegate(j, tools)), |s.checkpoints|;
            k < |t.checkpoints| && RowCounts(t, k) && RowJoined(t, k)
  {
    var t, k := Step(s, Delegate(j, tools)), |s.checkpoints|;
    forall c | 0 <= c < |t.convs| && ChildOf(t, c, k) ensures Recorded(t, k, c) {
      assert c < |s.convs| ==> Descends(s, c);
    }
  }

  /** The report of a child reaches the row; `over` unless a later job of it goes on. */
  function Delivered(s: State, c: nat, o: Outcome, over: bool): State
    requires c < |s.convs| && s.convs[c].meta.parent.Some?
  {
    var conv := s.convs[c];
    OnChildComplete(s.SetConv(c, conv.(reports := conv.reports + [o], holder := if over then Over(o) else conv.holder)),
                    conv.meta.parent.value, c, o)
  }

  predicate RowsOk(s: State) {
    forall k | 0 <= k < |s.checkpoints| :: RowOk(s, k)
  }

  lemma DeliveredShape(s: State, c: nat, o: Outcome, over: bool)
    requires RowsOk(s) && Joined(s) && c < |s.convs| && s.convs[c].meta.parent.Some? && (over ==> !s.convs[c].holder.Over?)
    ensures var t, k := Delivered(s, c, o, over), s.convs[c].meta.parent.value.checkpoint;
            && k < |s.checkpoints| == |t.checkpoints| && |t.convs| == |s.convs|
            && (forall i | 0 <= i < |s.checkpoints| && i != k :: t.checkpoints[i] == s.checkpoints[i])
            && (forall d | 0 <= d < |s.convs| :: t.convs[d].meta == s.convs[d].meta && t.convs[d].late == s.convs[d].late)
            && (forall d | 0 <= d < |s.convs| && d != c && s.convs[d].holder.Over? :: t.convs[d].holder == s.convs[d].holder)
            && (forall d | 0 <= d < |s.convs| && d != c && !s.convs[d].holder.Over? :: !t.convs[d].holder.Over?)
            && t.convs[c].holder == (if over then Over(o) else s.convs[c].holder)
            && t.checkpoints[k].conv == s.checkpoints[k].conv
  {
    assert Descends(s, c) && RowOk(s, s.convs[c].meta.parent.value.checkpoint);
  }

  lemma DeliveredElsewhere(s: State, c: nat, o: Outcome, over: bool, i: nat)
    requires RowsOk(s) && Joined(s) && c < |s.convs| && s.convs[c].meta.parent.Some? && (over ==> !s.convs[c].holder.Over?)
    requires i < |s.checkpoints| && i != s.convs[c].meta.parent.value.checkpoint
    ensures var t := Delivered(s, c, o, over);
            i < |t.checkpoints| && RowCounts(t, i) && (PunctualRow(t, i) ==> RowJoined(t, i))
  {
    DeliveredShape(s, c, o, over);
    var t := Delivered(s, c, o, over);
    hide Delivered, OnChildComplete;
    assert RowCounts(s, i);
    forall d | s.checkpoints[i].open && d in s.checkpoints[i].awaited ensures Pending(t, i, d) {
      assert Pending(s, i, d);
    }
    if PunctualRow(t, i) {
      PunctualBefore(s, t, i);
      assert RowJoined(s, i);
      forall d | 0 <= d < |t.convs| && ChildOf(t, d, i) ensures Recorded(t, i, d) {
        assert ChildOf(s, d, i) && Recorded(s, i, d);
      }
    }
  }

  lemma DeliveredCounts(s: State, c: nat, o: Outcome, over: bool)
    requires RowsOk(s) && Joined(s) && c < |s.convs| && s.convs[c].meta.parent.Some? && (over ==> !s.convs[c].holder.Over?)
    ensures var t, k := Delivered(s, c, o, over), s.convs[c].meta.parent.value.checkpoint;
            k < |t.checkpoints| && RowCounts(t, k)
  {
    var t, k := Delivered(s, c, o, over), s.convs[c].meta.parent.value.checkpoint;
    DeliveredShape(s, c, o, over);
    assert RowCounts(s, k) && RowOk(s, k);
    var row := s.checkpoints[k];
    assert |row.awaited - {c}| >= |row.awaited| - 1 by {
      assert row.awaited - {c} == (if c in row.awaited then row.awaited - {c} else row.awaited);
    }
    forall d | t.checkpoints[k].open && d in t.checkpoints[k].awaited ensures Pending(t, k, d) {
      assert Pending(s, k, d);
    }
  }

  /** On a punctual row the report of a live child finds the row open, and takes exactly that child off it. */
  lemma ChildJoined(s: State, c: nat, o: Outcome)
    requires RowsOk(s) && Joined(s) && c < |s.convs| && s.convs[c].meta.parent.Some? && !s.convs[c].holder.Over?
    requires PunctualRow(s, s.convs[c].meta.parent.value.checkpoint)
    ensures var t, k := Delivered(s, c, o, true), s.convs[c].meta.parent.value.checkpoint;
            && k < |s.checkpoints| == |t.checkpoints| && s.checkpoints[k].open
            && t.checkpoints[k].awaited == s.checkpoints[k].awaited - {c} && RowJoined(t, k)
  {
    var t, k := Delivered(s, c, o, true), s.convs[c].meta.parent.value.checkpoint;
    DeliveredShape(s, c, o, true);
    assert ChildOf(s, c, k) && RowJoined(s, k) && Recorded(s, k, c) && RowOk(s, k);
    var row := s.checkpoints[k];
    assert |row.awaited - {c}| == |row.awaited| - 1;
    assert row.awaited - {c} == {} <==> |row.awaited| == 1;
    assert t.checkpoints[k].results == row.results + [(s.convs[c].meta.parent.value.tool, o)];
    forall d | 0 <= d < |t.convs| && ChildOf(t, d, k) ensures Recorded(t, k, d) {
      assert ChildOf(s, d, k) && Recorded(s, k, d);
    }
  }

  lemma DeliveredJoined(s: State, c: nat, o: Outcome, over: bool)
    requires RowsOk(s) && Joined(s) && c < |s.convs| && s.convs[c].meta.parent.Some? && (over ==> !s.convs[c].holder.Over?)
    requires over || s.convs[c].late > 0
    ensures Joined(Delivered(s, c, o, over))
  {
    var t, k := Delivered(s, c, o, over), s.convs[c].meta.parent.value.checkpoint;
    DeliveredShape(s, c, o, over);
    DeliveredCounts(s, c, o, over);
    forall d | 0 <= d < |t.convs| ensures Descends(t, d) {
      assert Descends(s, d);
    }
    forall i | 0 <= i < |t.checkpoints| ensures RowCounts(t, i) && (PunctualRow(t, i) ==> RowJoined(t, i)) {
      if i != k {
        DeliveredElsewhere(s, c, o, over, i);
      } else if PunctualRow(t, k) {
        assert ChildOf(t, c, k);
        PunctualBefore(s, t, k);
        assert RowJoined(s, k);
        ChildJoined(s, c, o);
      }
    }
  }

  lemma ReportJoined(s: State, j: nat)
    requires Sound(s) && Joined(s) && Enabled(s, Report(j))
    ensures Joined(Step(s, Report(j)))
  {
    var job := s.jobs[j];
    var conv, o := s.convs[job.conv], job.phase.outcome;
    assert JobOk(s, j) && ConvOk(s, job.conv);
    var t := s.SetJob(j, job.(phase := Ended));
    TouchJoined(s, t, j);
    if job.meta.parent.None? {
      TouchJoined(s, Step(s, Report(j)), j);
    } else {
      forall k | 0 <= k < |t.checkpoints| ensures RowOk(t, k) {
        assert RowOk(s, k);
      }
      DeliveredJoined(t, job.conv, o, !job.checkpointed);
    }
  }

  lemma StepJoined(s: State, a: Action)
    requires Sound(s) && Joined(s) && Enabled(s, a)
    ensures Joined(Step(s, a))
  {
    hide Sound, Joined;
    match a
    case Submit(execution) => SubmitJoined(s, execution);
    case Delegate(j, tools) => DelegateJoined(s, j, tools);
    case Report(j) => ReportJoined(s, j);
    case Start(j) => TouchJoined(s, Step(s, a), j);
    case Yield(j, _) => TouchJoined(s, Step(s, a), j);
    case EndStream(j, _) => TouchJoined(s, Step(s, a), j);
    case Terminate(j) => TouchJoined(s, Step(s, a), j);
    case Cancel(j) => CancelJoined(s, j);
  }

  lemma CancelJoined(s: State, j: nat)
    requires Sound(s) && Joined(s) && Enabled(s, Cancel(j))
    ensures Joined(Step(s, Cancel(j)))
  {
    assert JobOk(s, j);
    TouchJoined(s, Step(s, Cancel(j)), j);
  }

  lemma {:induction false} RunKeeps(s: State, schedule: seq<Action>)
    requires Sound(s) && Joined(s)
    ensures Sound(Run(s, schedule)) && Joined(Run(s, schedule))
    decreases schedule
  {
    hide Sound, Joined;
    if schedule != [] {
      if Enabled(s, schedule[0]) {
        StepSound(s, schedule[0]);
        StepJoined(s, schedule[0]);
        RunKeeps(Step(s, schedule[0]), schedule[1..]);
      } else {
        RunKeeps(s, schedule[1..]);
      }
    }
  }

  // The results.

  /** A conversation none of whose jobs failed after a checkpoint has done exactly what is due, whatever others did;
      one that is over has signalled once exactly if it is such a conversation. */
  lemma ExactlyOnce(schedule: seq<Action>, c: nat)
    requires c < |Run(INIT, schedule).convs|
    ensures var s := Run(INIT, schedule);
            && Held(s, c) && (s.convs[c].late == 0 ==> ExactlyDue(s, c))
            && (s.convs[c].holder.Over? ==> (|s.convs[c].signals| == 1 <==> s.convs[c].late == 0))
  {
    RunKeeps(INIT, schedule);
    assert ConvOk(Run(INIT, schedule), c);
  }

  /** Every job of a conversation, however many resumptions later, owes what the first one owed. */
  lemma MetadataInherited(schedule: seq<Action>, j: nat)
    requires j < |Run(INIT, schedule).jobs|
    ensures var s := Run(INIT, schedule);
            s.jobs[j].conv < |s.convs| && s.jobs[j].meta == s.convs[s.jobs[j].conv].meta
  {
    RunKeeps(INIT, schedule);
    assert JobOk(Run(INIT, schedule), j);
  }

  /** In every run a parent sleeps for a reason: an open row has a child that is not over. */
  lemma SleepsForAReason(schedule: seq<Action>, k: nat) returns (c: nat)
    requires k < |Run(INIT, schedule).checkpoints| && Run(INIT, schedule).checkpoints[k].open
    ensures var s := Run(INIT, schedule);
            c < |s.convs| && ChildOf(s, c, k) && !s.convs[c].holder.Over?
  {
    var s := Run(INIT, schedule);
    RunKeeps(INIT, schedule);
    assert RowCounts(s, k);
    c :| c in s.checkpoints[k].awaited;
    assert Pending(s, k, c);
  }

  /** If none of its own children failed late, the parent sleeps exactly as long as some child is not over,
      and wakes with one result per delegated call, each child's own. */
  lemma WakesWhenAllAreOver(schedule: seq<Action>, k: nat)
    requires k < |Run(INIT, schedule).checkpoints| && PunctualRow(Run(INIT, schedule), k)
    ensures var s := Run(INIT, schedule);
            var row := s.checkpoints[k];
            && (row.open <==> exists c: nat :: c < |s.convs| && ChildOf(s, c, k) && !s.convs[c].holder.Over?)
            && (!row.open ==> |row.results| == |row.tools|)
            && (forall c: nat | c < |s.convs| && ChildOf(s, c, k) && s.convs[c].holder.Over? ::
                  (s.convs[c].meta.parent.value.tool, s.convs[c].holder.outcome) in row.results)
  {
    var s := Run(INIT, schedule);
    RunKeeps(INIT, schedule);
    assert RowCounts(s, k) && RowJoined(s, k);
    forall c: nat | c < |s.convs| && ChildOf(s, c, k) ensures Recorded(s, k, c) {}
    if s.checkpoints[k].open {
      var c := SleepsForAReason(schedule, k);
    }
  }

  /** Nothing but new submissions can happen. */
  ghost predicate Quiet(s: State) {
    forall a | Enabled(s, a) :: a.Submit?
  }

  /** Cancelled, or asleep on a checkpoint with a child that is blocked. */
  ghost predicate Blocked(s: State, c: nat)
    requires c < |s.convs|
    decreases |s.convs| - c
  {
    || s.convs[c].holder.Lost?
    || (&& s.convs[c].holder.AtCheckpoint?
        && exists d: nat :: c < d < |s.convs| && ChildOf(s, d, s.convs[c].holder.checkpoint) && Blocked(s, d))
  }

  lemma {:induction false} OverUnlessBlocked(s: State, c: nat)
    requires Sound(s) && Joined(s) && Quiet(s) && c < |s.convs|
    ensures s.convs[c].holder.Over? <==> !Blocked(s, c)
    decreases |s.convs| - c
  {
    assert ConvOk(s, c);
    match s.convs[c].holder
    case AtJob(j) => NoneLive(s, j);
    case AtCheckpoint(k) =>
      assert RowCounts(s, k);
      var d :| d in s.checkpoints[k].awaited;
      assert Pending(s, k, d) && Descends(s, d);
      OverUnlessBlocked(s, d);
    case _ =>
  }

  /** When all is quiet, in every run, the conversations that are not over are exactly the blocked ones. */
  lemma FinishedUnlessBlocked(schedule: seq<Action>, c: nat)
    requires Quiet(Run(INIT, schedule)) && c < |Run(INIT, schedule).convs|
    ensures Run(INIT, schedule).convs[c].holder.Over? <==> !Blocked(Run(INIT, schedule), c)
  {
    RunKeeps(INIT, schedule);
    OverUnlessBlocked(Run(INIT, schedule), c);
  }

  lemma NoneLive(s: State, j: nat)
    requires Quiet(s) && s.Has(j)
    ensures s.jobs[j].phase.Ended?
  {
    assert !Enabled(s, Start(j)) && !Enabled(s, Cancel(j)) && !Enabled(s, Terminate(j)) && !Enabled(s, Report(j));
  }

  /** So if nothing was cancelled, every conversation gets over, parents included, and has signalled once,
      plus once for each of its late failures. */
  lemma EverybodyFinishes(schedule: seq<Action>)
    requires var s := Run(INIT, schedule);
             Quiet(s) && forall c | 0 <= c < |s.convs| :: !s.convs[c].holder.Lost?
    ensures var s := Run(INIT, schedule);
            forall c | 0 <= c < |s.convs| :: s.convs[c].holder.Over? && |s.convs[c].signals| == 1 + s.convs[c].late
  {
    var s := Run(INIT, schedule);
    RunKeeps(INIT, schedule);
    forall c | 0 <= c < |s.convs| ensures s.convs[c].holder.Over? && |s.convs[c].signals| == 1 + s.convs[c].late {
      UnblockedWithoutLost(s, c);
      OverUnlessBlocked(s, c);
      assert ConvOk(s, c);
    }
  }

  lemma {:induction false} UnblockedWithoutLost(s: State, c: nat)
    requires c < |s.convs| && forall d | 0 <= d < |s.convs| :: !s.convs[d].holder.Lost?
    ensures !Blocked(s, c)
    decreases |s.convs| - c
  {
    forall d: nat | c < d < |s.convs| ensures !Blocked(s, d) {
      UnblockedWithoutLost(s, d);
    }
  }

  /** A cancelled child reports nothing, ever: its parent stays asleep in every continuation in which no other child
      of the same row reports twice. */
  lemma CancelledChildBlocks(before: seq<Action>, after: seq<Action>, c: nat, k: nat)
    requires var s := Run(INIT, before);
             c < |s.convs| && s.convs[c].holder.Lost? && ChildOf(s, c, k) && PunctualRow(Run(s, after), k)
    ensures var t := Run(Run(INIT, before), after);
            && k < |t.checkpoints| && t.checkpoints[k].open && t.checkpoints[k].conv < |t.convs|
            && t.convs[t.checkpoints[k].conv].holder == AtCheckpoint(k) && Blocked(t, t.checkpoints[k].conv)
  {
    RunKeeps(INIT, before);
    LostForever(Run(INIT, before), after, c);
    RunKeeps(Run(INIT, before), after);
    var t := Run(Run(INIT, before), after);
    assert ChildOf(t, c, k) && Descends(t, c);
    assert RowJoined(t, k) && Recorded(t, k, c) && RowOk(t, k);
    assert Blocked(t, c);
  }

  lemma {:induction false} LostForever(s: State, schedule: seq<Action>, c: nat)
    requires Sound(s) && c < |s.convs| && s.convs[c].holder.Lost?
    ensures var t := Run(s, schedule);
            c < |t.convs| && t.convs[c].holder.Lost? && t.convs[c].meta == s.convs[c].meta
    decreases schedule
  {
    hide Sound, Step, Enabled;
    if schedule != [] {
      if Enabled(s, schedule[0]) {
        StepSound(s, schedule[0]);
        LostStays(s, schedule[0], c);
        LostForever(Step(s, schedule[0]), schedule[1..], c);
      } else {
        LostForever(s, schedule[1..], c);
      }
    }
  }

  lemma LostStays(s: State, a: Action, c: nat)
    requires Sound(s) && Enabled(s, a) && c < |s.convs| && s.convs[c].holder.Lost?
    ensures c < |Step(s, a).convs| && Step(s, a).convs[c].holder.Lost? && Step(s, a).convs[c].meta == s.convs[c].meta
  {
    if !a.Submit? {
      assert JobOk(s, a.job);
    }
    if a.Report? && s.jobs[a.job].meta.parent.Some? {
      var k := s.jobs[a.job].meta.parent.value.checkpoint;
      if k < |s.checkpoints| {
        assert RowOk(s, k);
      }
    }
  }
}
