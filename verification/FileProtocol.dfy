/** Every interleaving of writers: version numbers are always 1 to the current one; what it takes to keep the blobs. */
module FileProtocol {
  import opened Strings
  import opened Text
  import opened FileStore

  function PathAt(s: Store, id: string, v: nat): string
    requires id in s.files
  {
    PathOf(s.files[id].namespace, s.files[id].collection, id, v)
  }

  /** The committed versions of a file are exactly 1 to `current`, each at its own path. */
  ghost predicate Consecutive(s: Store) {
    && (forall id | id in s.files :: '/' !in id && id in s.used && s.files[id].current >= 1)
    && (forall key | key in s.versions ::
          key.0 in s.files && 1 <= key.1 <= s.files[key.0].current && s.versions[key].path == PathAt(s, key.0, key.1))
    && (forall id, v: nat | id in s.files && 1 <= v <= s.files[id].current :: (id, v) in s.versions)
  }

  /** Every committed version has its content at its path. */
  ghost predicate Stored(s: Store) {
    forall key | key in s.versions :: s.versions[key].path in s.blobs && s.blobs[s.versions[key].path] == s.versions[key].content
  }

  /** A write never skips a number, and its own blob is there until it ends. */
  ghost predicate TxnOk(s: Store, t: Txn) {
    && '/' !in t.id && t.id in s.used && t.row.current >= 1
    && (t.isNew ==> t.row.current == 1 && t.id !in s.files)
    && (!t.isNew && t.id in s.files ==>
          t.row.current <= s.files[t.id].current + 1 && t.Path() == PathAt(s, t.id, t.row.current)
          && t.row.namespace == s.files[t.id].namespace && t.row.collection == s.files[t.id].collection)
  }

  ghost predicate WriterOk(st: State, w: nat)
    requires w < |st.writers|
  {
    !st.writers[w].Idle? ==>
      var t := st.writers[w].txn;
      TxnOk(st.store, t) && (st.writers[w].Saved? ==> t.Path() in st.store.blobs && st.store.blobs[t.Path()] == t.content)
  }

  /** Two busy writers share a file only if it is an old one, and only one of them holds it. */
  ghost predicate Apart(st: State, v: nat, w: nat)
    requires v < |st.writers| && w < |st.writers|
  {
    v != w && !st.writers[v].Idle? && !st.writers[w].Idle? && st.writers[v].txn.id == st.writers[w].txn.id ==>
      !st.writers[v].txn.isNew && !(st.writers[v].Saved? && st.writers[w].Saved?)
  }

  ghost predicate Sound(st: State) {
    && Consecutive(st.store)
    && (forall w | 0 <= w < |st.writers| :: WriterOk(st, w))
    && (forall v, w | 0 <= v < |st.writers| && 0 <= w < |st.writers| :: Apart(st, v, w))
  }

  lemma OpenSound(st: State, a: Action)
    requires Sound(st) && Enabled(st, a) && a.Open?
    ensures Sound(Step(st, a))
  {
    var t := Step(st, a);
    forall w | 0 <= w < |t.writers| ensures WriterOk(t, w) {
      assert WriterOk(st, w);
    }
    forall v, w | 0 <= v < |t.writers| && 0 <= w < |t.writers| ensures Apart(t, v, w) {
      assert WriterOk(st, v) && WriterOk(st, w) && Apart(st, v, w);
    }
  }

  lemma SamePath(s: Store, t: Txn, u: Txn)
    requires TxnOk(s, t) && TxnOk(s, u) && t.Path() == u.Path()
    ensures t.Key() == u.Key()
  {
    PathInjective(t.row.namespace, t.row.collection, t.id, t.row.current, u.row.namespace, u.row.collection, u.id, u.row.current);
  }

  lemma SaveSound(st: State, a: Action)
    requires Sound(st) && Enabled(st, a) && a.Save?
    ensures Sound(Step(st, a))
  {
    var t := Step(st, a);
    assert WriterOk(st, a.writer);
    forall w | 0 <= w < |t.writers| ensures WriterOk(t, w) {
      assert WriterOk(st, w);
      if w != a.writer && st.writers[w].Saved? && st.writers[w].txn.Path() == st.writers[a.writer].txn.Path() {
        SamePath(st.store, st.writers[w].txn, st.writers[a.writer].txn);
      }
    }
    forall v, w | 0 <= v < |t.writers| && 0 <= w < |t.writers| ensures Apart(t, v, w) {
      assert Apart(st, v, w);
    }
  }

  /** The unique path catches exactly the version numbers already taken. */
  lemma PathTakenExactly(s: Store, t: Txn)
    requires Consecutive(s) && TxnOk(s, t)
    ensures t.Key() in s.versions <==> exists key :: key in s.versions && s.versions[key].path == t.Path()
  {
    if key :| key in s.versions && s.versions[key].path == t.Path() {
      var row := s.files[key.0];
      PathInjective(row.namespace, row.collection, key.0, key.1, t.row.namespace, t.row.collection, t.id, t.row.current);
      assert key == t.Key();
    }
  }

  /** So a commit that is let through is the next version. */
  lemma CommittedIsNext(s: Store, t: Txn)
    requires Consecutive(s) && TxnOk(s, t) && Admissible(s, t)
    ensures Consecutive(Committed(s, t)) && (!t.isNew ==> t.row.current == s.files[t.id].current + 1) && t.Key() !in s.versions
  {
    PathTakenExactly(s, t);
    hide PathOf;
  }

  lemma CommittedTxnOk(s: Store, t: Txn, u: Txn)
    requires Consecutive(s) && TxnOk(s, t) && Admissible(s, t) && TxnOk(s, u)
    requires t.id == u.id ==> !t.isNew && !u.isNew
    ensures TxnOk(Committed(s, t), u)
  {}

  lemma CommitSound(st: State, a: Action)
    requires Sound(st) && Enabled(st, a) && a.Commit?
    ensures Sound(Step(st, a))
  {
    hide Consecutive, TxnOk;
    var t, txn := Step(st, a), st.writers[a.writer].txn;
    assert WriterOk(st, a.writer);
    var rows := if GoesThrough(st.store, txn, a.outcome) then Committed(st.store, txn) else st.store;
    if GoesThrough(st.store, txn, a.outcome) {
      CommittedIsNext(st.store, txn);
    }
    CleanedOk(rows, txn);
    forall w | 0 <= w < |t.writers| ensures WriterOk(t, w) {
      assert WriterOk(st, w) && Apart(st, a.writer, w) && Apart(st, w, a.writer);
      if w != a.writer && !st.writers[w].Idle? {
        if GoesThrough(st.store, txn, a.outcome) {
          CommittedTxnOk(st.store, txn, st.writers[w].txn);
        }
        assert TxnOk(Without(rows, txn.Path()), st.writers[w].txn);
        if st.writers[w].txn.Path() == txn.Path() {
          SamePath(st.store, st.writers[w].txn, txn);
        }
      }
    }
    forall v, w | 0 <= v < |t.writers| && 0 <= w < |t.writers| ensures Apart(t, v, w) {
      assert Apart(st, v, w);
    }
  }

  lemma CleanedOk(s: Store, t: Txn)
    requires Consecutive(s)
    ensures Consecutive(Without(s, t.Path())) && forall u: Txn | TxnOk(s, u) :: TxnOk(Without(s, t.Path()), u)
  {}

  lemma DeleteSound(st: State, a: Action)
    requires Sound(st) && Enabled(st, a) && a.Delete?
    ensures Sound(Step(st, a))
  {
    var t := Step(st, a);
    forall w | 0 <= w < |t.writers| ensures WriterOk(t, w) {
      assert WriterOk(st, w);
      if st.writers[w].Saved? {
        NotOfAnother(st, st.writers[w].txn, a.id);
      }
    }
    forall v, w | 0 <= v < |t.writers| && 0 <= w < |t.writers| ensures Apart(t, v, w) {
      assert Apart(st, v, w);
    }
  }

  lemma NotOfAnother(st: State, t: Txn, id: string)
    requires Consecutive(st.store) && TxnOk(st.store, t) && t.id != id
    ensures forall key | key in st.store.versions && key.0 == id :: st.store.versions[key].path != t.Path()
  {
    forall key | key in st.store.versions && key.0 == id ensures st.store.versions[key].path != t.Path() {
      if st.store.versions[key].path == t.Path() {
        var row := st.store.files[id];
        PathInjective(row.namespace, row.collection, id, key.1, t.row.namespace, t.row.collection, t.id, t.row.current);
      }
    }
  }

  /** The numbering survives every interleaving, stale writers and failures of every kind included. */
  lemma StepSound(st: State, a: Action)
    requires Sound(st) && Enabled(st, a)
    ensures Sound(Step(st, a))
  {
    hide Sound;
    match a
    case Open(_, _, _, _) => OpenSound(st, a);
    case Save(_, _) => SaveSound(st, a);
    case Commit(_, _, _) => CommitSound(st, a);
    case Delete(_, _, _) => DeleteSound(st, a);
  }

  /** What endangers a committed version: writing over it, cleaning it up, be it one's own that was committed but not read
      back, or a delete that keeps its row. */
  ghost predicate Harms(st: State, a: Action)
    requires Enabled(st, a)
  {
    match a
    case Open(_, _, _, _) => false
    case Save(w, result) =>
      var t, versions := st.writers[w].txn, st.store.versions;
      t.Key() in versions
      && (match result
          case SaveOk => t.content != versions[t.Key()].content
          case SaveFailed(junk) => junk.Some? && junk.value != versions[t.Key()].content)
    case Commit(w, outcome, cleanedUp) =>
      var t := st.writers[w].txn;
      cleanedUp && (t.Key() in st.store.versions || (outcome.Unrefreshed? && Admissible(st.store, t)))
    case Delete(id, kept, committed) => !committed && exists v: nat :: (id, v) in st.store.versions && v !in kept
  }

  lemma OverwritesExactly(s: Store, t: Txn, content: string)
    requires Consecutive(s) && TxnOk(s, t) && Stored(s)
    ensures Stored(s.(blobs := s.blobs[t.Path() := content])) <==> !(t.Key() in s.versions && content != s.versions[t.Key()].content)
  {
    hide PathOf;
    var u := s.(blobs := s.blobs[t.Path() := content]);
    forall key | key in s.versions && s.versions[key].path == t.Path() ensures key == t.Key() {
      KeyOfPath(s, t, key);
    }
    if t.Key() in s.versions {
      assert u.versions[t.Key()].path == t.Path();
    }
  }

  lemma KeyOfPath(s: Store, t: Txn, key: (string, nat))
    requires Consecutive(s) && TxnOk(s, t) && key in s.versions && s.versions[key].path == t.Path()
    ensures key == t.Key()
  {
    var row := s.files[key.0];
    PathInjective(row.namespace, row.collection, key.0, key.1, t.row.namespace, t.row.collection, t.id, t.row.current);
  }

  lemma CleansUpExactly(s: Store, t: Txn)
    requires Consecutive(s) && TxnOk(s, t) && Stored(s)
    ensures Stored(Without(s, t.Path())) <==> t.Key() !in s.versions
  {
    hide PathOf;
    forall key | key in s.versions && s.versions[key].path == t.Path() ensures key == t.Key() {
      KeyOfPath(s, t, key);
    }
    if t.Key() in s.versions {
      assert Without(s, t.Path()).versions[t.Key()].path == t.Path();
    }
  }

  lemma CommitsStored(s: Store, t: Txn)
    requires Stored(s) && t.Path() in s.blobs && s.blobs[t.Path()] == t.content
    ensures Stored(Committed(s, t))
  {}

  /** Cleaning up after one's own commit leaves the version without its content. */
  lemma CleansUpOwn(s: Store, t: Txn)
    ensures var u := Without(Committed(s, t), t.Path());
            t.Key() in u.versions && u.versions[t.Key()].path !in u.blobs && !Stored(u)
  {}

  lemma TakenIsRefused(s: Store, t: Txn)
    requires exists key :: key in s.versions && s.versions[key].path == t.Path()
    ensures !Admissible(s, t)
  {}

  lemma DeletesExactly(s: Store, id: string, kept: set<nat>, committed: bool)
    requires Consecutive(s) && Stored(s) && id in s.files
    ensures Stored(Deleted(s, id, kept, committed)) <==> committed || forall v: nat | (id, v) in s.versions :: v in kept
  {
    var t := Deleted(s, id, kept, committed);
    forall key, other | key in s.versions && other in s.versions && s.versions[key].path == s.versions[other].path
      ensures key == other
    {
      SamePathSameVersion(s, key, other);
    }
    if v: nat :| (id, v) in s.versions && v !in kept {
      assert committed || (id, v) in t.versions;
    }
  }

  lemma SamePathSameVersion(s: Store, key: (string, nat), other: (string, nat))
    requires Consecutive(s) && key in s.versions && other in s.versions && s.versions[key].path == s.versions[other].path
    ensures key == other
  {
    var row, row' := s.files[key.0], s.files[other.0];
    PathInjective(row.namespace, row.collection, key.0, key.1, row'.namespace, row'.collection, other.0, other.1);
  }

  /** A step keeps every committed content in place unless it is one of those, and then it does not. */
  lemma StepStoredExactly(st: State, a: Action)
    requires Sound(st) && Stored(st.store) && Enabled(st, a)
    ensures Stored(Step(st, a).store) <==> !Harms(st, a)
  {
    hide Consecutive, TxnOk, Stored, Admissible;
    match a
    case Open(_, _, _, _) => OpenStored(st, a);
    case Save(w, result) =>
      assert WriterOk(st, w);
      var t := st.writers[w].txn;
      OverwritesExactly(st.store, t, if result.SaveFailed? && result.junk.Some? then result.junk.value else t.content);
    case Commit(w, outcome, cleanedUp) =>
      assert WriterOk(st, w);
      if GoesThrough(st.store, st.writers[w].txn, outcome) {
        CommittedIsNext(st.store, st.writers[w].txn);
        CommitsStored(st.store, st.writers[w].txn);
        CleansUpOwn(st.store, st.writers[w].txn);
      } else {
        CleansUpExactly(st.store, st.writers[w].txn);
        PathTakenExactly(st.store, st.writers[w].txn);
        if st.writers[w].txn.Key() in st.store.versions {
          TakenIsRefused(st.store, st.writers[w].txn);
        }
      }
    case Delete(id, kept, committed) => DeletesExactly(st.store, id, kept, committed);
  }

  lemma OpenStored(st: State, a: Action)
    requires Stored(st.store) && Enabled(st, a) && a.Open?
    ensures Stored(Step(st, a).store)
  {}

  /** A committed version never changes, whatever happens, until its file is deleted. */
  lemma HistoryKept(st: State, a: Action, key: (string, nat))
    requires Sound(st) && Enabled(st, a) && key in st.store.versions
    requires !(a.Delete? && a.committed && a.id == key.0)
    ensures key in Step(st, a).store.versions && Step(st, a).store.versions[key] == st.store.versions[key]
  {
    if a.Commit? {
      assert WriterOk(st, a.writer);
      if GoesThrough(st.store, st.writers[a.writer].txn, a.outcome) {
        CommittedIsNext(st.store, st.writers[a.writer].txn);
      }
    }
  }

  // Runs in which no two writes of one file overlap.

  /** Each busy writer is about to commit a number that is still free, and no two share a file. */
  ghost predicate Unshared(st: State) {
    && (forall w | 0 <= w < |st.writers| && !st.writers[w].Idle? :: st.writers[w].txn.Key() !in st.store.versions)
    && (forall v, w | 0 <= v < |st.writers| && 0 <= w < |st.writers| && v != w && !st.writers[v].Idle? && !st.writers[w].Idle? ::
          st.writers[v].txn.id != st.writers[w].txn.id)
  }

  /** A write of a file starts when no other is under way; what was committed is read back or left alone; a delete goes through. */
  predicate Polite(st: State, a: Action) {
    match a
    case Open(_, _, Some(id), _) => forall w | 0 <= w < |st.writers| && !st.writers[w].Idle? :: st.writers[w].txn.id != id
    case Commit(_, outcome, cleanedUp) => !(outcome.Unrefreshed? && cleanedUp)
    case Delete(_, _, committed) => committed
    case _ => true
  }

  lemma PoliteStep(st: State, a: Action)
    requires Sound(st) && Unshared(st) && Enabled(st, a) && Polite(st, a)
    ensures Unshared(Step(st, a)) && !Harms(st, a)
  {
    hide Admissible, Deleted;
    match a
    case Open(w, r, target, newId) => PoliteOpen(st, a);
    case Save(w, result) =>
    case Commit(w, outcome, cleanedUp) => PoliteCommit(st, a);
    case Delete(id, kept, committed) => PoliteDelete(st, a);
  }

  lemma PoliteOpen(st: State, a: Action)
    requires Sound(st) && Unshared(st) && Enabled(st, a) && Polite(st, a) && a.Open?
    ensures Unshared(Step(st, a))
  {
    var t := Step(st, a);
    FreshKey(st.store, a);
    forall v, w | 0 <= v < |t.writers| && 0 <= w < |t.writers| && v != w && !t.writers[v].Idle? && !t.writers[w].Idle?
      ensures t.writers[v].txn.id != t.writers[w].txn.id
    {
      assert WriterOk(st, v) && WriterOk(st, w);
    }
    forall w | 0 <= w < |t.writers| && !t.writers[w].Idle? ensures t.writers[w].txn.Key() !in t.store.versions {
      assert w != a.writer ==> st.writers[w] == t.writers[w];
    }
  }

  lemma FreshKey(s: Store, a: Action)
    requires Consecutive(s) && a.Open? && IsTarget(s, a.request, a.target) && a.newId !in s.used
    ensures Prepared(s, a.request, a.target, a.newId).Key() !in s.versions
  {}

  lemma PoliteCommit(st: State, a: Action)
    requires Sound(st) && Unshared(st) && Enabled(st, a) && a.Commit?
    ensures Unshared(Step(st, a))
  {}

  lemma PoliteDelete(st: State, a: Action)
    requires Unshared(st) && Enabled(st, a) && a.Delete?
    ensures Unshared(Step(st, a))
  {}

  ghost predicate PoliteRun(st: State, schedule: seq<Action>)
    decreases schedule
  {
    schedule == []
    || if Enabled(st, schedule[0]) then Polite(st, schedule[0]) && PoliteRun(Step(st, schedule[0]), schedule[1..])
       else PoliteRun(st, schedule[1..])
  }

  lemma {:induction false} RunSound(st: State, schedule: seq<Action>)
    requires Sound(st)
    ensures Sound(Run(st, schedule))
    decreases schedule
  {
    hide Sound;
    if schedule != [] {
      if Enabled(st, schedule[0]) {
        StepSound(st, schedule[0]);
        RunSound(Step(st, schedule[0]), schedule[1..]);
      } else {
        RunSound(st, schedule[1..]);
      }
    }
  }

  lemma {:induction false} RunStored(st: State, schedule: seq<Action>)
    requires Sound(st) && Unshared(st) && Stored(st.store) && PoliteRun(st, schedule)
    ensures Stored(Run(st, schedule).store)
    decreases schedule
  {
    hide Sound, Unshared, Stored, Harms, Polite;
    if schedule != [] {
      if Enabled(st, schedule[0]) {
        PoliteStep(st, schedule[0]);
        StepSound(st, schedule[0]);
        StepStoredExactly(st, schedule[0]);
        RunStored(Step(st, schedule[0]), schedule[1..]);
      } else {
        RunStored(st, schedule[1..]);
      }
    }
  }

  /** Any number of writers, in any interleaving, with any failures: the numbers are always exactly 1 to the current one. */
  lemma AlwaysConsecutive(writers: nat, schedule: seq<Action>)
    ensures Consecutive(Run(Init(writers), schedule).store)
  {
    RunSound(Init(writers), schedule);
  }

  /** With overlapping writes of one file, failed deletes and failed refreshes excluded, every version has its blob, too. */
  lemma StoredWhenPolite(writers: nat, schedule: seq<Action>)
    requires PoliteRun(Init(writers), schedule)
    ensures Stored(Run(Init(writers), schedule).store)
  {
    RunStored(Init(writers), schedule);
  }

  /** One writer at a time never meets another, so only a failed delete or a failed refresh can do harm. */
  lemma {:induction false} AloneIsPolite(st: State, schedule: seq<Action>)
    requires |st.writers| == 1
    requires forall a | a in schedule :: (a.Delete? ==> a.committed) && (a.Commit? ==> !(a.outcome.Unrefreshed? && a.cleanedUp))
    ensures PoliteRun(st, schedule)
    decreases schedule
  {
    if schedule != [] {
      if Enabled(st, schedule[0]) {
        assert Polite(st, schedule[0]);
        AloneIsPolite(Step(st, schedule[0]), schedule[1..]);
      } else {
        AloneIsPolite(st, schedule[1..]);
      }
    }
  }

  lemma RunFirst(st: State, a: Action, rest: seq<Action>)
    requires Enabled(st, a)
    ensures Run(st, [a] + rest) == Run(Step(st, a), rest)
  {}

  /** A single writer is enough: its commit goes through, reading the row back fails, and the clean-up deletes the blob of
      the version just committed. From any state in which a writer is about to commit. */
  lemma RefreshFailureLosesBlob(st: State, w: nat)
    requires Sound(st) && w < |st.writers| && st.writers[w].Saved? && Admissible(st.store, st.writers[w].txn)
    ensures var t, after := st.writers[w].txn, Step(st, Commit(w, Unrefreshed, true)).store;
            && Consecutive(after) && t.Key() in after.versions && after.files[t.id] == t.row
            && after.versions[t.Key()].path !in after.blobs && !Stored(after)
  {
    StepSound(st, Commit(w, Unrefreshed, true));
    CleansUpOwn(st.store, st.writers[w].txn);
  }

  /** A writer whose number has been taken meanwhile saves over the blob, fails on the unique path, and cleans up. */
  lemma StaleWriterCleansUp(st: State, w: nat, outcome: CommitOutcome)
    requires Sound(st) && w < |st.writers| && st.writers[w].Opened? && !Locked(st, st.writers[w].txn.id)
    requires st.writers[w].txn.Key() in st.store.versions
    ensures var after, path := Run(st, [Save(w, SaveOk), Commit(w, outcome, true)]).store, st.writers[w].txn.Path();
            && after.files == st.store.files && after.versions == st.store.versions
            && st.store.versions[st.writers[w].txn.Key()].path == path && path !in after.blobs
  {
    assert WriterOk(st, w);
    var t := st.writers[w].txn;
    PathTakenExactly(st.store, t);
    var saved := Step(st, Save(w, SaveOk));
    RunFirst(st, Save(w, SaveOk), [Commit(w, outcome, true)] + []);
    RunFirst(saved, Commit(w, outcome, true), []);
    assert [Save(w, SaveOk), Commit(w, outcome, true)] == [Save(w, SaveOk)] + ([Commit(w, outcome, true)] + []);
    assert t.Key() in saved.store.versions && saved.store.versions[t.Key()].path == t.Path();
  }

  /** The first of two writers at the same number commits it. */
  lemma FirstWriterCommits(st: State, v: nat, w: nat)
    requires Sound(st) && v < |st.writers| && w < |st.writers| && v != w && st.writers[v].Opened? && st.writers[w].Opened?
    requires var t, u := st.writers[v].txn, st.writers[w].txn;
             t.id in st.store.files && t.row.current == st.store.files[t.id].current + 1 && u.Key() == t.Key() && !Locked(st, t.id)
    ensures Enabled(st, Save(v, SaveOk)) && Enabled(Step(st, Save(v, SaveOk)), Commit(v, Accepted, true))
    ensures var after, t := Step(Step(st, Save(v, SaveOk)), Commit(v, Accepted, true)), st.writers[v].txn;
            && Sound(after) && |after.writers| == |st.writers| && after.writers[w] == st.writers[w] && !Locked(after, t.id)
            && t.Key() in after.store.versions && after.store.versions[t.Key()].content == t.content
            && t.id in after.store.files && after.store.files[t.id].current == t.row.current
  {
    var t, saved := st.writers[v].txn, Step(st, Save(v, SaveOk));
    StepSound(st, Save(v, SaveOk));
    StepSound(saved, Commit(v, Accepted, true));
    assert WriterOk(st, v);
    PathTakenExactly(st.store, t);
    assert t.Key() !in st.store.versions;
    assert Admissible(saved.store, t);
  }

  /** Two writers read the same version of a file, the first commits the next one, the second goes on: the committed
      version is left without a blob. From any state, on any file. */
  lemma OverlapLosesBlob(st: State, r: Request, r': Request, id: string, n: string, n': string, outcome: CommitOutcome)
      returns (schedule: seq<Action>)
    requires Sound(st) && |st.writers| >= 2 && st.writers[0] == Idle && st.writers[1] == Idle && !Locked(st, id)
    requires IsTarget(st.store, r, Some(id)) && IsTarget(st.store, r', Some(id))
    requires n != n' && '/' !in n && '/' !in n' && n !in st.store.used && n' !in st.store.used
    ensures var after := Run(st, schedule).store;
            var key := (id, st.store.files[id].current + 1);
            && id in after.files && after.files[id].current == key.1 && key in after.versions
            && after.versions[key].content == r.content && after.versions[key].path !in after.blobs
  {
    hide Sound, Locked, Admissible;
    var open, open' := Open(0, r, Some(id), n), Open(1, r', Some(id), n');
    var save, commit := Save(0, SaveOk), Commit(0, Accepted, true);
    var rest := [Save(1, SaveOk), Commit(1, outcome, true)];
    schedule := [open] + ([open'] + ([save] + ([commit] + rest)));
    var reading := Step(st, open);
    StepSound(st, open);
    StepSound(reading, open');
    var both := Step(reading, open');
    NotLockedByOpening(st, open, id);
    NotLockedByOpening(reading, open', id);
    FirstWriterCommits(both, 0, 1);
    StaleWriterCleansUp(Step(Step(both, save), commit), 1, outcome);
    RunFirst(st, open, [open'] + ([save] + ([commit] + rest)));
    RunFirst(reading, open', [save] + ([commit] + rest));
    RunFirst(both, save, [commit] + rest);
    RunFirst(Step(both, save), commit, rest);
  }

  lemma NotLockedByOpening(st: State, a: Action, id: string)
    requires a.Open? && Enabled(st, a) && !Locked(st, id)
    ensures !Locked(Step(st, a), id)
  {}

  // An edit reads the text in one call and writes it back in another.

  function WriteBy(w: nat, r: Request, id: string, n: string): seq<Action> {
    [Open(w, r, Some(id), n)] + ([Save(w, SaveOk)] + ([Commit(w, Accepted, true)] + []))
  }

  /** An undisturbed write to a file, from any state: the next version, with the content given. */
  lemma WriteAppends(st: State, w: nat, r: Request, id: string, n: string)
    requires Sound(st) && w < |st.writers| && st.writers[w].Idle? && !Locked(st, id)
    requires IsTarget(st.store, r, Some(id)) && '/' !in n && n !in st.store.used
    ensures var t, key := Run(st, WriteBy(w, r, id, n)), (id, st.store.files[id].current + 1);
            && Sound(t) && t.writers == st.writers && t.store.used == st.store.used + {n}
            && t.store.files == st.store.files[id := st.store.files[id].(current := key.1, contentType := r.contentType)]
            && key !in st.store.versions && key in t.store.versions && t.store.versions[key].content == r.content
            && forall earlier | earlier in st.store.versions ::
                 earlier in t.store.versions && t.store.versions[earlier] == st.store.versions[earlier]
  {
    hide Sound, Run;
    var open, save, commit := Open(w, r, Some(id), n), Save(w, SaveOk), Commit(w, Accepted, true);
    var reading := Step(st, open);
    StepSound(st, open);
    NotLockedByOpening(st, open, id);
    var txn := reading.writers[w].txn;
    var saved := Step(reading, save);
    StepSound(reading, save);
    StepSound(saved, commit);
    PreparedIsFree(reading, w);
    RunFirst(st, open, [save] + ([commit] + []));
    RunFirst(reading, save, [commit] + []);
    RunFirst(saved, commit, []);
    RunNone(Step(saved, commit));
    assert Step(saved, commit).writers == st.writers;
  }

  lemma RunNone(st: State)
    ensures Run(st, []) == st
  {}

  /** A number above the current one is free, and its commit is let through. */
  lemma PreparedIsFree(st: State, w: nat)
    requires Sound(st) && w < |st.writers| && st.writers[w].Opened? && !st.writers[w].txn.isNew
    requires var t := st.writers[w].txn; t.id in st.store.files && t.row.current == st.store.files[t.id].current + 1
    ensures st.writers[w].txn.Key() !in st.store.versions && Admissible(st.store, st.writers[w].txn)
  {
    assert WriterOk(st, w);
    PathTakenExactly(st.store, st.writers[w].txn);
  }

  /** The lost update, from any state and on any file: what another writer commits between the reading of a text and
      the writing back of its edit becomes a version of its own, but the current text is the edit of the one before. */
  lemma LostUpdate(st: State, other: Request, back: Request, id: string, n: string, n': string, target: string, substitute: string)
    requires Sound(st) && |st.writers| >= 2 && st.writers[0] == Idle && st.writers[1] == Idle && !Locked(st, id)
    requires IsTarget(st.store, other, Some(id)) && IsTarget(st.store, back, Some(id))
    requires n != n' && '/' !in n && '/' !in n' && n !in st.store.used && n' !in st.store.used
    requires target != "" && (id, st.store.files[id].current) in st.store.versions
    requires back.content == ReplaceFirst(st.store.versions[(id, st.store.files[id].current)].content, target, substitute)
    ensures var v := st.store.files[id].current;
            var after := Run(Run(st, WriteBy(0, other, id, n)), WriteBy(1, back, id, n')).store;
            && id in after.files && after.files[id].current == v + 2
            && (id, v) in after.versions && (id, v + 1) in after.versions && (id, v + 2) in after.versions
            && after.versions[(id, v + 1)].content == other.content
            && after.versions[(id, v + 2)].content == ReplaceFirst(after.versions[(id, v)].content, target, substitute)
  {
    hide Sound, Run, ReplaceFirst, WriteBy;
    WriteAppends(st, 0, other, id, n);
    WriteAppends(Run(st, WriteBy(0, other, id, n)), 1, back, id, n');
  }

  /** The commits of a file that go through in a schedule. */
  ghost predicate CommitsTo(st: State, a: Action, id: string) {
    Enabled(st, a) && a.Commit? && st.writers[a.writer].txn.id == id && GoesThrough(st.store, st.writers[a.writer].txn, a.outcome)
  }

  ghost function CommitsOf(st: State, schedule: seq<Action>, id: string): nat
    decreases schedule
  {
    if schedule == [] then 0
    else (if CommitsTo(st, schedule[0], id) then 1 else 0)
         + CommitsOf(if Enabled(st, schedule[0]) then Step(st, schedule[0]) else st, schedule[1..], id)
  }

  predicate Deletes(a: Action, id: string) { a.Delete? && a.committed && a.id == id }

  lemma CurrentStep(st: State, a: Action, id: string)
    requires Sound(st) && Enabled(st, a) && id in st.store.files && !Deletes(a, id)
    ensures id in Step(st, a).store.files
    ensures Step(st, a).store.files[id].current == st.store.files[id].current + if CommitsTo(st, a, id) then 1 else 0
  {
    if a.Commit? {
      assert WriterOk(st, a.writer);
      if GoesThrough(st.store, st.writers[a.writer].txn, a.outcome) {
        CommittedIsNext(st.store, st.writers[a.writer].txn);
      }
    }
  }

  /** While a file is not deleted, its current version counts its commits, and every version it had stays as it was. */
  lemma {:induction false} CurrentCounts(st: State, schedule: seq<Action>, id: string, v: nat)
    requires Sound(st) && id in st.store.files && (id, v) in st.store.versions
    requires forall a | a in schedule :: !Deletes(a, id)
    ensures var t := Run(st, schedule);
            && Sound(t) && id in t.store.files && t.store.files[id].current == st.store.files[id].current + CommitsOf(st, schedule, id)
            && (id, v) in t.store.versions && t.store.versions[(id, v)] == st.store.versions[(id, v)]
    decreases schedule
  {
    hide Sound, CommitsTo, Step, Enabled;
    if schedule != [] {
      if Enabled(st, schedule[0]) {
        StepSound(st, schedule[0]);
        CurrentStep(st, schedule[0], id);
        HistoryKept(st, schedule[0], (id, v));
        CurrentCounts(Step(st, schedule[0]), schedule[1..], id, v);
      } else {
        NoCommit(st, schedule[0], id);
        CurrentCounts(st, schedule[1..], id, v);
      }
    }
  }

  lemma NoCommit(st: State, a: Action, id: string)
    requires !Enabled(st, a)
    ensures !CommitsTo(st, a, id)
  {}

  /** Whatever happens between the reading of a version and the writing back of its edit, the version read is still there,
      and the edit directly follows it if and only if no commit of the file came between. */
  lemma NothingLostExactly(st: State, between: seq<Action>, w: nat, back: Request, id: string, n: string)
    requires Sound(st) && id in st.store.files && forall a | a in between :: !Deletes(a, id)
    requires var t := Run(st, between);
             && w < |t.writers| && t.writers[w].Idle? && !Locked(t, id)
             && IsTarget(t.store, back, Some(id)) && '/' !in n && n !in t.store.used
    ensures var v := st.store.files[id].current;
            var after := Run(Run(st, between), WriteBy(w, back, id, n)).store;
            && id in after.files && (id, after.files[id].current) in after.versions
            && after.versions[(id, after.files[id].current)].content == back.content
            && (id, v) in st.store.versions && (id, v) in after.versions && after.versions[(id, v)] == st.store.versions[(id, v)]
            && (after.files[id].current == v + 1 <==> CommitsOf(st, between, id) == 0)
  {
    var v := st.store.files[id].current;
    assert (id, v) in st.store.versions;
    hide Sound, Run, WriteBy, CommitsOf;
    CurrentCounts(st, between, id, v);
    WriteAppends(Run(st, between), w, back, id, n);
  }
}
