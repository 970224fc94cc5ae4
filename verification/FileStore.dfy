/** Versioned files: rows and version rows in the database, contents in a blob store that knows nothing of transactions. */
module FileStore {
  import opened Strings
  import opened Text

  datatype FileRow = FileRow(namespace: string, collection: string, name: string, owner: string, shared: bool,
                             contentType: string, current: nat)

  /** A version row; `content` stands for its size and hash columns. */
  datatype Version = Version(path: string, content: string)

  /** The committed rows, the blobs, and every file id handed out so far. */
  datatype Store = Store(
    files: map<string, FileRow>, versions: map<(string, nat), Version>, blobs: map<string, string>, used: set<string>)

  function PathOf(namespace: string, collection: string, id: string, version: nat): string {
    namespace + "/" + collection + "/" + id + "/v" + Decimal(version)
  }

  /** No two versions share a path, since a file id has no slash. */
  lemma PathInjective(n: string, c: string, id: string, v: nat, n': string, c': string, id': string, v': nat)
    requires '/' !in id && '/' !in id' && PathOf(n, c, id, v) == PathOf(n', c', id', v')
    ensures id == id' && v == v'
  {
    PathSplits(n, c, id, v);
    PathSplits(n', c', id', v');
    assert ("v" + Decimal(v))[1..] == Decimal(v) && ("v" + Decimal(v'))[1..] == Decimal(v');
    DecimalInjective(v, v');
  }

  lemma PathSplits(n: string, c: string, id: string, v: nat)
    requires '/' !in id
    ensures SplitLast(PathOf(n, c, id, v), '/') == Some((n + "/" + c + "/" + id, "v" + Decimal(v)))
    ensures SplitLast(n + "/" + c + "/" + id, '/') == Some((n + "/" + c, id))
  {
    DecimalDigits(v);
    var dir := n + "/" + c + "/" + id;
    assert PathOf(n, c, id, v) == dir + ['/'] + ("v" + Decimal(v));
    SplitLastParts(dir, '/', "v" + Decimal(v));
    assert dir == n + "/" + c + ['/'] + id;
    SplitLastParts(n + "/" + c, '/', id);
  }

  /** What a write has prepared: the row it will commit, and the content of its version. */
  datatype Txn = Txn(id: string, isNew: bool, row: FileRow, content: string)
  {
    function Path(): string { PathOf(row.namespace, row.collection, id, row.current) }
    function Key(): (string, nat) { (id, row.current) }
  }

  datatype Writer = Idle | Opened(txn: Txn) | Saved(txn: Txn)

  datatype State = State(store: Store, writers: seq<Writer>)

  /** A storage call: done, or failed, possibly leaving something at the path. */
  datatype SaveResult = SaveOk | SaveFailed(junk: Option<string>)

  /** Commit and refresh stand in one `try`: both done, the commit refused, or committed but the row not read back. */
  datatype CommitOutcome = Accepted | Refused | Unrefreshed

  datatype Request = Request(namespace: string, collection: string, user: string, name: string, contentType: string, content: string)

  /** One atomic step of one of the writers, or a delete. `target` is the row the file query returned. */
  datatype Action =
    | Open(writer: nat, request: Request, target: Option<string>, newId: string)
    | Save(writer: nat, result: SaveResult)
    | Commit(writer: nat, outcome: CommitOutcome, cleanedUp: bool)
    | Delete(id: string, keptBlobs: set<nat>, committed: bool)

  predicate InCollection(row: FileRow, r: Request) {
    row.namespace == r.namespace && row.collection == r.collection && row.name == r.name
  }

  predicate Writable(row: FileRow, r: Request) { InCollection(row, r) && (row.owner == r.user || row.shared) }

  /** The file a write finds: one of its own before a shared one, `None` only if there is neither. */
  ghost predicate IsTarget(s: Store, r: Request, target: Option<string>) {
    match target
    case Some(id) =>
      && id in s.files && Writable(s.files[id], r)
      && (s.files[id].owner != r.user ==>
            forall other | other in s.files && Writable(s.files[other], r) :: s.files[other].owner != r.user)
    case None => forall id | id in s.files :: !Writable(s.files[id], r)
  }

  /** The version to be: the next one of the file found, or the first of a new shared file. */
  function Prepared(s: Store, r: Request, target: Option<string>, newId: string): Txn
    requires target.Some? ==> target.value in s.files
  {
    match target
    case Some(id) => Txn(id, false, s.files[id].(current := s.files[id].current + 1, contentType := r.contentType), r.content)
    case None => Txn(newId, true, FileRow(r.namespace, r.collection, r.name, r.user, true, r.contentType, 1), r.content)
  }

  /** The row update holds the row until its transaction ends; `Save` stands for the update and the storage call. */
  predicate Locked(st: State, id: string) {
    exists w | 0 <= w < |st.writers| :: st.writers[w].Saved? && st.writers[w].txn.id == id
  }

  ghost predicate Enabled(st: State, a: Action) {
    match a
    case Open(w, r, target, newId) =>
      w < |st.writers| && st.writers[w].Idle? && IsTarget(st.store, r, target) && '/' !in newId && newId !in st.store.used
    case Save(w, _) => w < |st.writers| && st.writers[w].Opened? && !Locked(st, st.writers[w].txn.id)
    case Commit(w, _, _) => w < |st.writers| && st.writers[w].Saved?
    case Delete(id, _, _) => id in st.store.files && !Locked(st, id)
  }

  /** The unique path, the row to update, or the fresh key, whatever else may make the database refuse. */
  predicate Admissible(s: Store, t: Txn) {
    (t.id in s.files <==> !t.isNew) && forall key | key in s.versions :: s.versions[key].path != t.Path()
  }

  function Committed(s: Store, t: Txn): Store {
    s.(files := s.files[t.id := t.row], versions := s.versions[t.Key() := Version(t.Path(), t.content)])
  }

  function Without(s: Store, path: string): Store { s.(blobs := s.blobs - {path}) }

  /** Whether the rows are committed. */
  predicate GoesThrough(s: Store, t: Txn, outcome: CommitOutcome) { !outcome.Refused? && Admissible(s, t) }

  /** Unless all went well the blob is deleted, or the attempt to do so fails. */
  function AfterCommit(s: Store, t: Txn, outcome: CommitOutcome, cleanedUp: bool): Store {
    var u := if GoesThrough(s, t, outcome) then Committed(s, t) else s;
    if (GoesThrough(s, t, outcome) && outcome.Accepted?) || !cleanedUp then u else Without(u, t.Path())
  }

  function Deleted(s: Store, id: string, keptBlobs: set<nat>, committed: bool): Store {
    var paths := set key | key in s.versions && key.0 == id && key.1 !in keptBlobs :: s.versions[key].path;
    var t := s.(blobs := s.blobs - paths);
    if committed then t.(files := s.files - {id}, versions := map key | key in s.versions && key.0 != id :: s.versions[key]) else t
  }

  function Step(st: State, a: Action): State
    requires Enabled(st, a)
  {
    match a
    case Open(w, r, target, newId) =>
      State(st.store.(used := st.store.used + {newId}), st.writers[w := Opened(Prepared(st.store, r, target, newId))])
    case Save(w, result) =>
      var t := st.writers[w].txn;
      (match result
       case SaveOk => State(st.store.(blobs := st.store.blobs[t.Path() := t.content]), st.writers[w := Saved(t)])
       case SaveFailed(None) => st.(writers := st.writers[w := Idle])
       case SaveFailed(Some(junk)) => State(st.store.(blobs := st.store.blobs[t.Path() := junk]), st.writers[w := Idle]))
    case Commit(w, outcome, cleanedUp) =>
      State(AfterCommit(st.store, st.writers[w].txn, outcome, cleanedUp), st.writers[w := Idle])
    case Delete(id, keptBlobs, committed) => st.(store := Deleted(st.store, id, keptBlobs, committed))
  }

  ghost function Run(st: State, schedule: seq<Action>): State
    decreases schedule
  {
    if schedule == [] then st
    else Run(if Enabled(st, schedule[0]) then Step(st, schedule[0]) else st, schedule[1..])
  }

  ghost function Init(writers: nat): State { State(Store(map[], map[], map[], {}), seq(writers, _ => Idle)) }
}
