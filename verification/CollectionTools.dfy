/** The agent's file tools on the rows and blobs they update in place, one call at a time. */
module CollectionTools {
  import opened Strings
  import opened Text
  import opened FileStore
  import opened FileProtocol

  const TEXT_TYPES := {
    "text/plain", "text/html", "text/css", "text/javascript", "text/csv", "text/markdown", "text/xml", "text/yaml",
    "application/json", "application/xml", "application/yaml", "application/x-yaml", "application/javascript",
    "application/typescript", "application/x-python", "application/x-sh", "application/sql"}

  predicate IsText(contentType: string) { contentType in TEXT_TYPES || "text/" <= contentType }

  /** Which types are read as text: those that say so, and nine of the applications'. */
  lemma IsTextExactly(contentType: string)
    ensures "text/" <= contentType ==> IsText(contentType)
    ensures IsText(contentType) && !("text/" <= contentType) ==>
              "application/" <= contentType && contentType[12..] in {
                "json", "xml", "yaml", "x-yaml", "javascript", "typescript", "x-python", "x-sh", "sql"}
    ensures IsText("application/json") && IsText("application/xml") && IsText("application/yaml") && IsText("application/x-yaml")
    ensures IsText("application/javascript") && IsText("application/typescript") && IsText("application/x-python")
    ensures IsText("application/x-sh") && IsText("application/sql")
  {}

  const TYPES_BY_EXTENSION := [
    (".yaml", "application/x-yaml"), (".yml", "application/x-yaml"), (".json", "application/json"), (".md", "text/markdown"),
    (".py", "text/x-python"), (".txt", "text/plain"), (".sql", "application/sql"), (".js", "application/javascript"),
    (".ts", "application/typescript"), (".csv", "text/csv"), (".html", "text/html"), (".css", "text/css"), (".xml", "application/xml")]

  function Lower(s: string): string {
    seq(|s|, i requires 0 <= i < |s| => if 'A' <= s[i] <= 'Z' then s[i] - 'A' + 'a' else s[i])
  }

  predicate EndsWith(s: string, suffix: string) { |s| >= |suffix| && s[|s| - |suffix|..] == suffix }

  /** The type of the first extension, from the `i`th on, that fits. */
  function TypeFrom(filename: string, i: nat): string
    decreases |TYPES_BY_EXTENSION| - i
  {
    if i >= |TYPES_BY_EXTENSION| then "text/plain"
    else if EndsWith(Lower(filename), TYPES_BY_EXTENSION[i].0) then TYPES_BY_EXTENSION[i].1
    else TypeFrom(filename, i + 1)
  }

  /** Whatever is written through the tools can be read as text. */
  method InferContentType(filename: string) returns (contentType: string)
    ensures contentType == TypeFrom(filename, 0) && IsText(contentType)
  {
    for i := 0 to |TYPES_BY_EXTENSION|
      invariant TypeFrom(filename, 0) == TypeFrom(filename, i)
    {
      if EndsWith(Lower(filename), TYPES_BY_EXTENSION[i].0) {
        return TYPES_BY_EXTENSION[i].1;
      }
    }
    return "text/plain";
  }

  /** The first extension in the list that ends the name, upper case or lower, decides; plain text without one. */
  lemma {:induction false} TypeExactly(filename: string, i: nat, k: nat)
    requires forall j | i <= j < k && j < |TYPES_BY_EXTENSION| :: !Fits(filename, TYPES_BY_EXTENSION[j].0)
    ensures i <= k < |TYPES_BY_EXTENSION| && Fits(filename, TYPES_BY_EXTENSION[k].0) ==>
              TypeFrom(filename, i) == TYPES_BY_EXTENSION[k].1
    ensures k >= |TYPES_BY_EXTENSION| ==> TypeFrom(filename, i) == "text/plain"
    decreases |TYPES_BY_EXTENSION| - i
  {
    if i < |TYPES_BY_EXTENSION| {
      hide Lower, EndsWith, Fits;
      FitsExactly(filename, TYPES_BY_EXTENSION[i].0);
      if i < k {
        TypeExactly(filename, i + 1, k);
      }
    }
  }

  /** The name ends in the extension, letter for letter up to case. */
  predicate Fits(filename: string, extension: string) {
    && |extension| <= |filename|
    && forall j | 0 <= j < |extension| :: LowerCase(filename[|filename| - |extension| + j]) == extension[j]
  }

  function LowerCase(c: char): char { if 'A' <= c <= 'Z' then (c as int + 32) as char else c }

  lemma FitsExactly(filename: string, extension: string)
    ensures EndsWith(Lower(filename), extension) <==> Fits(filename, extension)
  {
    var low := Lower(filename);
    if |extension| <= |filename| {
      var start := |filename| - |extension|;
      forall j | 0 <= j < |extension| ensures low[start..][j] == LowerCase(filename[start + j]) {}
    }
  }

  datatype WriteResult =
    | Written(version: nat, created: bool)
    | NoFilename
    | NoContent
    | TooLarge
    | StorageFailed
    | CommitFailed

  datatype GetResult =
    | Content(id: string, content: string, range: Option<(nat, nat)>, total: nat)
    | Binary
    | FilenameRequired
    | NoSuchFile
    | SeveralFiles
    | NotAccessible
    | VersionMissing
    | ReadFailed

  datatype EditResult =
    | WrittenBack(result: WriteResult)
    | EditRefused
    | NoOldString
    | Unreadable(reason: GetResult)
    | NotFound
    | NotUnique(occurrences: nat)

  datatype DeleteResult = Gone | DeleteRefused | NothingToDelete | DeleteFailed

  /** What a reader of a text file is shown. */
  function View(id: string, text: string, offset: Option<int>, limit: Option<int>, raw: bool): GetResult {
    var lines := Split(text, '\n');
    var page := ReadPage(lines, offset, limit);
    if offset.Some? || limit.Some? then
      if raw then Content(id, Raw(page), None, |lines|) else Content(id, Numbered(page), Some((page.first, page.last)), |lines|)
    else Content(id, if raw then text else Numbered(page), None, |lines|)
  }

  /** The whole text as it is, or numbered from the first line to the last; a page of it, with its range if it is numbered. */
  lemma ViewExactly(id: string, text: string, offset: Option<int>, limit: Option<int>)
    ensures var lines := Split(text, '\n');
            && View(id, text, None, None, true) == Content(id, text, None, |lines|)
            && View(id, text, None, None, false) == Content(id, Numbered(Page(lines, 1, |lines|, |lines|)), None, |lines|)
            && (offset != None || limit != None ==>
                  var page := ReadPage(lines, offset, limit);
                  && View(id, text, offset, limit, true) == Content(id, Raw(page), None, |lines|)
                  && View(id, text, offset, limit, false)
                     == Content(id, Numbered(page), Some((page.first, page.last)), |lines|))
  {
    hide ReadPage;
    WholePage(Split(text, '\n'), 1);
  }

  const BYTES_PER_MB := 1024 * 1024

  class Collections {
    var files: map<string, FileRow>
    var versions: map<(string, nat), Version>
    var blobs: map<string, string>
    ghost var used: set<string>

    ghost function Store(): Store
      reads this
    {
      FileStore.Store.Store(files, versions, blobs, used)
    }

    /** The version numbers of every file are in order. */
    ghost predicate Valid()
      reads this
    {
      Consecutive(Store())
    }

    /** Every version has its content. */
    ghost predicate Intact()
      reads this
    {
      Stored(Store())
    }

    constructor ()
      ensures Valid() && Intact() && files == map[] && versions == map[]
    {
      files, versions, blobs, used := map[], map[], map[], {};
    }

    /** The content of a file now. */
    ghost function Current(id: string): string
      requires Valid() && id in files
      reads this
    {
      versions[(id, files[id].current)].content
    }

    /** What the storage holds for the current version of a file. */
    ghost function OnDisk(id: string): Option<string>
      requires Valid() && id in files
      reads this
    {
      var path := versions[(id, files[id].current)].path;
      if path in blobs then Some(blobs[path]) else None
    }

    /** The rows have gained version `v` of file `id`, and are otherwise as they were. */
    twostate predicate Gained(id: string, v: nat, content: string)
      reads this
    {
      && Valid() && id in files && files[id].current == v && Current(id) == content && IsText(files[id].contentType)
      && v == (if id in old(files) then old(files)[id].current + 1 else 1)
      && files.Keys == old(files).Keys + {id}
      && (forall other | other in old(files) && other != id :: files[other] == old(files)[other])
      && (id, v) !in old(versions) && versions == old(versions)[(id, v) := Version(PathAt(Store(), id, v), content)]
    }

    /** A write by a single caller. A success adds exactly the next version. A failed save or a refused commit changes no
        row. If the commit goes through and the row cannot be read back, the failure reported has added the version, too,
        and the clean-up takes its content away. */
    method WriteFile(namespace: string, collection: string, user: string, filename: string, content: Option<string>, maxMb: nat,
                     target: Option<string>, newId: string, result: SaveResult, outcome: CommitOutcome, cleanedUp: bool)
      returns (r: WriteResult)
      requires Valid() && IsTarget(Store(), Request(namespace, collection, user, filename, "", ""), target)
      requires '/' !in newId && newId !in used
      modifies this
      ensures Valid() && old(used) <= used
      ensures r.NoFilename? <==> filename == ""
      ensures r.NoContent? <==> filename != "" && content.None?
      ensures r.TooLarge? <==> filename != "" && content.Some? && |content.value| > maxMb * 1_048_576
      ensures r.StorageFailed? ==> result.SaveFailed?
      ensures r.CommitFailed? ==> result.SaveOk? && !outcome.Accepted?
      ensures r.Written? ==> outcome.Accepted? && r.created == (target.None?)
      ensures var id := if target.Some? then target.value else newId;
              if r.Written? || (r.CommitFailed? && outcome.Unrefreshed?)
              then id in files && (r.Written? ==> r.version == files[id].current) && Gained(id, files[id].current, content.value)
              else files == old(files) && versions == old(versions)
      ensures r.Written? || (r.CommitFailed? && outcome.Unrefreshed?) ==>
                if target.None?
                then files[newId] == FileRow(namespace, collection, filename, user, true, TypeFrom(filename, 0), 1)
                else var row := old(files)[target.value];
                     files[target.value] == row.(current := row.current + 1, contentType := TypeFrom(filename, 0))
      ensures forall id | id in old(files) && old(files)[id].owner != user && !old(files)[id].shared ::
                id in files && files[id] == old(files)[id]
      ensures if r.CommitFailed? && outcome.Unrefreshed? && cleanedUp
              then var id := if target.Some? then target.value else newId; OnDisk(id).None? && !Intact()
              else old(Intact()) ==> Intact()
      ensures r.Written? || r.StorageFailed? || r.CommitFailed? ==>
                var request := Request(namespace, collection, user, filename, TypeFrom(filename, 0), content.value);
                var steps := WriteSteps(request, target, newId, result, outcome, cleanedUp);
                State(Store(), [Idle]) == Run(State(old(Store()), [Idle]), steps)
    {
      hide Consecutive, Stored, TxnOk, PathOf, TypeFrom, IsText, WriteSteps, Run;
      if filename == "" {
        return NoFilename;
      }
      if content.None? {
        return NoContent;
      }
      if |content.value| > maxMb * BYTES_PER_MB {
        return TooLarge;
      }
      var contentType := InferContentType(filename);
      ghost var request := Request(namespace, collection, user, filename, contentType, content.value);
      ghost var t := Prepared(Store(), request, target, newId);
      PreparedReady(Store(), request, target, newId);
      var row := if target.Some? then files[target.value].(current := files[target.value].current + 1, contentType := contentType)
                 else FileRow(namespace, collection, filename, user, true, contentType, 1);
      r := PutVersion(target, newId, row, content.value, result, outcome, cleanedUp);
      WriteStepsRun(old(Store()), request, target, newId, result, outcome, cleanedUp);
    }

    /** The storage call, the version row, the commit with the refresh, and the clean-up if one of them fails. */
    method PutVersion(target: Option<string>, newId: string, row: FileRow, content: string,
                      result: SaveResult, outcome: CommitOutcome, cleanedUp: bool)
      returns (r: WriteResult)
      requires var t := Txn(if target.Some? then target.value else newId, target.None?, row, content);
               Valid() && Ready(Store().(used := used + {newId}), t)
      modifies this
      ensures Valid() && used == old(used) + {newId}
      ensures r == if result.SaveFailed? then StorageFailed
                   else if !outcome.Accepted? then CommitFailed else Written(row.current, target.None?)
      ensures var t := Txn(if target.Some? then target.value else newId, target.None?, row, content);
              Store() == AfterWrite(old(Store()).(used := used), t, result, outcome, cleanedUp)
      ensures if r.CommitFailed? && outcome.Unrefreshed? && cleanedUp
              then PathOf(row.namespace, row.collection, if target.Some? then target.value else newId, row.current) !in blobs
                   && !Intact()
              else old(Intact()) ==> Intact()
    {
      hide Consecutive, Stored, TxnOk, PathOf;
      var id := if target.Some? then target.value else newId;
      var path := PathOf(row.namespace, row.collection, id, row.current);
      ghost var t := Txn(id, target.None?, row, content);
      SameStored(Store(), used + {newId});
      used := used + {newId};
      match result {
        case SaveFailed(junk) =>
          if junk.Some? {
            PutKeepsReady(Store(), t, junk.value);
            blobs := blobs[path := junk.value];
          }
          r := StorageFailed;
        case SaveOk =>
          PutKeepsReady(Store(), t, content);
          blobs := blobs[path := content];
          ReadyCommits(Store(), t);
          if !outcome.Refused? {
            CleansUpOwn(Store(), t);
            files := files[id := row];
            versions := versions[(id, row.current) := Version(path, content)];
          }
          if outcome.Accepted? {
            r := Written(row.current, target.None?);
          } else {
            if cleanedUp {
              blobs := blobs - {path};
            }
            r := CommitFailed;
          }
      }
    }

    /** The files of that name, private ones of other users included. */
    function Named(namespace: string, collection: string, filename: string): set<string>
      reads this
    {
      set id | id in files && files[id].namespace == namespace && files[id].collection == collection && files[id].name == filename
    }

    /** What a reader gets, or the exact reason why not. */
    ghost predicate Shown(namespace: string, collection: string, user: string, filename: string, offset: Option<int>,
                          limit: Option<int>, raw: bool, readable: bool, r: GetResult)
      requires Valid()
      reads this
    {
      var named := Named(namespace, collection, filename);
      && (r.FilenameRequired? <==> filename == "")
      && (r.NoSuchFile? <==> filename != "" && named == {})
      && (r.SeveralFiles? <==> filename != "" && |named| > 1)
      && (filename != "" && |named| == 1 ==>
            exists id | id in named ::
              r == if !files[id].shared && files[id].owner != user then NotAccessible
                   else if !IsText(files[id].contentType) then Binary
                   else if !readable || OnDisk(id).None? then ReadFailed
                   else View(id, OnDisk(id).value, offset, limit, raw))
    }

    /** Reading gives back what the storage holds, which is the content last committed if the store is intact; the version
        row is never missing. */
    method GetFile(namespace: string, collection: string, user: string, filename: string, offset: Option<int>, limit: Option<int>,
                   raw: bool, readable: bool)
      returns (r: GetResult)
      requires Valid()
      ensures Shown(namespace, collection, user, filename, offset, limit, raw, readable, r) && !r.VersionMissing?
      ensures Intact() ==> forall id | id in files :: OnDisk(id) == Some(Current(id))
    {
      if filename == "" {
        return FilenameRequired;
      }
      var found := Named(namespace, collection, filename);
      if found == {} {
        return NoSuchFile;
      }
      if |found| > 1 {
        return SeveralFiles;
      }
      var id :| id in found;
      var row := files[id];
      if !row.shared && row.owner != user {
        return NotAccessible;
      }
      if (id, row.current) !in versions {
        return VersionMissing;
      }
      var path := versions[(id, row.current)].path;
      if !IsText(row.contentType) {
        return Binary;
      }
      if !readable || path !in blobs {
        return ReadFailed;
      }
      return View(id, blobs[path], offset, limit, raw);
    }

    /** The first half of an edit: what to write back, or why not. */
    method ReadForEdit(namespace: string, collection: string, user: string, filename: string, oldString: string, newString: string,
                       replaceAll: bool, readable: bool)
      returns (refused: Option<EditResult>, id: string, edited: string)
      requires Valid()
      ensures refused.Some? ==> !refused.value.WrittenBack?
      ensures refused == Some(EditRefused) <==> filename == ""
      ensures refused == Some(NoOldString) <==> filename != "" && oldString == ""
      ensures filename != "" && oldString != "" ==>
                exists got :: Shown(namespace, collection, user, filename, None, None, true, readable, got)
                              && if got.Content? then refused.Some? ==> refused.value.NotFound? || refused.value.NotUnique?
                                 else refused == Some(Unreadable(got))
      ensures refused.None? || refused.value.NotFound? || refused.value.NotUnique? ==>
                && oldString != "" && Named(namespace, collection, filename) == {id}
                && OnDisk(id).Some? && (Intact() ==> OnDisk(id).value == Current(id))
                && var count := Count(OnDisk(id).value, oldString);
                   && (refused == Some(NotFound) <==> count == 0)
                   && (refused.Some? && refused.value.NotUnique? <==> count > 1 && !replaceAll)
                   && (refused.Some? && refused.value.NotUnique? ==> refused.value.occurrences == count)
      ensures refused.None? ==> Edits(OnDisk(id).value, oldString, newString, replaceAll, edited)
                                && (files[id].shared || files[id].owner == user)
    {
      hide Consecutive, Stored, PathOf, Pieces, ReplaceAll, ReplaceFirst, Split, IsText;
      refused, id, edited := Some(EditRefused), "", "";
      if filename == "" {
        return;
      }
      if oldString == "" {
        refused := Some(NoOldString);
        return;
      }
      var got := GetFile(namespace, collection, user, filename, None, None, true, readable);
      assert Shown(namespace, collection, user, filename, None, None, true, readable, got);
      if !got.Content? {
        refused := Some(Unreadable(got));
        return;
      }
      id := got.id;
      assert Named(namespace, collection, filename) == {id} by {
        Singleton(Named(namespace, collection, filename), id);
      }
      var occurrences := Count(got.content, oldString);
      if occurrences == 0 {
        refused := Some(NotFound);
      } else if occurrences > 1 && !replaceAll {
        refused := Some(NotUnique(occurrences));
      } else {
        edited := if replaceAll then ReplaceAll(got.content, oldString, newString)
                  else ReplaceFirst(got.content, oldString, newString);
        EditsAtOnlyPlace(got.content, oldString, newString, replaceAll);
        refused := None;
      }
    }

    /** An edit replaces exactly what it counted, in the text it read, as the next version; otherwise no row changes, save
        after a commit that could not be read back. */
    method EditFile(namespace: string, collection: string, user: string, filename: string, oldString: string, newString: string,
                    replaceAll: bool, maxMb: nat, newId: string, readable: bool,
                    result: SaveResult, outcome: CommitOutcome, cleanedUp: bool)
      returns (r: EditResult, ghost id: string)
      requires Valid() && '/' !in newId && newId !in used
      modifies this
      ensures Valid() && (old(Intact()) && !(r.WrittenBack? && r.result.CommitFailed? && outcome.Unrefreshed?) ==> Intact())
      ensures !(r.WrittenBack? && (r.result.Written? || (r.result.CommitFailed? && outcome.Unrefreshed?))) ==>
                files == old(files) && versions == old(versions)
      ensures r.EditRefused? <==> filename == ""
      ensures r.NoOldString? <==> filename != "" && oldString == ""
      ensures r.Unreadable? ==>
                !r.reason.Content? && old(Shown(namespace, collection, user, filename, None, None, true, readable, r.reason))
      ensures r.WrittenBack? || r.NotFound? || r.NotUnique? ==>
                && oldString != "" && id in old(files) && old(Named(namespace, collection, filename)) == {id}
                && old(OnDisk(id)).Some? && (old(Intact()) ==> old(OnDisk(id)).value == old(Current(id)))
                && var count := Count(old(OnDisk(id)).value, oldString);
                   && (r.NotFound? <==> count == 0) && (r.NotUnique? <==> count > 1 && !replaceAll)
                   && (r.NotUnique? ==> r.occurrences == count)
      ensures r.WrittenBack? && r.result.Written? ==>
                && !r.result.created && id in files && Gained(id, old(files)[id].current + 1, Current(id))
                && Edits(old(OnDisk(id)).value, oldString, newString, replaceAll, Current(id))
    {
      hide Consecutive, Stored, Run, WriteSteps, PathOf, Count, Edits, IsText;
      var refused, found, edited := ReadForEdit(namespace, collection, user, filename, oldString, newString, replaceAll, readable);
      id := found;
      if refused.Some? {
        r := refused.value;
      } else {
        assert forall other | other in files && InCollection(files[other], Request(namespace, collection, user, filename, "", "")) ::
            other in Named(namespace, collection, filename);
        var written := WriteFile(namespace, collection, user, filename, Some(edited), maxMb, Some(found), newId,
                                 result, outcome, cleanedUp);
        r := WrittenBack(written);
      }
    }

    /** A delete that commits removes the file and its rows, nothing else; one that does not may cost the blobs. */
    method DeleteFile(namespace: string, collection: string, user: string, filename: string, target: Option<string>,
                      keptBlobs: set<nat>, committed: bool)
      returns (r: DeleteResult)
      requires Valid()
      requires var request := Request(namespace, collection, user, filename, "", "");
               match target
               case Some(id) => id in files && Writable(files[id], request)
               case None => forall id | id in files :: !Writable(files[id], request)
      modifies this
      ensures Valid() && (old(Intact()) && !r.DeleteFailed? ==> Intact())
      ensures r.Gone? || r.DeleteFailed? ==> target.Some? && Store() == Deleted(old(Store()), target.value, keptBlobs, r.Gone?)
      ensures !(r.Gone? || r.DeleteFailed?) ==> Store() == old(Store())
      ensures r.Gone? ==>
                && files == old(files) - {target.value} && old(files)[target.value].name == filename
                && forall key :: key in versions <==> key in old(versions) && key.0 != target.value
      ensures forall key | key in versions :: key in old(versions) && versions[key] == old(versions)[key]
      ensures r.Gone? || r.DeleteFailed? ==>
                (forall path | path in old(blobs) && !OfFile(old(Store()), path, target.value, keptBlobs) ::
                   path in blobs && blobs[path] == old(blobs)[path])
                && forall path | path in blobs :: path in old(blobs) && !OfFile(old(Store()), path, target.value, keptBlobs)
      ensures forall id | id in old(files) && old(files)[id].owner != user && !old(files)[id].shared :: id in files
      ensures r.Gone? ==> committed
      ensures r.DeleteFailed? ==> !committed
      ensures r.DeleteRefused? <==> filename == ""
      ensures r.NothingToDelete? <==> filename != "" && target.None?
    {
      if filename == "" {
        return DeleteRefused;
      }
      if target.None? {
        return NothingToDelete;
      }
      hide Consecutive, Stored, Writable, Deleted;
      DeletedConsecutive(Store(), target.value, keptBlobs, committed);
      DeletedExactly(Store(), target.value, keptBlobs, committed);
      if Intact() {
        DeletesExactly(Store(), target.value, keptBlobs, committed);
      }
      RemoveRows(target.value, keptBlobs, committed);
      r := if committed then Gone else DeleteFailed;
    }

    /** The blobs first, then the rows. */
    method RemoveRows(id: string, keptBlobs: set<nat>, committed: bool)
      modifies this`blobs, this`files, this`versions
      ensures Store() == Deleted(old(Store()), id, keptBlobs, committed)
    {
      blobs := blobs - set key | key in versions && key.0 == id && key.1 !in keptBlobs :: versions[key].path;
      if committed {
        files := files - {id};
        versions := map key | key in versions && key.0 != id :: versions[key];
      }
    }
  }

  /** What an edit makes of a text; a single replacement of a string without a border is at its only place. */
  ghost predicate Edits(text: string, oldString: string, newString: string, replaceAll: bool, edited: string)
    requires oldString != ""
  {
    && edited == (if replaceAll then ReplaceAll(text, oldString, newString) else ReplaceFirst(text, oldString, newString))
    && (!replaceAll && !Bordered(oldString) ==> exists n: nat :: EditedAt(text, oldString, newString, edited, n))
  }

  lemma EditsAtOnlyPlace(text: string, oldString: string, newString: string, replaceAll: bool)
    requires oldString != "" && (replaceAll || Count(text, oldString) == 1)
    ensures Edits(text, oldString, newString, replaceAll,
                  if replaceAll then ReplaceAll(text, oldString, newString) else ReplaceFirst(text, oldString, newString))
  {
    if !replaceAll && !Bordered(oldString) {
      var n := ReplacedAtOnlyPlace(text, oldString, newString);
    }
  }

  /** A delete takes the blobs of the file, those that can be deleted, and with a commit its rows; nothing else. */
  lemma DeletedExactly(s: Store, id: string, keptBlobs: set<nat>, committed: bool)
    ensures var t := Deleted(s, id, keptBlobs, committed);
            && t.files == (if committed then s.files - {id} else s.files)
            && (forall key :: key in t.versions <==> key in s.versions && !(committed && key.0 == id))
            && (forall key | key in t.versions :: t.versions[key] == s.versions[key])
            && (forall path :: path in t.blobs <==> path in s.blobs && !OfFile(s, path, id, keptBlobs))
            && (forall path | path in t.blobs :: t.blobs[path] == s.blobs[path])
  {}

  /** The path of a version of the file, and not one whose blob could not be deleted. */
  ghost predicate OfFile(s: Store, path: string, id: string, keptBlobs: set<nat>) {
    exists key :: key in s.versions && key.0 == id && key.1 !in keptBlobs && s.versions[key].path == path
  }

  lemma DeletedConsecutive(s: Store, id: string, keptBlobs: set<nat>, committed: bool)
    requires Consecutive(s)
    ensures Consecutive(Deleted(s, id, keptBlobs, committed))
  {}

  lemma Singleton<T>(s: set<T>, x: T)
    requires |s| == 1 && x in s
    ensures s == {x}
  {
    assert |s - {x}| == 0;
  }

  /** The steps of one write with nobody in between. */
  function WriteSteps(r: Request, target: Option<string>, newId: string, result: SaveResult, outcome: CommitOutcome, cleanedUp: bool)
    : seq<Action>
  {
    [Open(0, r, target, newId)] + ([Save(0, result)] + ([Commit(0, outcome, cleanedUp)] + []))
  }

  /** What the storage call and the commit make of a prepared write. */
  function AfterWrite(s: Store, t: Txn, result: SaveResult, outcome: CommitOutcome, cleanedUp: bool): Store {
    match result
    case SaveFailed(None) => s
    case SaveFailed(Some(junk)) => s.(blobs := s.blobs[t.Path() := junk])
    case SaveOk =>
      var saved := s.(blobs := s.blobs[t.Path() := t.content]);
      var rows := if outcome.Refused? then saved else Committed(saved, t);
      if outcome.Accepted? || !cleanedUp then rows else Without(rows, t.Path())
  }

  /** It is what the protocol's steps make of it when a single writer takes them. */
  lemma WriteStepsRun(s: Store, r: Request, target: Option<string>, newId: string,
                      result: SaveResult, outcome: CommitOutcome, cleanedUp: bool)
    requires Consecutive(s) && IsTarget(s, r, target) && '/' !in newId && newId !in s.used
    ensures Run(State(s, [Idle]), WriteSteps(r, target, newId, result, outcome, cleanedUp))
         == State(AfterWrite(s.(used := s.used + {newId}), Prepared(s, r, target, newId), result, outcome, cleanedUp), [Idle])
  {
    hide Run, Consecutive, Stored, TxnOk, Admissible, PathOf;
    var open, save, commit := Open(0, r, target, newId), Save(0, result), Commit(0, outcome, cleanedUp);
    var t, begun := Prepared(s, r, target, newId), Step(State(s, [Idle]), open);
    PreparedReady(s, r, target, newId);
    RunFirst(State(s, [Idle]), open, [save] + ([commit] + []));
    assert begun.writers == [Opened(t)];
    RunFirst(begun, save, [commit] + []);
    var saved := Step(begun, save);
    if result.SaveOk? {
      PutKeepsReady(begun.store, t, t.content);
      ReadyCommits(saved.store, t);
      assert saved.writers == [Saved(t)];
      RunLast(saved, commit);
      assert Step(saved, commit).writers == [Idle];
    } else {
      assert saved.writers == [Idle];
      RunNothing(saved, commit);
    }
  }

  lemma RunNothing(st: State, a: Action)
    requires !Enabled(st, a)
    ensures Run(st, [a] + []) == st
  {}

  lemma RunLast(st: State, a: Action)
    requires Enabled(st, a)
    ensures Run(st, [a] + []) == Step(st, a)
  {}

  /** A prepared write whose number is free. */
  ghost predicate Ready(s: Store, t: Txn) {
    Consecutive(s) && TxnOk(s, t) && t.Key() !in s.versions && (t.id in s.files <==> !t.isNew)
  }

  lemma PreparedReady(s: Store, r: Request, target: Option<string>, newId: string)
    requires Consecutive(s) && IsTarget(s, r, target) && '/' !in newId && newId !in s.used
    ensures Ready(s.(used := s.used + {newId}), Prepared(s, r, target, newId))
  {}

  lemma SameStored(s: Store, used: set<string>)
    ensures Stored(s.(used := used)) == Stored(s)
  {}

  lemma PutKeepsReady(s: Store, t: Txn, content: string)
    requires Ready(s, t)
    ensures var u := s.(blobs := s.blobs[t.Path() := content]);
            Ready(u, t) && (Stored(s) ==> Stored(u))
  {
    hide PathOf;
    if Stored(s) {
      OverwritesExactly(s, t, content);
    }
  }

  lemma ReadyCommits(s: Store, t: Txn)
    requires Ready(s, t) && t.Path() in s.blobs && s.blobs[t.Path()] == t.content
    ensures Admissible(s, t) && Consecutive(Committed(s, t)) && Consecutive(Without(s, t.Path()))
    ensures Consecutive(Without(Committed(s, t), t.Path()))
    ensures Stored(s) ==> Stored(Committed(s, t)) && Stored(Without(s, t.Path()))
  {
    hide PathOf, Stored;
    PathTakenExactly(s, t);
    hide Consecutive, TxnOk;
    CommittedIsNext(s, t);
    CleanedOk(s, t);
    CleanedOk(Committed(s, t), t);
    if Stored(s) {
      CommitsStored(s, t);
      CleansUpExactly(s, t);
    }
  }
}
