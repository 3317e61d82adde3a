/**
 * How `showCommitDiff` treats each file of a commit: with no parent it is the
 * first commit; when the parent records no entry for the path the file is
 * new; otherwise the parent's content and the commit's content are handed to
 * the line-diff library (which is not part of this model).
 */
module CommitDiff {
  import opened Records
  import opened ObjectStore
  import opened History

  /** The classification of one file; `Diff` carries the two texts given to the line diff, parent first. */
  datatype FileKind = FirstCommit | NewFile | Diff(parentContent: string, childContent: string)

  /** What showCommitDiff prints for one file: its path, its content, and its classification. */
  datatype FileReport = FileReport(path: string, content: string, kind: FileKind)

  /**
   * The outcome of showCommitDiff: the commit object is absent ("Commit not
   * found"), or the reports for the files handled, in commit order, with the
   * failure that stopped the loop, if any.
   */
  datatype DiffOutcome = CommitNotFound | Reported(reports: seq<FileReport>, failure: Option<Failure>)

  /**
   * One pass of the loop over a commit's files: read the file's content, then
   * (when the commit has a parent) read the parent commit again and look the
   * path up among its files, first match first.
   */
  function ClassifyFile(objects: map<string, string>, parse: string -> Option<CommitRecord>, parent: string, file: Entry): (r: Result<FileReport>)
    ensures file.hash !in objects ==> r == Err(ObjectMissing(file.hash))
    ensures file.hash in objects && parent == "" ==>
      r == Ok(FileReport(file.path, objects[file.hash], FirstCommit))
    ensures file.hash in objects && parent != "" && parent !in objects ==> r == Err(ParentUnreadable(parent))
    ensures file.hash in objects && parent != "" && parent in objects && parse(objects[parent]).None? ==>
      r == Err(NotACommit(parent))
    ensures file.hash in objects && parent != "" && IsCommitAt(objects, parse, parent) ==>
      var parentFiles := CommitAt(objects, parse, parent).files;
      && ((forall j :: 0 <= j < |parentFiles| ==> parentFiles[j].path != file.path) ==>
            r == Ok(FileReport(file.path, objects[file.hash], NewFile)))
      && (forall k :: FirstMatchAt(parentFiles, file.path, k) ==>
            r == if parentFiles[k].hash in objects
                 then Ok(FileReport(file.path, objects[file.hash], Diff(objects[parentFiles[k].hash], objects[file.hash])))
                 else Err(ObjectMissing(parentFiles[k].hash)))
  {
    match GetFileContent(objects, file.hash)
    case Err(e) => Err(e)
    case Ok(fileContent) =>
      if parent == "" then Ok(FileReport(file.path, fileContent, FirstCommit))
      else
        match GetCommitData(objects, parent)
        case None => Err(ParentUnreadable(parent))
        case Some(parentText) =>
          match parse(parentText)
          case None => Err(NotACommit(parent))
          case Some(parentCommit) =>
            match GetParentFileContent(objects, parentCommit, file.path)
            case Err(e) => Err(e)
            case Ok(None) => Ok(FileReport(file.path, fileContent, NewFile))
            case Ok(Some(parentFileContent)) => Ok(FileReport(file.path, fileContent, Diff(parentFileContent, fileContent)))
  }

  /**
   * `reports` and `failure` are what the loop over `c`'s files produces: one
   * report per file in commit order, up to the first file whose handling fails.
   */
  ghost predicate ReportsFor(objects: map<string, string>, parse: string -> Option<CommitRecord>, c: CommitRecord,
                             reports: seq<FileReport>, failure: Option<Failure>)
  {
    && |reports| <= |c.files|
    && (forall i :: 0 <= i < |reports| ==> ClassifyFile(objects, parse, c.parent, c.files[i]) == Ok(reports[i]))
    && (failure.None? <==> |reports| == |c.files|)
    && (failure.Some? ==> ClassifyFile(objects, parse, c.parent, c.files[|reports|]) == Err(failure.value))
  }

  /**
   * For a commit of a linked history whose files are stored, no file fails:
   * every file of the oldest commit is reported as the first commit; in a
   * later commit a file is new exactly when its parent has no entry for the
   * path, and otherwise is diffed against the content of the parent's first
   * entry for that path.
   */
  lemma HistoryCommitDiff(objects: map<string, string>, parse: string -> Option<CommitRecord>, history: seq<string>, j: nat, file: Entry)
    requires Linked(objects, parse, history) && FilesStored(objects, parse, history) && "" !in history
    requires j < |history| && file in CommitAt(objects, parse, history[j]).files
    ensures var r := ClassifyFile(objects, parse, CommitAt(objects, parse, history[j]).parent, file);
      && r.Ok?
      && r.value.path == file.path
      && r.value.content == objects[file.hash]
      && (r.value.kind == FirstCommit <==> j == 0)
      && (j > 0 ==>
            var parentFiles := CommitAt(objects, parse, history[j - 1]).files;
            && (r.value.kind == NewFile <==> forall i :: 0 <= i < |parentFiles| ==> parentFiles[i].path != file.path)
            && (forall k :: FirstMatchAt(parentFiles, file.path, k) ==>
                  r.value.kind == Diff(objects[parentFiles[k].hash], objects[file.hash])))
  {
    var c := CommitAt(objects, parse, history[j]);
    assert file.hash in objects;
    if j > 0 {
      assert c.parent == Top(history[..j]) == history[j - 1];
      var parentFiles := CommitAt(objects, parse, history[j - 1]).files;
      if i :| 0 <= i < |parentFiles| && parentFiles[i].path == file.path {
        FirstMatchExists(parentFiles, file.path, i);
        var k :| k <= i && FirstMatchAt(parentFiles, file.path, k);
        assert parentFiles[k] in parentFiles;
      }
    }
  }

  /** With duplicate entries for a path in the parent, the earliest one decides the diff. */
  lemma FirstEntryWins(objects: map<string, string>, parse: string -> Option<CommitRecord>, parent: string, file: Entry, a: nat, b: nat)
    requires file.hash in objects && parent != "" && IsCommitAt(objects, parse, parent)
    requires a < b < |CommitAt(objects, parse, parent).files|
    requires CommitAt(objects, parse, parent).files[a].path == file.path == CommitAt(objects, parse, parent).files[b].path
    requires forall i :: 0 <= i < a ==> CommitAt(objects, parse, parent).files[i].path != file.path
    requires CommitAt(objects, parse, parent).files[a].hash in objects
    ensures ClassifyFile(objects, parse, parent, file) ==
      Ok(FileReport(file.path, objects[file.hash], Diff(objects[CommitAt(objects, parse, parent).files[a].hash], objects[file.hash])))
  {
    assert FirstMatchAt(CommitAt(objects, parse, parent).files, file.path, a);
  }
}
