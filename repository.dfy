/**
 * A Verx repository: the object store, the staging index and HEAD, updated in
 * place by `init`, `add` and `commit`, and read by `log` and `showCommitDiff`.
 * The file system under `.verx` is modelled by the fields below; SHA-1 and
 * the JSON encoding of commit records are the functions the repository is
 * constructed with.
 */
module Repository {
  import opened Records
  import opened ObjectStore
  import opened History
  import opened CommitDiff

  class Verx {
    /** The digest of a text (SHA-1, hex). */
    const hashObject: string -> string
    /** The text a commit record is stored as (`JSON.stringify`). */
    const serialize: CommitRecord -> string
    /** Reading a stored text back as a commit record (`JSON.parse`); None when it is not one. */
    const parse: string -> Option<CommitRecord>

    /** Whether the HEAD and index files exist, i.e. `init` has run. */
    var initialised: bool
    /** `.verx/objects`: digest to stored text. */
    var objects: map<string, string>
    /** `.verx/index`: the staged entries, in the order they were added. */
    var index: seq<Entry>
    /** `.verx/HEAD`: the digest of the newest commit, "" before the first. */
    var head: string
    /** The commits made so far, oldest first. */
    ghost var history: seq<string>

    ghost predicate Valid()
      reads this
    {
      && Lawful(hashObject, serialize, parse)
      && KeyedByHash(objects, hashObject)
      && (!initialised ==> objects == map[] && index == [] && history == [])
      && Stored(objects, index)
      && head == Top(history)
      && Linked(objects, parse, history)
      && FilesStored(objects, parse, history)
      && Distinct(history)
      && "" !in history
    }

    /** A repository whose `.verx` directory does not exist yet. */
    constructor (hashObject: string -> string, serialize: CommitRecord -> string, parse: string -> Option<CommitRecord>)
      requires Lawful(hashObject, serialize, parse)
      ensures Valid() && !initialised
      ensures this.hashObject == hashObject && this.serialize == serialize && this.parse == parse
      ensures objects == map[] && index == [] && head == "" && history == []
    {
      this.hashObject := hashObject;
      this.serialize := serialize;
      this.parse := parse;
      initialised := false;
      objects := map[];
      index := [];
      head := "";
      history := [];
    }

    /**
     * init: creates an empty HEAD and an empty index. When they already exist
     * the exclusive-create write fails, the failure is caught, and nothing
     * changes.
     */
    method Init()
      requires Valid()
      modifies this
      ensures Valid() && initialised
      ensures old(initialised) ==> unchanged(this)
      ensures !old(initialised) ==> head == "" && index == [] && objects == map[] && history == []
    {
      if !initialised {
        head := "";
        index := [];
        initialised := true;
      }
    }

    /**
     * updateStagingArea: appends one entry to the index; earlier entries stay
     * as they were, and a path already staged gets a second entry.
     */
    method UpdateStagingArea(filePath: string, fileHash: string)
      requires initialised
      modifies this`index
      ensures index == old(index) + [Entry(filePath, fileHash)]
      ensures old(Valid()) && fileHash in objects ==> Valid()
    {
      index := index + [Entry(filePath, fileHash)];
    }

    /**
     * add: stores the file's content under its digest and stages the path
     * with that digest. `fileData` is the content read from the working tree.
     */
    method Add(fileToBeAdded: string, fileData: string) returns (fileHash: string)
      requires Valid() && initialised
      modifies this
      ensures Valid() && initialised
      ensures fileHash == hashObject(fileData)
      ensures objects == old(objects)[fileHash := fileData]
      ensures Extends(old(objects), objects)
      ensures GetFileContent(objects, fileHash) == Ok(fileData)
      ensures index == old(index) + [Entry(fileToBeAdded, fileHash)]
      ensures head == old(head) && history == old(history)
    {
      fileHash := hashObject(fileData);
      StoreWrite(objects, hashObject, fileData);
      ChainExtends(objects, objects[fileHash := fileData], parse, history);
      StoredExtends(objects, objects[fileHash := fileData], index);
      objects := objects[fileHash := fileData];
      UpdateStagingArea(fileToBeAdded, fileHash);
    }

    /**
     * commit: records the staged entries and the current HEAD as parent in a
     * new commit, stores its serialisation under its digest, moves HEAD to it
     * and clears the index. An empty index gives a commit with no files.
     */
    method Commit(message: string, timeStamp: string) returns (commitHash: string)
      requires Valid() && initialised
      modifies this
      ensures Valid() && initialised
      ensures var c := CommitRecord(timeStamp, message, old(index), old(head));
        && commitHash == hashObject(serialize(c))
        && objects == old(objects)[commitHash := serialize(c)]
        && IsCommitAt(objects, parse, commitHash) && CommitAt(objects, parse, commitHash) == c
      ensures Extends(old(objects), objects)
      ensures commitHash != "" && commitHash !in old(history)
      ensures head == commitHash && index == []
      ensures history == old(history) + [commitHash]
    {
      var parentCommit := head;
      var commitData := CommitRecord(timeStamp, message, index, parentCommit);
      var text := serialize(commitData);
      commitHash := hashObject(text);
      CommitExtendsHistory(objects, hashObject, serialize, parse, history, commitData);
      ChainExtends(objects, objects[commitHash := text], parse, history);
      StoredExtends(objects, objects[commitHash := text], index);
      objects := objects[commitHash := text];
      head := commitHash;
      index := [];
      history := history + [commitHash];
      assert FilesStored(objects, parse, history) by {
        forall i | 0 <= i < |history|
          ensures IsCommitAt(objects, parse, history[i]) && Stored(objects, CommitAt(objects, parse, history[i]).files)
        {
          if i == |history| - 1 {
            assert CommitAt(objects, parse, history[i]) == commitData;
          }
        }
      }
    }

    /**
     * getCurrentHead: the contents of HEAD, or nothing when the file does not
     * exist. HEAD is "" until the first commit and then names the newest one.
     */
    function GetCurrentHead(): (h: Option<string>)
      reads this
      ensures h.None? <==> !initialised
      ensures Valid() && initialised ==> (h == Some("") <==> history == [])
      ensures Valid() && history != [] ==> h == Some(history[|history| - 1])
    {
      if initialised then Some(head) else None
    }

    /** The hash `log` starts from: HEAD, where a missing HEAD counts as falsy. */
    ghost function LogStart(): string
      reads this
    {
      match GetCurrentHead()
      case None => ""
      case Some(h) => h
    }

    /**
     * log: from HEAD, shows each commit and moves to its parent until the hash
     * is falsy. It is only required that this walk ends: a chain that loops
     * back on itself would make `log` run forever.
     */
    method Log() returns (r: LogResult)
      requires exists n :: Reaches(objects, parse, LogStart(), n)
      ensures forall n :: Reaches(objects, parse, LogStart(), n) ==> r == Walk(objects, parse, LogStart(), n)
    {
      var current := GetCurrentHead();
      var currentCommitHash := if current.Some? then current.value else "";
      ghost var start := currentCommitHash;
      ghost var n: nat :| Reaches(objects, parse, currentCommitHash, n);
      ghost var n0 := n;
      var shown: seq<LogEntry> := [];
      while currentCommitHash != ""
        invariant Reaches(objects, parse, currentCommitHash, n)
        invariant Walk(objects, parse, start, n0) ==
          LogResult(shown + Walk(objects, parse, currentCommitHash, n).shown, Walk(objects, parse, currentCommitHash, n).failure)
        decreases n
      {
        var commitFileContent := GetFileContent(objects, currentCommitHash);
        if commitFileContent.Err? {
          r := LogResult(shown, Some(commitFileContent.error));
          WalkFuelAll(start, n0);
          return;
        }
        var commitData := parse(commitFileContent.value);
        if commitData.None? {
          r := LogResult(shown, Some(NotACommit(currentCommitHash)));
          WalkFuelAll(start, n0);
          return;
        }
        shown := shown + [LogEntry(currentCommitHash, commitData.value.timeStamp, commitData.value.message)];
        currentCommitHash := commitData.value.parent;
        n := n - 1;
      }
      r := LogResult(shown, None);
      WalkFuelAll(start, n0);
    }

    /** Every sufficient step bound gives the walk from `h` the same result. */
    lemma WalkFuelAll(h: string, n0: nat)
      requires Reaches(objects, parse, h, n0)
      ensures forall n :: Reaches(objects, parse, h, n) ==> Walk(objects, parse, h, n) == Walk(objects, parse, h, n0)
    {
      forall n | Reaches(objects, parse, h, n)
        ensures Walk(objects, parse, h, n) == Walk(objects, parse, h, n0)
      {
        WalkFuel(objects, parse, h, n, n0);
      }
    }

    /**
     * In every state the operations produce, `log` ends, shows every commit
     * made so far exactly once, newest first, and fails nowhere.
     */
    lemma LogShowsHistory()
      requires Valid()
      ensures Reaches(objects, parse, LogStart(), |history|)
      ensures var r := Walk(objects, parse, LogStart(), |history|);
        && r.failure == None
        && |r.shown| == |history|
        && forall k :: 0 <= k < |history| ==> r.shown[k] == EntryFor(objects, parse, history[|history| - 1 - k])
    {
      WalkHistory(objects, parse, history);
    }

    /**
     * showCommitDiff: a missing commit object gives "Commit not found";
     * otherwise each file of the commit is reported in order, and the first
     * read that fails stops the loop.
     */
    method ShowCommitDiff(commitHash: string) returns (r: DiffOutcome)
      ensures commitHash !in objects ==> r == CommitNotFound
      ensures commitHash in objects && parse(objects[commitHash]).None? ==> r == Reported([], Some(NotACommit(commitHash)))
      ensures IsCommitAt(objects, parse, commitHash) ==>
        r.Reported? && ReportsFor(objects, parse, CommitAt(objects, parse, commitHash), r.reports, r.failure)
    {
      var data := GetCommitData(objects, commitHash);
      if data.None? {
        return CommitNotFound;
      }
      var parsed := parse(data.value);
      if parsed.None? {
        return Reported([], Some(NotACommit(commitHash)));
      }
      var commitData := parsed.value;
      var reports: seq<FileReport> := [];
      for i := 0 to |commitData.files|
        invariant |reports| == i
        invariant forall j :: 0 <= j < i ==> ClassifyFile(objects, parse, commitData.parent, commitData.files[j]) == Ok(reports[j])
      {
        var report := ClassifyFile(objects, parse, commitData.parent, commitData.files[i]);
        if report.Err? {
          return Reported(reports, Some(report.error));
        }
        reports := reports + [report.value];
      }
      r := Reported(reports, None);
    }
  }
}
