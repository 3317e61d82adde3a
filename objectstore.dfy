/**
 * The object store (`.verx/objects`) as a map from digest to stored text, and
 * the reads the repository makes from it: a commit's serialised record, a
 * file's content, and the content a parent commit recorded for a path.
 */
module ObjectStore {
  import opened Records

  /** Every stored object sits under the digest of its own content. */
  ghost predicate KeyedByHash(objects: map<string, string>, hash: string -> string)
  {
    forall k :: k in objects ==> hash(objects[k]) == k
  }

  /** Every entry names an object that is in the store. */
  ghost predicate Stored(objects: map<string, string>, files: seq<Entry>)
  {
    forall e :: e in files ==> e.hash in objects
  }

  /** `after` still holds every object of `before`, unchanged. */
  ghost predicate Extends(before: map<string, string>, after: map<string, string>)
  {
    forall k :: k in before ==> k in after && after[k] == before[k]
  }

  /**
   * Writing `content` under its own digest keeps the store keyed by digest and
   * changes no object already there: with an injective digest, an object
   * already stored under that key has exactly this content.
   */
  lemma StoreWrite(objects: map<string, string>, hash: string -> string, content: string)
    requires KeyedByHash(objects, hash) && Injective(hash)
    ensures KeyedByHash(objects[hash(content) := content], hash)
    ensures Extends(objects, objects[hash(content) := content])
    ensures objects[hash(content) := content].Keys == objects.Keys + {hash(content)}
  {
    var h := hash(content);
    if h in objects {
      assert hash(objects[h]) == hash(content);
    }
  }

  /** `Stored` survives any growth of the store that keeps old objects. */
  lemma StoredExtends(before: map<string, string>, after: map<string, string>, files: seq<Entry>)
    requires Stored(before, files) && Extends(before, after)
    ensures Stored(after, files)
  {
  }

  /** The read made by getCommitData: a failed read is caught and gives nothing. */
  function GetCommitData(objects: map<string, string>, hash: string): (r: Option<string>)
    ensures r.Some? <==> hash in objects
    ensures r.Some? ==> r.value == objects[hash]
  {
    if hash in objects then Some(objects[hash]) else None
  }

  /** The read made by getFileContent: a failed read is not caught. */
  function GetFileContent(objects: map<string, string>, hash: string): (r: Result<string>)
    ensures r.Ok? <==> hash in objects
    ensures r.Ok? ==> r.value == objects[hash]
    ensures r.Err? ==> r.error == ObjectMissing(hash)
  {
    if hash in objects then Ok(objects[hash]) else Err(ObjectMissing(hash))
  }

  /**
   * Reading back what was written: after a text is written under its digest,
   * both reads of that digest return the text, a second write of it changes
   * nothing, and reads of every other stored digest are as before.
   */
  lemma {:induction false} ReadAfterWrite(objects: map<string, string>, hash: string -> string, content: string)
    requires KeyedByHash(objects, hash) && Injective(hash)
    ensures var after := objects[hash(content) := content];
      && GetFileContent(after, hash(content)) == Ok(content)
      && GetCommitData(after, hash(content)) == Some(content)
      && after[hash(content) := content] == after
      && forall h :: h in objects ==> GetFileContent(after, h) == GetFileContent(objects, h)
  {
    StoreWrite(objects, hash, content);
  }

  /**
   * In a store keyed by digest, a read under a digest returns a text that
   * hashes back to it; a digest with no object gives nothing from
   * getCommitData and an ObjectMissing failure from getFileContent.
   */
  lemma ContentMatchesDigest(objects: map<string, string>, hash: string -> string, h: string)
    requires KeyedByHash(objects, hash)
    ensures h in objects ==> GetFileContent(objects, h).Ok? && hash(GetFileContent(objects, h).value) == h
    ensures h in objects ==> GetCommitData(objects, h).Some? && hash(GetCommitData(objects, h).value) == h
    ensures h !in objects ==> GetFileContent(objects, h) == Err(ObjectMissing(h)) && GetCommitData(objects, h) == None
  {
  }

  /** `files[k]` is the first entry whose path is `path`. */
  ghost predicate FirstMatchAt(files: seq<Entry>, path: string, k: int)
  {
    && 0 <= k < |files|
    && files[k].path == path
    && forall j :: 0 <= j < k ==> files[j].path != path
  }

  /** `files.find(file => file.path === path)`: the first entry with that path, if any. */
  function FindByPath(files: seq<Entry>, path: string): (r: Option<Entry>)
    ensures r.None? <==> forall j :: 0 <= j < |files| ==> files[j].path != path
    ensures forall k :: FirstMatchAt(files, path, k) ==> r == Some(files[k])
  {
    if files == [] then None
    else if files[0].path == path then Some(files[0])
    else FindByPath(files[1..], path)
  }

  /** When some entry has the path, a first such entry exists, at or before it. */
  lemma {:induction false} FirstMatchExists(files: seq<Entry>, path: string, j: int)
    requires 0 <= j < |files| && files[j].path == path
    ensures exists k :: k <= j && FirstMatchAt(files, path, k)
    decreases j
  {
    if forall i :: 0 <= i < j ==> files[i].path != path {
      assert FirstMatchAt(files, path, j);
    } else {
      var i :| 0 <= i < j && files[i].path == path;
      FirstMatchExists(files, path, i);
    }
  }

  /**
   * getParentFileContent: the content the parent commit recorded for `path`,
   * read from its first entry with that path; nothing when no entry has it.
   */
  function GetParentFileContent(objects: map<string, string>, parentCommit: CommitRecord, path: string): (r: Result<Option<string>>)
    ensures r == Ok(None) <==> forall j :: 0 <= j < |parentCommit.files| ==> parentCommit.files[j].path != path
    ensures forall k :: FirstMatchAt(parentCommit.files, path, k) ==>
      r == (if parentCommit.files[k].hash in objects
            then Ok(Some(objects[parentCommit.files[k].hash]))
            else Err(ObjectMissing(parentCommit.files[k].hash)))
  {
    match FindByPath(parentCommit.files, path)
    case None => Ok(None)
    case Some(parentFile) =>
      match GetFileContent(objects, parentFile.hash)
      case Err(e) => Err(e)
      case Ok(content) => Ok(Some(content))
  }
}
