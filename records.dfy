/**
 * The records a Verx repository stores and passes around: staging entries,
 * commit records, optional values and the failures an operation can end in,
 * together with the laws the digest and the commit serialisation obey.
 */
module Records {

  datatype Option<T> = None | Some(value: T)

  /** Why an operation stopped: the cases in which the repository code throws. */
  datatype Failure =
    | ObjectMissing(hash: string)     // reading objects/<hash> fails: no such object
    | NotACommit(hash: string)        // the object at <hash> does not parse as a commit record
    | ParentUnreadable(hash: string)  // the parent commit object is missing, so its file list cannot be read

  datatype Result<T> = Ok(value: T) | Err(error: Failure)

  /** One line of the staging index: a path and the digest of the content staged for it. */
  datatype Entry = Entry(path: string, hash: string)

  /**
   * A commit record as it is serialised into the object store. `parent` is the
   * text HEAD held when the commit was made; the empty string (falsy) means
   * there was no earlier commit.
   */
  datatype CommitRecord = CommitRecord(timeStamp: string, message: string, files: seq<Entry>, parent: string)

  /** Distinct contents never share a digest. */
  ghost predicate Injective(hash: string -> string)
  {
    forall a, b :: hash(a) == hash(b) ==> a == b
  }

  /**
   * The laws the model relies on: the digest is injective and never empty (a
   * SHA-1 hex string has 40 characters), and parsing a serialised commit
   * record gives that record back.
   */
  ghost predicate Lawful(hash: string -> string, serialize: CommitRecord -> string, parse: string -> Option<CommitRecord>)
  {
    && Injective(hash)
    && (forall s :: hash(s) != "")
    && (forall c :: parse(serialize(c)) == Some(c))
  }

  /** The hash of the newest commit of a history listed oldest first, or "" when there is none. */
  function Top(history: seq<string>): string
  {
    if history == [] then "" else history[|history| - 1]
  }
}
