/**
 * The commit chain and what `log` shows of it. A commit names its parent by
 * digest; `log` starts at HEAD and follows parents until it meets a falsy
 * (empty) hash, failing at the first link that is not a readable commit.
 */
module History {
  import opened Records
  import opened ObjectStore

  /** One commit as `log` shows it: its digest, date and message. */
  datatype LogEntry = LogEntry(hash: string, timeStamp: string, message: string)

  /** The commits `log` showed, newest first, and the failure that stopped it, if any. */
  datatype LogResult = LogResult(shown: seq<LogEntry>, failure: Option<Failure>)

  /** The object at `h` is present and parses as a commit record. */
  ghost predicate IsCommitAt(objects: map<string, string>, parse: string -> Option<CommitRecord>, h: string)
  {
    h in objects && parse(objects[h]).Some?
  }

  ghost function CommitAt(objects: map<string, string>, parse: string -> Option<CommitRecord>, h: string): CommitRecord
    requires IsCommitAt(objects, parse, h)
  {
    parse(objects[h]).value
  }

  ghost function EntryFor(objects: map<string, string>, parse: string -> Option<CommitRecord>, h: string): LogEntry
    requires IsCommitAt(objects, parse, h)
  {
    LogEntry(h, CommitAt(objects, parse, h).timeStamp, CommitAt(objects, parse, h).message)
  }

  /**
   * Following parents from `h` stops within `n` steps: at the empty hash, or
   * at a link that is not a readable commit.
   */
  ghost predicate Reaches(objects: map<string, string>, parse: string -> Option<CommitRecord>, h: string, n: nat)
    decreases n
  {
    || h == ""
    || !IsCommitAt(objects, parse, h)
    || (n > 0 && Reaches(objects, parse, CommitAt(objects, parse, h).parent, n - 1))
  }

  /** What `log` shows when it starts at `h` (the body of its loop, one commit per step). */
  function Walk(objects: map<string, string>, parse: string -> Option<CommitRecord>, h: string, n: nat): LogResult
    requires Reaches(objects, parse, h, n)
    decreases n
  {
    if h == "" then LogResult([], None)
    else
      match GetFileContent(objects, h)
      case Err(e) => LogResult([], Some(e))
      case Ok(text) =>
        match parse(text)
        case None => LogResult([], Some(NotACommit(h)))
        case Some(c) =>
          var rest := Walk(objects, parse, c.parent, n - 1);
          LogResult([LogEntry(h, c.timeStamp, c.message)] + rest.shown, rest.failure)
  }

  /** Where a walk from `h` that showed `shown` stops: `h` itself, or the parent of the last commit shown. */
  ghost function StopHash(objects: map<string, string>, parse: string -> Option<CommitRecord>, h: string, shown: seq<LogEntry>): string
  {
    if shown == [] then h
    else if IsCommitAt(objects, parse, shown[|shown| - 1].hash) then CommitAt(objects, parse, shown[|shown| - 1].hash).parent
    else ""
  }

  /**
   * What `log` does, stated without its loop: it shows `h` first, then each
   * commit's parent in turn, every one a readable commit with a non-empty
   * hash; it stops at the first empty hash with no failure, or at the first
   * hash that is missing (ObjectMissing) or does not parse (NotACommit).
   */
  lemma {:induction false} WalkFollowsParents(objects: map<string, string>, parse: string -> Option<CommitRecord>, h: string, n: nat)
    requires Reaches(objects, parse, h, n)
    ensures var r := Walk(objects, parse, h, n);
      && (|r.shown| > 0 ==> r.shown[0].hash == h)
      && (forall k :: 0 <= k < |r.shown| ==>
            r.shown[k].hash != "" && IsCommitAt(objects, parse, r.shown[k].hash) &&
            r.shown[k] == EntryFor(objects, parse, r.shown[k].hash))
      && (forall k :: 0 < k < |r.shown| ==>
            r.shown[k].hash == CommitAt(objects, parse, r.shown[k - 1].hash).parent)
      && (var stop := StopHash(objects, parse, h, r.shown);
          && r.failure == (if stop == "" then None
                           else if stop !in objects then Some(ObjectMissing(stop))
                           else Some(NotACommit(stop)))
          && (stop != "" ==> !IsCommitAt(objects, parse, stop)))
    decreases n
  {
    if h != "" && IsCommitAt(objects, parse, h) {
      var c := CommitAt(objects, parse, h);
      WalkFollowsParents(objects, parse, c.parent, n - 1);
      var rest := Walk(objects, parse, c.parent, n - 1);
      var r := Walk(objects, parse, h, n);
      assert r.shown == [EntryFor(objects, parse, h)] + rest.shown;
      assert StopHash(objects, parse, h, r.shown) == StopHash(objects, parse, c.parent, rest.shown);
    }
  }

  /** The result of the walk does not depend on the step bound, once it suffices. */
  lemma {:induction false} WalkFuel(objects: map<string, string>, parse: string -> Option<CommitRecord>, h: string, n: nat, m: nat)
    requires Reaches(objects, parse, h, n) && Reaches(objects, parse, h, m)
    ensures Walk(objects, parse, h, n) == Walk(objects, parse, h, m)
    decreases n
  {
    if h != "" && IsCommitAt(objects, parse, h) {
      WalkFuel(objects, parse, CommitAt(objects, parse, h).parent, n - 1, m - 1);
    }
  }

  /**
   * The chain invariant: each commit of `history` (oldest first) is stored and
   * names the one before it as parent; the oldest names "" (the empty HEAD
   * that `init` wrote).
   */
  ghost predicate Linked(objects: map<string, string>, parse: string -> Option<CommitRecord>, history: seq<string>)
  {
    forall i :: 0 <= i < |history| ==>
      IsCommitAt(objects, parse, history[i]) && CommitAt(objects, parse, history[i]).parent == Top(history[..i])
  }

  /** The files of every commit of `history` name stored objects. */
  ghost predicate FilesStored(objects: map<string, string>, parse: string -> Option<CommitRecord>, history: seq<string>)
  {
    forall i :: 0 <= i < |history| ==>
      IsCommitAt(objects, parse, history[i]) && Stored(objects, CommitAt(objects, parse, history[i]).files)
  }

  ghost predicate Distinct(history: seq<string>)
  {
    forall i, j :: 0 <= i < j < |history| ==> history[i] != history[j]
  }

  lemma LinkedPrefix(objects: map<string, string>, parse: string -> Option<CommitRecord>, history: seq<string>, m: nat)
    requires Linked(objects, parse, history) && m <= |history|
    ensures Linked(objects, parse, history[..m])
  {
    var prefix := history[..m];
    forall i | 0 <= i < |prefix|
      ensures IsCommitAt(objects, parse, prefix[i]) && CommitAt(objects, parse, prefix[i]).parent == Top(prefix[..i])
    {
      assert prefix[..i] == history[..i];
    }
  }

  /**
   * On a linked history, `log` from the newest commit shows every commit of
   * the history exactly once, newest first, and ends without failure.
   */
  lemma {:induction false} WalkHistory(objects: map<string, string>, parse: string -> Option<CommitRecord>, history: seq<string>)
    requires Linked(objects, parse, history) && "" !in history
    ensures Reaches(objects, parse, Top(history), |history|)
    ensures var r := Walk(objects, parse, Top(history), |history|);
      && r.failure == None
      && |r.shown| == |history|
      && forall k :: 0 <= k < |history| ==> r.shown[k] == EntryFor(objects, parse, history[|history| - 1 - k])
  {
    if history != [] {
      var m := |history| - 1;
      var prefix := history[..m];
      LinkedPrefix(objects, parse, history, m);
      WalkHistory(objects, parse, prefix);
      assert CommitAt(objects, parse, history[m]).parent == Top(prefix);
      var rest := Walk(objects, parse, Top(prefix), m);
      var r := Walk(objects, parse, history[m], |history|);
      assert r.shown == [EntryFor(objects, parse, history[m])] + rest.shown;
      forall k | 0 < k < |history|
        ensures r.shown[k] == EntryFor(objects, parse, history[|history| - 1 - k])
      {
        assert r.shown[k] == rest.shown[k - 1];
        assert prefix[m - 1 - (k - 1)] == history[|history| - 1 - k];
      }
    }
  }

  /** The three-commit case: for C1 <- C2 <- C3 with HEAD at C3, `log` shows exactly C3, C2, C1. */
  lemma ThreeCommitLog(objects: map<string, string>, parse: string -> Option<CommitRecord>, c1: string, c2: string, c3: string)
    requires c1 != "" && c2 != "" && c3 != ""
    requires IsCommitAt(objects, parse, c1) && CommitAt(objects, parse, c1).parent == ""
    requires IsCommitAt(objects, parse, c2) && CommitAt(objects, parse, c2).parent == c1
    requires IsCommitAt(objects, parse, c3) && CommitAt(objects, parse, c3).parent == c2
    ensures Reaches(objects, parse, c3, 3)
    ensures Walk(objects, parse, c3, 3) ==
      LogResult([EntryFor(objects, parse, c3), EntryFor(objects, parse, c2), EntryFor(objects, parse, c1)], None)
  {
    var history := [c1, c2, c3];
    assert history[..1] == [c1] && history[..2] == [c1, c2];
    WalkHistory(objects, parse, history);
  }

  /**
   * A commit whose parent is the current newest commit extends the history:
   * its digest is new to the history (else the injective digest would make it
   * an older commit with another parent), and storing it keeps every older
   * object, so the chain stays linked.
   */
  lemma CommitExtendsHistory(objects: map<string, string>, hash: string -> string, serialize: CommitRecord -> string,
                             parse: string -> Option<CommitRecord>, history: seq<string>, c: CommitRecord)
    requires Lawful(hash, serialize, parse) && KeyedByHash(objects, hash)
    requires Linked(objects, parse, history) && Distinct(history) && "" !in history
    requires c.parent == Top(history)
    ensures var h := hash(serialize(c));
      && h != ""
      && h !in history
      && Extends(objects, objects[h := serialize(c)])
      && KeyedByHash(objects[h := serialize(c)], hash)
      && Linked(objects[h := serialize(c)], parse, history + [h])
      && Distinct(history + [h])
  {
    var s := serialize(c);
    var h := hash(s);
    var objects' := objects[h := s];
    StoreWrite(objects, hash, s);
    forall j | 0 <= j < |history|
      ensures history[j] != h
    {
      // the commit stored at history[j] has another parent than c
      if j > 0 {
        assert Top(history[..j]) == history[j - 1];
      }
      assert Top(history[..j]) != Top(history);
      // an object stored under h is s itself, whose parent is c's
      assert hash(objects[history[j]]) == history[j];
      assert parse(s) == Some(c);
    }
    var history' := history + [h];
    forall i | 0 <= i < |history'|
      ensures IsCommitAt(objects', parse, history'[i]) && CommitAt(objects', parse, history'[i]).parent == Top(history'[..i])
    {
      if i < |history| {
        assert history'[..i] == history[..i];
      } else {
        assert history'[..i] == history;
      }
    }
  }

  /** Growing the store without changing old objects keeps the chain linked and its files stored. */
  lemma ChainExtends(before: map<string, string>, after: map<string, string>, parse: string -> Option<CommitRecord>, history: seq<string>)
    requires Extends(before, after)
    requires Linked(before, parse, history) && FilesStored(before, parse, history)
    ensures Linked(after, parse, history) && FilesStored(after, parse, history)
  {
    forall i | 0 <= i < |history|
      ensures IsCommitAt(after, parse, history[i]) && Stored(after, CommitAt(after, parse, history[i]).files)
    {
      StoredExtends(before, after, CommitAt(before, parse, history[i]).files);
    }
  }
}
