/**
 * Short sessions against a fresh repository, written only with the contracts
 * of the `Verx` operations: a staged file read back from its commit, the log
 * of three commits, and the diff report of an edited and a new file.
 */
module Scenarios {
  import opened Records
  import opened ObjectStore
  import opened History
  import opened CommitDiff
  import opened Repository

  /** Staging "hello", committing, then reading the committed entry's object gives back "hello". */
  method HelloRoundTrip(hashObject: string -> string, serialize: CommitRecord -> string, parse: string -> Option<CommitRecord>)
    returns (content: Result<string>)
    requires Lawful(hashObject, serialize, parse)
    ensures content == Ok("hello")
  {
    var repo := new Verx(hashObject, serialize, parse);
    repo.Init();
    var fileHash := repo.Add("f.txt", "hello");
    var commitHash := repo.Commit("first", "2024-01-01T00:00:00.000Z");
    var data := GetCommitData(repo.objects, commitHash);
    var record := parse(data.value);
    assert record.value.files == [Entry("f.txt", fileHash)];
    content := GetFileContent(repo.objects, record.value.files[0].hash);
  }

  /**
   * Three commits C1 <- C2 <- C3, made with nothing staged (each has no
   * files): `log` shows C3, C2, C1 with their messages, and does not fail.
   */
  method ThreeCommits(hashObject: string -> string, serialize: CommitRecord -> string, parse: string -> Option<CommitRecord>)
    returns (log: LogResult, c1: string, c2: string, c3: string)
    requires Lawful(hashObject, serialize, parse)
    ensures log.failure == None
    ensures |log.shown| == 3
    ensures log.shown[0].hash == c3 && log.shown[0].message == "third"
    ensures log.shown[1].hash == c2 && log.shown[1].message == "second"
    ensures log.shown[2].hash == c1 && log.shown[2].message == "first"
  {
    var repo := new Verx(hashObject, serialize, parse);
    repo.Init();
    c1 := repo.Commit("first", "2024-01-01T00:00:00.000Z");
    ghost var afterFirst := repo.objects;
    c2 := repo.Commit("second", "2024-01-02T00:00:00.000Z");
    ghost var afterSecond := repo.objects;
    c3 := repo.Commit("third", "2024-01-03T00:00:00.000Z");
    assert repo.history == [c1, c2, c3];
    ghost var objects := repo.objects;
    assert objects[c1] == afterFirst[c1] && objects[c2] == afterSecond[c2];
    assert EntryFor(objects, parse, c1).message == "first";
    assert EntryFor(objects, parse, c2).message == "second";
    assert EntryFor(objects, parse, c3).message == "third";
    repo.LogShowsHistory();
    assert Reaches(objects, parse, repo.LogStart(), 3);
    ghost var w := Walk(objects, parse, repo.LogStart(), 3);
    assert w.shown[0] == EntryFor(objects, parse, c3);
    assert w.shown[1] == EntryFor(objects, parse, c2);
    assert w.shown[2] == EntryFor(objects, parse, c1);
    log := repo.Log();
    assert repo.objects == objects && repo.LogStart() == c3;
    assert Reaches(repo.objects, parse, repo.LogStart(), 3);
    assert log == w;
  }

  /**
   * A file edited in the second commit is diffed against its first content,
   * a file first staged in the second commit is new, and every file of the
   * first commit is reported as the first commit.
   */
  method EditAndNewFile(hashObject: string -> string, serialize: CommitRecord -> string, parse: string -> Option<CommitRecord>)
    returns (first: DiffOutcome, second: DiffOutcome)
    requires Lawful(hashObject, serialize, parse)
    ensures first == Reported([FileReport("a.txt", "one", FirstCommit)], None)
    ensures second == Reported([FileReport("a.txt", "two", Diff("one", "two")), FileReport("b.txt", "new", NewFile)], None)
  {
    var repo := new Verx(hashObject, serialize, parse);
    repo.Init();
    var h1 := repo.Add("a.txt", "one");
    var c1 := repo.Commit("first", "2024-01-01T00:00:00.000Z");
    ghost var record1 := CommitRecord("2024-01-01T00:00:00.000Z", "first", [Entry("a.txt", h1)], "");
    assert repo.objects[h1] == "one";
    assert IsCommitAt(repo.objects, parse, c1) && CommitAt(repo.objects, parse, c1) == record1;
    ghost var text1 := repo.objects[c1];
    var h2 := repo.Add("a.txt", "two");
    assert repo.objects[h1] == "one" && repo.objects[c1] == text1;
    var h3 := repo.Add("b.txt", "new");
    assert repo.objects[h1] == "one" && repo.objects[h2] == "two" && repo.objects[c1] == text1;
    assert repo.index == [Entry("a.txt", h2), Entry("b.txt", h3)] && repo.head == c1;
    var c2 := repo.Commit("second", "2024-01-02T00:00:00.000Z");
    assert repo.objects[h1] == "one" && repo.objects[h2] == "two" && repo.objects[h3] == "new" && repo.objects[c1] == text1;
    first, second := DiffBothCommits(repo, c1, c2, h1, h2, h3);
  }

  /** The two diff reports of EditAndNewFile, from the records its commits stored. */
  method DiffBothCommits(repo: Verx, c1: string, c2: string, h1: string, h2: string, h3: string)
    returns (first: DiffOutcome, second: DiffOutcome)
    requires h1 in repo.objects && h2 in repo.objects && h3 in repo.objects
    requires repo.objects[h1] == "one" && repo.objects[h2] == "two" && repo.objects[h3] == "new"
    requires IsCommitAt(repo.objects, repo.parse, c1) && IsCommitAt(repo.objects, repo.parse, c2)
    requires CommitAt(repo.objects, repo.parse, c1).files == [Entry("a.txt", h1)]
    requires CommitAt(repo.objects, repo.parse, c1).parent == ""
    requires CommitAt(repo.objects, repo.parse, c2).files == [Entry("a.txt", h2), Entry("b.txt", h3)]
    requires CommitAt(repo.objects, repo.parse, c2).parent == c1 && c1 != ""
    ensures first == Reported([FileReport("a.txt", "one", FirstCommit)], None)
    ensures second == Reported([FileReport("a.txt", "two", Diff("one", "two")), FileReport("b.txt", "new", NewFile)], None)
  {
    ghost var objects := repo.objects;
    ghost var parse := repo.parse;
    ghost var record1 := CommitAt(objects, parse, c1);
    ghost var record2 := CommitAt(objects, parse, c2);
    ghost var report1 := FileReport("a.txt", "one", FirstCommit);
    assert ClassifyFile(objects, parse, "", Entry("a.txt", h1)) == Ok(report1);
    first := repo.ShowCommitDiff(c1);
    assert repo.objects == objects;
    assert first == Reported([report1], None) by {
      assert ReportsFor(objects, parse, record1, first.reports, first.failure);
    }

    ghost var report2 := FileReport("a.txt", "two", Diff("one", "two"));
    ghost var report3 := FileReport("b.txt", "new", NewFile);
    assert ClassifyFile(objects, parse, c1, Entry("a.txt", h2)) == Ok(report2) by {
      assert FirstMatchAt(record1.files, "a.txt", 0);
    }
    assert ClassifyFile(objects, parse, c1, Entry("b.txt", h3)) == Ok(report3);
    second := repo.ShowCommitDiff(c2);
    assert repo.objects == objects;
    assert second == Reported([report2, report3], None) by {
      assert ReportsFor(objects, parse, record2, second.reports, second.failure);
    }
  }
}
