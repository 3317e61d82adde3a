# Verx, modelled in Dafny

Verx is a single-user version-control engine kept in a `.verx` directory. It has
three pieces of state:

- `objects`: a content-addressed store, mapping a digest to the stored text.
- `index`: the staging list of `{path, hash}` entries, in the order they were added.
- `HEAD`: the digest of the newest commit, or the empty string before the first commit.

The class `Verx` implements five operations on this state:

- `init` creates an empty HEAD and index.
- `add` stores a file's content under its SHA-1 digest and stages it.
- `commit` records the staged entries and the previous HEAD as parent in a commit record. It stores the record's JSON under that record's own digest, moves HEAD to it and clears the index.
- `log` walks the parent chain from HEAD.
- `showCommitDiff` classifies each file of a commit against its parent: "First Commit", "New file in this commit", or a line diff of the parent's content against the commit's content.

The model keeps the same split:

- `records.dfy` (module `Records`) holds the entries, commit records, failures and the laws assumed of the digest and of the serialisation.
- `objectstore.dfy` (module `ObjectStore`) holds the store invariant, the reads and the first-match lookup of a path.
- `history.dfy` (module `History`) holds the walk `log` performs, the invariant of the commit chain and the lemmas about both.
- `commitdiff.dfy` (module `CommitDiff`) classifies one file of a commit.
- `repository.dfy` (module `Repository`) holds the class `Verx`. Its fields `objects: map<string, string>`, `index: seq<Entry>` and `head: string` are updated in place. A flag `initialised` records whether the HEAD and index files exist.
- `scenarios.dfy` (module `Scenarios`) describes short sessions on a fresh repository and proves their outcomes from the contracts of the `Verx` operations alone.

How the parts are built:

- `Valid()` is the class invariant. Every object is stored under its own digest, and every staged entry names a stored object.
- A ghost field `history` lists the commits made so far, oldest first. Each commit on it is stored and names its predecessor as parent (the oldest names ""). The hashes are distinct, and HEAD is the newest one.
- `add` and `commit` keep this invariant, and their postconditions give the new state in full.
- `log` and `showCommitDiff` are loops. Each is proved against a specification function: `Walk` for `log`, `ClassifyFile` for one pass of the diff loop.
- Lemmas state what those functions mean. `log` shows HEAD, then each parent in turn. On any state the operations produce, it shows exactly the commits made, newest first. Files are classified by a first-match lookup of the path in the parent.

SHA-1 and the JSON encoding are not written out. The digest `hashObject`, the encoding `serialize` and its reader `parse` are functions given to the constructor. The constructor requires the laws in `Records.Lawful`:

- distinct texts have distinct digests;
- a digest is never empty;
- `parse(serialize(c)) == Some(c)`.

The clock is an argument: `Commit` takes the timestamp. The working tree is an argument too: `Add` takes the file's content.

Where the code throws, the model returns a `Failure` value instead:

- `ObjectMissing`: a read of a missing object.
- `NotACommit`: a stored text that does not parse as a commit record.
- `ParentUnreadable`: the `TypeError` raised on `null.files` when a commit's parent object is missing.

`log` and `showCommitDiff` print their output as they go. So the result of `log` holds the commits shown before the failure, plus the failure. The result of `showCommitDiff` holds the files fully handled before the failure, plus the failure.

## Behaviour of the code worth noting

- The first commit's parent is the empty string that `init` wrote to HEAD and `getCurrentHead` reads back (Verx.mjs:29, 84).
- Every write into the store overwrites, since `writeFile` is called without an exclusive flag (Verx.mjs:55, 101). The digest is injective, so an object already stored under a digest has exactly the content being written, and nothing changes (`ObjectStore.StoreWrite`).
- `commit` does not check the index: an empty index gives a commit with no files (Verx.mjs:81, 90).
- The line diff of a changed file is `diffLines` from the npm `diff` package, imported at Verx.mjs:4.

## Model

| member | source | states |
|---|---|---|
| Repository.Verx.constructor | Verx.mjs:10-19 | A fresh repository has no objects, an empty index, an empty HEAD and no `.verx` files yet; it satisfies the class invariant |
| Repository.Verx.Init | Verx.mjs:21-37 | On a fresh repository HEAD becomes "" and the index empty; on an initialised one the failed exclusive write changes nothing; the invariant holds after |
| Repository.Verx.UpdateStagingArea | Verx.mjs:65-76 | The index becomes the old index plus one entry `{path, hash}` at the end; earlier entries are kept, a repeated path gets a second entry; the invariant is kept when the hash names a stored object |
| Repository.Verx.Add | Verx.mjs:45-61 | Returns `hashObject(content)`; the store gains that object, so `getFileContent` of the digest returns the content; no existing object changes; the index gains `{path, digest}` at the end; HEAD and the history are untouched; the invariant is kept |
| Repository.Verx.Commit | Verx.mjs:79-110 | The new record has the index as read for its files and the previous HEAD as parent; it is stored under the digest of its serialisation and parses back to itself; the digest is non-empty and new to the history; HEAD moves to it; the index is emptied; no existing object changes; the invariant is kept |
| Repository.Verx.GetCurrentHead | Verx.mjs:114-121 | Nothing exactly when the HEAD file does not exist; "" exactly when there is no commit yet; otherwise the digest of the newest commit |
| Repository.Verx.Log | Verx.mjs:125-144 | Starting at HEAD (a missing HEAD is falsy), the result is the walk `History.Walk` along parents, whenever that walk ends |
| Repository.Verx.LogShowsHistory | Verx.mjs:125-144 | In every state the operations produce, the walk from HEAD ends, shows every commit made exactly once, newest first, and does not fail |
| Repository.Verx.ShowCommitDiff | Verx.mjs:150-211 | A missing commit object gives CommitNotFound; an object that is not a commit fails at once; otherwise one report per file in commit order, each as `ClassifyFile` gives it, stopping at the first file that fails |
| History.WalkFollowsParents | Verx.mjs:125-144 | `log`: the first commit shown is HEAD; each next one is the parent of the one before; all are readable commits with non-empty hashes; the walk stops without failure at the first empty hash, and otherwise at the first hash that is missing or not a commit, which it names |
| History.WalkHistory | Verx.mjs:125-144 | On a chain where each commit names its predecessor and the oldest names "", the walk from the newest shows the whole chain newest first and does not fail |
| History.ThreeCommitLog | Verx.mjs:125-144 | For C1 <- C2 <- C3 with C1's parent "", the walk from C3 shows exactly C3, C2, C1 |
| History.CommitExtendsHistory | Verx.mjs:81-104 | A commit whose parent is the current HEAD gets a non-empty digest that is not already in the history; storing it keeps every object and keeps the chain linked and free of repeats |
| ObjectStore.StoreWrite | Verx.mjs:49-55 | Writing a text under its own digest keeps every object stored under its digest and changes no object already stored |
| ObjectStore.GetCommitData | Verx.mjs:226-234 | The stored text when an object exists under the digest; nothing (the caught read failure) when it does not. `ObjectStore.ContentMatchesDigest` and `ObjectStore.ReadAfterWrite` state what the read gives in a store keyed by digest and after a write |
| ObjectStore.GetFileContent | Verx.mjs:236-239 | The stored text when an object exists under the digest; an ObjectMissing failure naming the digest (the uncaught read failure) when it does not. `ObjectStore.ContentMatchesDigest` and `ObjectStore.ReadAfterWrite` state what the read gives in a store keyed by digest and after a write |
| ObjectStore.ReadAfterWrite | Verx.mjs:49-55 | After a text is written under its digest, `getFileContent` and `getCommitData` of that digest return the text; writing it again changes nothing; reads of every other stored digest are as before |
| ObjectStore.ContentMatchesDigest | Verx.mjs:226-239 | In a store keyed by digest, both reads of a stored digest give a text that hashes back to it; for an absent digest `getCommitData` gives nothing (the caught failure) and `getFileContent` an ObjectMissing failure naming it |
| ObjectStore.FindByPath | Verx.mjs:216 | Nothing exactly when no entry has the path; otherwise the first entry with the path |
| ObjectStore.GetParentFileContent | Verx.mjs:215-223 | Nothing exactly when no entry of the parent has the path; otherwise the content stored for the parent's first entry with that path, or ObjectMissing when that object is absent |
| CommitDiff.ClassifyFile | Verx.mjs:161-208 | A missing file object fails; with no parent the file is First Commit; a missing parent object fails (the `null.files` TypeError); an unparsable parent fails; a parent without the path gives New file; otherwise a diff of the content of the parent's first entry for the path against the file's content |
| CommitDiff.HistoryCommitDiff | Verx.mjs:161-208 | For any file of any commit the operations made, classification succeeds: First Commit exactly for the oldest commit; later, New file exactly when the parent has no entry for the path, otherwise a diff against the parent's first entry for it |
| CommitDiff.FirstEntryWins | Verx.mjs:215-222 | When the parent lists a path twice, the earlier entry's content is the one diffed |
| Scenarios.HelloRoundTrip | Verx.mjs:45-110 | On a fresh repository, after `init`, `add` of "hello" and `commit`, the file entry of the stored commit reads back as "hello" |
| Scenarios.ThreeCommits | Verx.mjs:79-144 | On a fresh repository, after `init` and three commits, `log` shows the third, the second and the first commit, with their messages, and does not fail |
| Scenarios.EditAndNewFile | Verx.mjs:150-211 | After a commit of `a.txt` = "one" and a second commit of `a.txt` = "two" and `b.txt` = "new", the first commit's diff reports `a.txt` as First Commit; the second reports `a.txt` as a diff of "one" against "two" and `b.txt` as a new file |

## Left out

- hashObject: SHA-1 (`crypto`) is not modelled. The digest is a function given to the constructor. It is assumed injective and non-empty, which SHA-1 only approximates.
- JSON serialisation and parsing are not modelled. They are the functions `serialize` and `parse`, with `parse` a left inverse of `serialize`.
- ShowCommitDiff: the path of a file whose handling fails, and its content when the failure comes from the parent read, are printed before the failure (Verx.mjs:162, 166) but are not kept in the result, which holds only the files fully handled.
- ShowCommitDiff: valid JSON that is not a commit behaves variously in the code. The falsy texts `null`, `0`, `false` and `""` give "Commit not found" (Verx.mjs:153-155). Any other value without a `files` array, such as `42` or `{}`, makes the loop over `files` throw. The model treats every such text as `NotACommit`.
- Log: valid JSON that is not a commit is not a failure in the code. For `{}`, `42`, `"x"` or `[]`, `log` prints the hash with an undefined date and message, reads an undefined `parent` and stops without an error (Verx.mjs:136-142); only `null` throws there. The model's walk stops at every such text with `NotACommit`. In every state the operations produce, the walk from HEAD meets only commit records, so this difference never arises there (`Repository.Verx.LogShowsHistory`).
- The line diff (`diffLines` from the npm `diff` package) is a library whose code is not part of this model. A changed file is reported as the pair (parent content, commit content) handed to it.
- Terminal output (`console.log`, `chalk` colours, `process.stdout`) is presentation and is not modelled.
- File-system paths (`path.join`, the `repoPath` argument) are not modelled. Neither is `mkdir` of the objects directory, which changes no stored object.
- Add: reading the working file is an argument. The failure when that file does not exist is not modelled.
- Init: the HEAD and index files are modelled as existing together (one flag). A state with one of them missing arises only from outside the program and is not modelled.
- Add, Commit and UpdateStagingArea before `init` are excluded by a precondition. There the code throws because the objects directory and the index file do not exist (for UpdateStagingArea, the read of the index at Verx.mjs:69).
- The timestamp (`new Date().toISOString()`) is an argument of `Commit`.
- A commit `message` left undefined, which `JSON.stringify` would omit, is not modelled.
- The three writes of `commit` are modelled as one atomic step. A crash between them is not modelled.
- Log: requires that the walk from HEAD ends. On a chain that loops back on itself the code runs forever, and every state the operations produce meets the requirement (`Repository.Verx.LogShowsHistory`).
- The top-level script that runs `init` and `showCommitDiff` on a fixed digest (Verx.mjs:244-254) is a usage example and is not modelled.
