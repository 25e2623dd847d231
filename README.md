# LocalVcs history engine — a Dafny model

This project models the local version-history engine of IntelliJ's LocalVcs: the object that
`LocalVcsHistoryTest` drives as `myVcs`. The engine keeps a working state of named files. Each
file has an integer object id and a content. It also keeps a dirty flag, a newest-first list of
committed snapshots, and an index of labels that pin snapshots.

- `addFile` and `changeFile` edit the working state and make it dirty.
- `commit` freezes the working state into a new snapshot at the front of the history.
- `revert` works in two tiers. With pending edits it discards them. On a clean engine it undoes
  the newest commit. On a fresh engine it does nothing, and it never fails.
- `putLabel` pins the newest snapshot under a name; `getSnapshot(name)` retrieves it.

LocalVcs's implementation is not modelled from its code. The behaviour is the one
`LocalVcsHistoryTest` fixes, and the model reproduces those tests one by one. Where the tests are
silent, the model follows the engine's intended design: refused edits, refused labels before any
commit, and dangling labels.

## Layout

- `results.dfy` (`Results`): `Option` (a nullable result) and the error outcomes.
- `revisions.dfy` (`Revisions`): the immutable values. A `Revision` is an object id, a name and a
  content, and equality is field-wise. A working `Entry` is an id and a content. A `Snapshot` is
  the files of one commit plus a commit stamp.
- `history.dfy` (`History`): the engine as a pure state machine `VcsState`. It has one function
  per operation and the invariant `Valid`. This is the specification the class is proved against.
- `history_lemmas.dfy` (`HistoryLemmas`): properties over whole sequences of operations, proved
  by induction.
- `local_vcs.dfy` (`Engine`): class `LocalVcs`, with mutable fields updated in place by its
  methods. Each mutating method's new state equals the matching `History` function of the old
  state.
- `history_test.dfy` (`HistoryTest`): every test of `LocalVcsHistoryTest` as a method on a fresh
  `LocalVcs`. Its `ensures` clauses are the test's assertions.

Design points:
- Object ids come from a counter that only grows, so an id is never reused. Live files never share
  an id, and `changeFile` keeps a file's id.
- Each snapshot carries a commit stamp that is never reused. It plays the part of the Java object
  reference a label holds. A label whose snapshot was undone by `revert` reports no snapshot,
  and it never comes back.
- Refused operations return `Fail(...)` and leave the state untouched. The refusals are
  `addFile` on a live name, `changeFile` on an unknown name, and `putLabel` before any commit.

## Model

| member | source | states |
|---|---|---|
| `Revisions.RevisionAt` | LocalVcs/test/com/intellij/localvcs/LocalVcsHistoryTest.java:59-61 | a file's revision exists exactly when the file does, and it carries that file's id, name and content |
| `Revisions.RevisionsOf` | LocalVcs/test/com/intellij/localvcs/LocalVcsHistoryTest.java:66-77 | a revision belongs to the set exactly when its name is a file whose entry has that id and content |
| `Revisions.Snapshot.Revisions` | LocalVcs/test/com/intellij/localvcs/LocalVcsHistoryTest.java:71 | `getRevisions()` holds exactly the revisions of the files live at the commit |
| `Revisions.Snapshot.FileRevision` | LocalVcs/test/com/intellij/localvcs/LocalVcsHistoryTest.java:97 | `getFileRevision(name)` is present exactly when the file was live at the commit, and it is one of the snapshot's revisions |
| `History.Initial` | LocalVcs/test/com/intellij/localvcs/LocalVcsHistoryTest.java:81-83 | a fresh engine satisfies the invariant and has no files, no snapshots, no labels and no pending edits |
| `History.AddFile` | LocalVcs/test/com/intellij/localvcs/LocalVcsHistoryTest.java:10 | a new name is accepted and gains a file with the given content and the next object id, which no live or committed file has; the id counter advances; the engine turns dirty; other files and the history stay; a live name is refused with no change |
| `History.ChangeFile` | LocalVcs/test/com/intellij/localvcs/LocalVcsHistoryTest.java:56 | a live name is accepted: the file gets the new content and keeps its object id; every other file is unchanged; the history and the id counter stay; an unknown name is refused with no change |
| `History.Commit` | LocalVcs/test/com/intellij/localvcs/LocalVcsHistoryTest.java:53-57 | the history gains exactly one snapshot at the front, newer than all others, holding exactly the working revisions; the engine is clean; the files and the id counter stay |
| `History.RevertPlan` | LocalVcs/test/com/intellij/localvcs/LocalVcsHistoryTest.java:14-46 | the two-tier policy: discard edits iff dirty, undo a commit iff clean with history, nothing iff clean without history |
| `History.Revert` | LocalVcs/test/com/intellij/localvcs/LocalVcsHistoryTest.java:9-47 | total; the engine is clean afterwards; labels and the id counter stay; with pending edits the history stays; otherwise the newest snapshot is dropped and the working files become the one beneath it; on a fresh engine nothing changes |
| `History.GetSnapshot` | LocalVcs/test/com/intellij/localvcs/LocalVcsHistoryTest.java:95-106 | an unknown label gives None; otherwise the labelled snapshot, as long as it is still in the history |
| `History.PutLabel` | LocalVcs/test/com/intellij/localvcs/LocalVcsHistoryTest.java:90 | after a commit it is accepted and the label then retrieves the newest snapshot; other labels, the files, the history and the id counter are unchanged; before any commit it is refused with no change |
| `HistoryLemmas.RunPreservesValid` | LocalVcs/test/com/intellij/localvcs/LocalVcsHistoryTest.java:50-77 | every sequence of operations keeps the invariant: ids issued and distinct among live files, snapshots newest first, a clean engine's files equal to its newest snapshot |
| `HistoryLemmas.StepExtends` | LocalVcs/test/com/intellij/localvcs/LocalVcsHistoryTest.java:51-57 | any operation other than revert leaves the history alone or pushes one snapshot with the next stamp |
| `HistoryLemmas.HistoryExtends` | LocalVcs/test/com/intellij/localvcs/LocalVcsHistoryTest.java:73-77 | without reverts, every earlier snapshot is kept unchanged and in order behind the new ones, so later edits never alter an earlier snapshot |
| `HistoryLemmas.IdentityStable` | LocalVcs/test/com/intellij/localvcs/LocalVcsHistoryTest.java:59-77 | without reverts, a live file stays live and keeps its object id through any adds, changes, commits and labels |
| `HistoryLemmas.IdCounterGrows` | LocalVcs/test/com/intellij/localvcs/LocalVcsHistoryTest.java:59-61 | the object-id counter never decreases over any sequence of calls, reverts included |
| `HistoryLemmas.AddedIdIsNew` | LocalVcs/test/com/intellij/localvcs/LocalVcsHistoryTest.java:59-61 | a file added after any sequence of calls gets an id that no live or committed file had at its start, so ids are never reused |
| `HistoryLemmas.LabelKept` | LocalVcs/test/com/intellij/localvcs/LocalVcsHistoryTest.java:90-95 | only a `putLabel` of the same name changes what a label points to |
| `HistoryLemmas.StaysAbsent` | LocalVcs/test/com/intellij/localvcs/LocalVcsHistoryTest.java:86-98 | a snapshot that has left the history never re-enters it, whatever follows |
| `HistoryLemmas.LabelSurvivesCommits` | LocalVcs/test/com/intellij/localvcs/LocalVcsHistoryTest.java:86-98 | a labelled snapshot is returned unchanged after any later edits and commits |
| `HistoryLemmas.DanglingLabelStaysAbsent` | LocalVcs/test/com/intellij/localvcs/LocalVcsHistoryTest.java:101-107 | a label that gives no snapshot keeps giving none until the name is labelled again |
| `HistoryLemmas.RevertUnpinsUndoneCommit` | LocalVcs/test/com/intellij/localvcs/LocalVcsHistoryTest.java:9-16 | undoing the commit a label pins makes that label give no snapshot |
| `HistoryLemmas.EditsKeepHistory` | LocalVcs/test/com/intellij/localvcs/LocalVcsHistoryTest.java:19-28 | adds and changes alone never touch the history, the labels or the stamp counter |
| `HistoryLemmas.RevertDiscardsEdits` | LocalVcs/test/com/intellij/localvcs/LocalVcsHistoryTest.java:19-28 | from a clean engine, any edits that made it dirty followed by a revert give back the same files and history, clean |
| `HistoryLemmas.CommitThenRevert` | LocalVcs/test/com/intellij/localvcs/LocalVcsHistoryTest.java:9-16 | on a clean engine a commit followed by a revert restores the files, history and labels |
| `HistoryLemmas.RevertOnFreshEngine` | LocalVcs/test/com/intellij/localvcs/LocalVcsHistoryTest.java:31-38 | one or two reverts on a fresh engine leave it fresh |
| `Engine.LocalVcs.constructor` | LocalVcs/test/com/intellij/localvcs/LocalVcsHistoryTest.java:81-83 | a new engine is the fresh state |
| `Engine.LocalVcs.AddFile` | LocalVcs/test/com/intellij/localvcs/LocalVcsHistoryTest.java:10 | the fields and outcome after the call are those `History.AddFile` gives, and the invariant holds |
| `Engine.LocalVcs.ChangeFile` | LocalVcs/test/com/intellij/localvcs/LocalVcsHistoryTest.java:56 | the fields and outcome after the call are those `History.ChangeFile` gives, and the invariant holds |
| `Engine.LocalVcs.Commit` | LocalVcs/test/com/intellij/localvcs/LocalVcsHistoryTest.java:11 | the fields after the call are those `History.Commit` gives, and the invariant holds |
| `Engine.LocalVcs.Revert` | LocalVcs/test/com/intellij/localvcs/LocalVcsHistoryTest.java:14 | the fields after the call are those `History.Revert` gives, and the invariant holds; it has no precondition beyond the invariant, so it never fails |
| `Engine.LocalVcs.PutLabel` | LocalVcs/test/com/intellij/localvcs/LocalVcsHistoryTest.java:90 | the fields and outcome after the call are those `History.PutLabel` gives, and the invariant holds |
| `Engine.LocalVcs.IsClean` | LocalVcs/test/com/intellij/localvcs/LocalVcsHistoryTest.java:24-27 | clean means no pending edits, and then the files are exactly those of the newest snapshot |
| `Engine.LocalVcs.HasFile` | LocalVcs/test/com/intellij/localvcs/LocalVcsHistoryTest.java:12-15 | true exactly when the file is live in the working state |
| `Engine.LocalVcs.GetFileRevision` | LocalVcs/test/com/intellij/localvcs/LocalVcsHistoryTest.java:59-61 | present exactly for a live file, and it carries that file's current id and content |
| `Engine.LocalVcs.GetSnapshots` | LocalVcs/test/com/intellij/localvcs/LocalVcsHistoryTest.java:63 | the history, newest first |
| `Engine.LocalVcs.GetSnapshot` | LocalVcs/test/com/intellij/localvcs/LocalVcsHistoryTest.java:95 | the labelled snapshot, which is in the history, or None |
| `HistoryTest.RevertingToPreviousVersion` | LocalVcs/test/com/intellij/localvcs/LocalVcsHistoryTest.java:9-16 | the file exists after the commit and is gone after the revert |
| `HistoryTest.RevertingClearsAllPendingChanges` | LocalVcs/test/com/intellij/localvcs/LocalVcsHistoryTest.java:19-28 | dirty after the second add, clean after the revert |
| `HistoryTest.RevertingWhenNoPreviousVersions` | LocalVcs/test/com/intellij/localvcs/LocalVcsHistoryTest.java:31-38 | two reverts on a fresh engine succeed and leave it clean with no snapshots |
| `HistoryTest.ClearingChangesAfterRevertWhenNoPreviousVersions` | LocalVcs/test/com/intellij/localvcs/LocalVcsHistoryTest.java:41-47 | dirty after the add; after the revert clean and without the file |
| `HistoryTest.CommitTwoFiles` | LocalVcs/test/com/intellij/localvcs/LocalVcsHistoryTest.java:51-53 | two adds and a commit give ids 0 and 1 and one snapshot holding both files |
| `HistoryTest.CommitTwice` | LocalVcs/test/com/intellij/localvcs/LocalVcsHistoryTest.java:51-57 | the two-commit set-up ends with two snapshots: the newer one holds the current files and the older one the first two files |
| `HistoryTest.GettingSnapshots` | LocalVcs/test/com/intellij/localvcs/LocalVcsHistoryTest.java:50-78 | two snapshots; the newest holds "file1" with its new content, "file2" and "file3"; the older holds "file1" with its old content and "file2"; "file1" has the same id in both; the three ids are distinct |
| `HistoryTest.TwoFileRevisions` | LocalVcs/test/com/intellij/localvcs/LocalVcsHistoryTest.java:73-77 | the revision set of two files is exactly their two revisions |
| `HistoryTest.ChangedFileRevisions` | LocalVcs/test/com/intellij/localvcs/LocalVcsHistoryTest.java:66-71 | after adding "file3" and changing "file1", the revision set is exactly the three current revisions |
| `HistoryTest.GettingSnapshotsOnCleanVcs` | LocalVcs/test/com/intellij/localvcs/LocalVcsHistoryTest.java:81-83 | a fresh engine lists no snapshots |
| `HistoryTest.GettingLabeledSnapshot` | LocalVcs/test/com/intellij/localvcs/LocalVcsHistoryTest.java:86-98 | after a later change and commit, the label still gives a snapshot whose "file" has content "content" |
| `HistoryTest.GettingSnapshotWithUnknownLabel` | LocalVcs/test/com/intellij/localvcs/LocalVcsHistoryTest.java:101-107 | an unknown label gives None |

## Left out

- File removal: the engine's design mentions it, but no test exercises it, so it is not modelled.
- The order of a snapshot's revisions: `getRevisions()` is modelled as a set. The tests compare
  revisions regardless of order.
- The test base class `LocalVcsTestCase` is not part of this model. `assertElements` is read as
  equality of revision sets and `assertRevisionContent` as a comparison of the content field.
- Refusals, labelling before any commit, and dangling labels are never exercised by the tests.
  They follow the engine's intended design: `Fail` outcomes with no state change, and
  `getSnapshot` gives None once a revert undoes the labelled commit.
- Object ids and stamps are unbounded naturals. The Java `Integer` id would wrap after 2^31 files;
  that is not modelled.
- Persistence and real file-system content: names and contents are plain strings, and nothing is
  stored.
- Concurrency: the engine is single-threaded, and callers serialise mutating calls.
- The other files of the repository are not modelled. `GitDefaultMergeDialogCustomizer.kt` builds
  dialog titles through external calls. `GithubCreateGistTestBase.java` is network and UI test
  glue. `XmlPolicy.java` only forwards formatter settings. `NameDefiner.java` is an interface
  without code. `ConcurrentWeakFactoryMap.java` is a deprecated concurrent-map constructor.
