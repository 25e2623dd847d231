/** The engine's history tests, each driven through a fresh LocalVcs; a method's ensures
    are the assertions its test makes. */
module HistoryTest {
  import opened Results
  import opened Revisions
  import opened Engine

  /** Undoing the only commit removes the file it added. */
  method RevertingToPreviousVersion() returns (afterCommit: bool, afterRevert: bool)
    ensures afterCommit && !afterRevert
  {
    var vcs := new LocalVcs();
    var added := vcs.AddFile("file", "");
    vcs.Commit();
    afterCommit := vcs.HasFile("file");
    vcs.Revert();
    afterRevert := vcs.HasFile("file");
  }

  /** An addition after a commit makes the engine dirty; a revert makes it clean again. */
  method RevertingClearsAllPendingChanges() returns (beforeRevert: bool, afterRevert: bool)
    ensures !beforeRevert && afterRevert
  {
    var vcs := new LocalVcs();
    var added := vcs.AddFile("file1", "");
    vcs.Commit();
    added := vcs.AddFile("file2", "");
    beforeRevert := vcs.IsClean();
    vcs.Revert();
    afterRevert := vcs.IsClean();
  }

  /** Two reverts on a fresh engine are accepted and leave it fresh. */
  method RevertingWhenNoPreviousVersions() returns (clean: bool, snapshots: seq<Snapshot>)
    ensures clean && snapshots == []
  {
    var vcs := new LocalVcs();
    vcs.Revert();
    vcs.Revert();
    clean := vcs.IsClean();
    snapshots := vcs.GetSnapshots();
  }

  /** With no commit yet, a revert discards a pending addition and leaves the engine clean. */
  method ClearingChangesAfterRevertWhenNoPreviousVersions() returns (beforeRevert: bool, afterRevert: bool, present: bool)
    ensures !beforeRevert && afterRevert && !present
  {
    var vcs := new LocalVcs();
    var added := vcs.AddFile("file", "");
    beforeRevert := vcs.IsClean();
    vcs.Revert();
    afterRevert := vcs.IsClean();
    present := vcs.HasFile("file");
  }

  /** The first half of the set-up of `GettingSnapshots`: two files added and committed. */
  method CommitTwoFiles() returns (vcs: LocalVcs)
    ensures fresh(vcs) && vcs.Valid()
    ensures vcs.working == map["file1" := Entry(0, "content1"), "file2" := Entry(1, "content2")]
    ensures |vcs.history| == 1 && vcs.history[0] == Snapshot(0, vcs.working)
    ensures vcs.nextId == 2 && vcs.nextStamp == 1
  {
    vcs := new LocalVcs();
    var outcome := vcs.AddFile("file1", "content1");
    outcome := vcs.AddFile("file2", "content2");
    vcs.Commit();
  }

  /** The whole set-up of `GettingSnapshots`: then a third file added, the first changed,
      and everything committed again. */
  method CommitTwice() returns (vcs: LocalVcs)
    ensures fresh(vcs) && vcs.Valid()
    ensures vcs.working == map["file1" := Entry(0, "content1"), "file2" := Entry(1, "content2")]["file3" := Entry(2, "content3")]["file1" := Entry(0, "new content1")]
    ensures |vcs.history| == 2 && vcs.history[0] == Snapshot(1, vcs.working)
    ensures vcs.history[1] == Snapshot(0, map["file1" := Entry(0, "content1"), "file2" := Entry(1, "content2")])
  {
    vcs := CommitTwoFiles();
    var older := vcs.working;
    var h := vcs.history;
    assert "file3" !in older;
    var outcome := vcs.AddFile("file3", "content3");
    var mid: Files := older["file3" := Entry(2, "content3")];
    assert vcs.working == mid && vcs.history == h && vcs.nextStamp == 1;
    outcome := vcs.ChangeFile("file1", "new content1");
    assert vcs.working == mid["file1" := Entry(0, "new content1")] && vcs.history == h && vcs.nextStamp == 1;
    vcs.Commit();
  }

  /** Two commits give two snapshots, newest first, each holding exactly the files live at
      its commit; "file1" keeps its object id across the change. */
  method GettingSnapshots() returns (id1: nat, id2: nat, id3: nat, snapshots: seq<Snapshot>)
    ensures |snapshots| == 2
    ensures snapshots[0].Revisions() ==
      {Revision(id1, "file1", "new content1"), Revision(id2, "file2", "content2"), Revision(id3, "file3", "content3")}
    ensures snapshots[1].Revisions() ==
      {Revision(id1, "file1", "content1"), Revision(id2, "file2", "content2")}
    ensures id1 != id2 && id2 != id3 && id1 != id3
  {
    var vcs := CommitTwice();
    var r1 := vcs.GetFileRevision("file1");
    var r2 := vcs.GetFileRevision("file2");
    var r3 := vcs.GetFileRevision("file3");
    id1, id2, id3 := r1.value.objectId, r2.value.objectId, r3.value.objectId;
    snapshots := vcs.GetSnapshots();

    TwoFileRevisions(Entry(0, "content1"), Entry(1, "content2"));
    ChangedFileRevisions(Entry(0, "content1"), Entry(1, "content2"), Entry(2, "content3"), Entry(0, "new content1"));
  }

  /** The revisions of the files "file1" and "file2". */
  lemma TwoFileRevisions(e1: Entry, e2: Entry)
    ensures RevisionsOf(map["file1" := e1, "file2" := e2]) ==
      {Revision(e1.id, "file1", e1.content), Revision(e2.id, "file2", e2.content)}
  {
  }

  /** The revisions after "file3" is added to "file1" and "file2" and "file1" is changed. */
  lemma ChangedFileRevisions(e1: Entry, e2: Entry, e3: Entry, e1new: Entry)
    ensures RevisionsOf(map["file1" := e1, "file2" := e2]["file3" := e3]["file1" := e1new]) ==
      {Revision(e1new.id, "file1", e1new.content), Revision(e2.id, "file2", e2.content), Revision(e3.id, "file3", e3.content)}
  {
  }

  /** A fresh engine has no snapshots. */
  method GettingSnapshotsOnCleanVcs() returns (snapshots: seq<Snapshot>)
    ensures snapshots == []
  {
    var vcs := new LocalVcs();
    snapshots := vcs.GetSnapshots();
  }

  /** A label set after a commit still gives that snapshot after a later change and commit. */
  method GettingLabeledSnapshot() returns (s: Option<Snapshot>, r: Option<Revision>)
    ensures s.Some? && r.Some? && r.value.content == "content"
  {
    var vcs := new LocalVcs();
    var outcome := vcs.AddFile("file", "content");
    vcs.Commit();
    outcome := vcs.PutLabel("label");
    outcome := vcs.ChangeFile("file", "new content");
    vcs.Commit();
    s := vcs.GetSnapshot("label");
    r := s.value.FileRevision("file");
  }

  /** Looking up a label that was never set gives nothing. */
  method GettingSnapshotWithUnknownLabel() returns (s: Option<Snapshot>)
    ensures s == None
  {
    var vcs := new LocalVcs();
    var outcome := vcs.AddFile("file", "content");
    vcs.Commit();
    outcome := vcs.PutLabel("label");
    s := vcs.GetSnapshot("unknown label");
  }
}
