/** The history engine as the object the tests drive: fields updated in place by its methods. */
module Engine {
  import opened Results
  import opened Revisions
  import History

  class LocalVcs {
    var working: Files                   // live files by name
    var dirty: bool                      // edits since the last commit or revert
    var history: seq<Snapshot>           // committed snapshots, newest first
    var labels: map<string, Snapshot>    // label name to the snapshot it pins
    var nextId: nat                      // next object id to issue
    var nextStamp: nat                   // next commit stamp to issue

    /** The engine's fields as a value of the specification state machine. */
    function State(): History.VcsState
      reads this
    {
      History.VcsState(working, dirty, history, labels, nextId, nextStamp)
    }

    ghost predicate Valid()
      reads this
    {
      History.Valid(State())
    }

    constructor ()
      ensures Valid() && State() == History.Initial()
    {
      working, dirty, history, labels := map[], false, [], map[];
      nextId, nextStamp := 0, 0;
    }

    method AddFile(name: string, content: string) returns (outcome: Outcome)
      requires Valid()
      modifies this
      ensures Valid()
      ensures History.AddFile(old(State()), name, content) == History.Update(State(), outcome)
    {
      if name in working {
        return Fail(AlreadyExists);
      }
      working := working[name := Entry(nextId, content)];
      nextId := nextId + 1;
      dirty := true;
      outcome := Pass;
    }

    method ChangeFile(name: string, content: string) returns (outcome: Outcome)
      requires Valid()
      modifies this
      ensures Valid()
      ensures History.ChangeFile(old(State()), name, content) == History.Update(State(), outcome)
    {
      if name !in working {
        return Fail(NotFound);
      }
      var id := working[name].id;
      working := working[name := Entry(id, content)];
      dirty := true;
      outcome := Pass;
    }

    method Commit()
      requires Valid()
      modifies this
      ensures Valid()
      ensures State() == History.Commit(old(State()))
    {
      history := [Snapshot(nextStamp, working)] + history;
      nextStamp := nextStamp + 1;
      dirty := false;
    }

    method Revert()
      requires Valid()
      modifies this
      ensures Valid()
      ensures State() == History.Revert(old(State()))
    {
      match History.RevertPlan(dirty, history == [])
      case DiscardEdits =>
        working := History.LatestFiles(history);
        dirty := false;
      case UndoCommit =>
        history := history[1..];
        working := History.LatestFiles(history);
      case NothingToRevert =>
    }

    method PutLabel(name: string) returns (outcome: Outcome)
      requires Valid()
      modifies this
      ensures Valid()
      ensures History.PutLabel(old(State()), name) == History.Update(State(), outcome)
    {
      if history == [] {
        return Fail(NoHistory);
      }
      labels := labels[name := history[0]];
      outcome := Pass;
    }

    /** `isClean()`: no edits are pending, so the files are those of the newest snapshot. */
    method IsClean() returns (clean: bool)
      requires Valid()
      ensures clean <==> !dirty
      ensures clean ==> working == History.LatestFiles(history)
    {
      clean := !dirty;
    }

    /** `hasFile(name)`: the file is live in the working state. */
    method HasFile(name: string) returns (present: bool)
      ensures present <==> name in working
    {
      present := name in working;
    }

    /** `getFileRevision(name)`: the current, not historical, revision of the file. */
    method GetFileRevision(name: string) returns (r: Option<Revision>)
      ensures r.Some? <==> name in working
      ensures r.Some? ==> r.value.name == name && working[name] == Entry(r.value.objectId, r.value.content)
    {
      r := RevisionAt(working, name);
    }

    /** `getSnapshots()`: every commit not undone, newest first. */
    method GetSnapshots() returns (snapshots: seq<Snapshot>)
      requires Valid()
      ensures snapshots == history
      ensures History.NewestFirst(snapshots)
    {
      snapshots := history;
    }

    /** `getSnapshot(name)`: the snapshot pinned under `name`, or None for an unknown label. */
    method GetSnapshot(name: string) returns (r: Option<Snapshot>)
      ensures r == History.GetSnapshot(State(), name)
      ensures r.Some? ==> r.value in history && name in labels
    {
      r := if name in labels && labels[name] in history then Some(labels[name]) else None;
    }
  }
}
