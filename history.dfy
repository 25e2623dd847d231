/** The history engine as a pure state machine: the specification the LocalVcs class is proved against. */
module History {
  import opened Results
  import opened Revisions

  /** The whole engine state: the working files, the dirty flag, the snapshot history
      (newest first), the name index, and the counters that issue object ids and commit stamps. */
  datatype VcsState = VcsState(
    working: Files,
    dirty: bool,
    history: seq<Snapshot>,
    labels: map<string, Snapshot>,
    nextId: nat,
    nextStamp: nat)

  /** The new state of an operation that may be refused, together with its outcome. */
  datatype Update = Update(state: VcsState, outcome: Outcome)

  /** Snapshots are listed newest first: an earlier position holds a later commit. */
  ghost predicate NewestFirst(h: seq<Snapshot>) {
    forall i, j :: 0 <= i < j < |h| ==> h[j].stamp < h[i].stamp
  }

  /** The files of the newest snapshot, or no files when nothing is committed. */
  function LatestFiles(h: seq<Snapshot>): Files {
    if h == [] then map[] else h[0].files
  }

  /** The engine invariant.
      - every object id in the working state and in history was issued, and live files never share one;
      - commits carry distinct stamps, newest first, and so do the snapshots labels point to;
      - a clean engine's working state is exactly its newest snapshot (empty when there is none). */
  ghost predicate Valid(s: VcsState) {
    && IdsBelow(s.working, s.nextId)
    && DistinctIds(s.working)
    && (forall i :: 0 <= i < |s.history| ==>
          IdsBelow(s.history[i].files, s.nextId) && DistinctIds(s.history[i].files) && s.history[i].stamp < s.nextStamp)
    && NewestFirst(s.history)
    && (forall l :: l in s.labels ==> s.labels[l].stamp < s.nextStamp)
    && (!s.dirty ==> s.working == LatestFiles(s.history))
  }

  /** A fresh engine: no files, no history, no labels, clean. */
  function Initial(): (s: VcsState)
    ensures Valid(s)
    ensures s.working == map[] && s.history == [] && s.labels == map[] && !s.dirty
  {
    VcsState(map[], false, [], map[], 0, 0)
  }

  /** `addFile(name, content)`: a new file with a freshly issued object id; refused when the name is live. */
  function AddFile(s: VcsState, name: string, content: string): (u: Update)
    ensures u.outcome == (if name in s.working then Fail(AlreadyExists) else Pass)
    ensures u.outcome.Fail? ==> u.state == s
    ensures u.outcome == Pass ==>
      && u.state.dirty
      && u.state.working.Keys == s.working.Keys + {name}
      && u.state.working[name] == Entry(s.nextId, content)
      && u.state.nextId == s.nextId + 1
      && (forall n :: n in s.working ==> u.state.working[n] == s.working[n])
    ensures Valid(s) && u.outcome == Pass ==>
      forall n :: n in s.working ==> s.working[n].id != u.state.working[name].id
    ensures Valid(s) && u.outcome == Pass ==>
      forall i, n :: 0 <= i < |s.history| && n in s.history[i].files ==> s.history[i].files[n].id != u.state.working[name].id
    ensures u.state.history == s.history && u.state.labels == s.labels
    ensures Valid(s) ==> Valid(u.state)
  {
    if name in s.working then Update(s, Fail(AlreadyExists))
    else
      Update(s.(working := s.working[name := Entry(s.nextId, content)], dirty := true, nextId := s.nextId + 1), Pass)
  }

  /** `changeFile(name, content)`: new content for a live file, which keeps its object id;
      refused when the name is not live. */
  function ChangeFile(s: VcsState, name: string, content: string): (u: Update)
    ensures u.outcome == (if name in s.working then Pass else Fail(NotFound))
    ensures u.state.nextId == s.nextId
    ensures u.outcome.Fail? ==> u.state == s
    ensures u.state.working.Keys == s.working.Keys
    ensures forall n :: n in s.working ==> u.state.working[n].id == s.working[n].id
    ensures forall n :: n in s.working && n != name ==> u.state.working[n] == s.working[n]
    ensures u.outcome == Pass ==> u.state.dirty && u.state.working[name].content == content
    ensures u.state.history == s.history && u.state.labels == s.labels
    ensures Valid(s) ==> Valid(u.state)
  {
    if name !in s.working then Update(s, Fail(NotFound))
    else
      var e := s.working[name];
      Update(s.(working := s.working[name := Entry(e.id, content)], dirty := true), Pass)
  }

  /** `commit()`: freezes the working state into a new snapshot at the front of the history.
      Never refused; committing a clean engine records another, equal-content snapshot. */
  function Commit(s: VcsState): (r: VcsState)
    ensures !r.dirty && r.working == s.working && r.labels == s.labels && r.nextId == s.nextId
    ensures |r.history| == |s.history| + 1 && r.history[1..] == s.history
    ensures r.history[0].Revisions() == RevisionsOf(s.working)
    ensures Valid(s) ==> forall i :: 0 <= i < |s.history| ==> s.history[i].stamp < r.history[0].stamp
    ensures Valid(s) ==> Valid(r)
  {
    s.(history := [Snapshot(s.nextStamp, s.working)] + s.history, dirty := false, nextStamp := s.nextStamp + 1)
  }

  /** What `revert()` does, decided by the dirty flag and whether any commit exists. */
  datatype RevertAction = DiscardEdits | UndoCommit | NothingToRevert

  /** The revert policy: pending edits are discarded first; with none, the newest commit is
      undone; with neither there is nothing to do. */
  function RevertPlan(dirty: bool, historyEmpty: bool): (a: RevertAction)
    ensures a == DiscardEdits <==> dirty
    ensures a == UndoCommit <==> !dirty && !historyEmpty
    ensures a == NothingToRevert <==> !dirty && historyEmpty
  {
    if dirty then DiscardEdits else if historyEmpty then NothingToRevert else UndoCommit
  }

  /** `revert()`: never refused. Discards pending edits (the history stays), or, on a clean
      engine, drops the newest snapshot and restores the one beneath it. */
  function Revert(s: VcsState): (r: VcsState)
    ensures !r.dirty && r.labels == s.labels && r.nextId == s.nextId
    ensures Valid(s) ==> r.working == LatestFiles(r.history)
    ensures s.dirty ==> r.history == s.history
    ensures !s.dirty && s.history != [] ==> r.history == s.history[1..]
    ensures !s.dirty && s.history == [] ==> r == s
    ensures Valid(s) ==> Valid(r)
  {
    match RevertPlan(s.dirty, s.history == [])
    case DiscardEdits => s.(working := LatestFiles(s.history), dirty := false)
    case UndoCommit => s.(history := s.history[1..], working := LatestFiles(s.history[1..]))
    case NothingToRevert => s
  }

  /** `getSnapshot(name)`: the labelled snapshot, or None when the name is unknown or its
      snapshot has since been undone by a revert. */
  function GetSnapshot(s: VcsState, name: string): (r: Option<Snapshot>)
    ensures name !in s.labels ==> r == None
    ensures r.Some? <==> name in s.labels && s.labels[name] in s.history
    ensures r.Some? ==> r.value == s.labels[name]
  {
    if name in s.labels && s.labels[name] in s.history then Some(s.labels[name]) else None
  }

  /** `putLabel(name)`: pins the newest snapshot under `name`, replacing an earlier use of
      the name; refused when nothing is committed. */
  function PutLabel(s: VcsState, name: string): (u: Update)
    ensures u.outcome == (if s.history == [] then Fail(NoHistory) else Pass)
    ensures u.outcome.Fail? ==> u.state == s
    ensures u.outcome == Pass ==> GetSnapshot(u.state, name) == Some(s.history[0])
    ensures forall l :: l != name ==> GetSnapshot(u.state, l) == GetSnapshot(s, l)
    ensures u.state.working == s.working && u.state.dirty == s.dirty && u.state.history == s.history
    ensures u.state.nextId == s.nextId
    ensures Valid(s) ==> Valid(u.state)
  {
    if s.history == [] then Update(s, Fail(NoHistory))
    else Update(s.(labels := s.labels[name := s.history[0]]), Pass)
  }
}
