/** Properties of the history engine over whole sequences of operations. */
module HistoryLemmas {
  import opened Results
  import opened Revisions
  import opened History

  /** One call into the engine's mutating API. */
  datatype Op =
    | AddOp(name: string, content: string)
    | ChangeOp(name: string, content: string)
    | CommitOp
    | RevertOp
    | LabelOp(name: string)

  /** The state after one call (a refused call leaves the state as it was). */
  function Step(s: VcsState, op: Op): VcsState {
    match op
    case AddOp(n, c) => AddFile(s, n, c).state
    case ChangeOp(n, c) => ChangeFile(s, n, c).state
    case CommitOp => Commit(s)
    case RevertOp => Revert(s)
    case LabelOp(n) => PutLabel(s, n).state
  }

  /** The state after a sequence of calls, first to last. */
  function Run(s: VcsState, ops: seq<Op>): VcsState
    decreases |ops|
  {
    if ops == [] then s else Run(Step(s, ops[0]), ops[1..])
  }

  predicate NoRevert(ops: seq<Op>) {
    forall i :: 0 <= i < |ops| ==> !ops[i].RevertOp?
  }

  predicate OnlyEdits(ops: seq<Op>) {
    forall i :: 0 <= i < |ops| ==> ops[i].AddOp? || ops[i].ChangeOp?
  }

  predicate NoLabel(ops: seq<Op>, name: string) {
    forall i :: 0 <= i < |ops| ==> ops[i] != LabelOp(name)
  }

  /** Every reachable state satisfies the engine invariant. */
  lemma {:induction false} RunPreservesValid(s: VcsState, ops: seq<Op>)
    requires Valid(s)
    ensures Valid(Run(s, ops))
    decreases |ops|
  {
    if ops != [] {
      RunPreservesValid(Step(s, ops[0]), ops[1..]);
    }
  }

  /** One call other than revert either leaves the history alone or pushes one snapshot
      carrying the next stamp. */
  lemma StepExtends(s: VcsState, op: Op)
    requires !op.RevertOp?
    ensures var t := Step(s, op);
      || (t.history == s.history && t.nextStamp == s.nextStamp)
      || (t.history == [Snapshot(s.nextStamp, s.working)] + s.history && t.nextStamp == s.nextStamp + 1)
  {
  }

  lemma NoRevertTail(ops: seq<Op>)
    requires ops != [] && NoRevert(ops)
    ensures !ops[0].RevertOp? && NoRevert(ops[1..])
  {
  }

  /** Without reverts the history only grows at the front: every earlier snapshot is kept,
      unchanged and in order. */
  lemma {:induction false} HistoryExtends(s: VcsState, ops: seq<Op>)
    requires NoRevert(ops)
    ensures |s.history| <= |Run(s, ops).history|
    ensures Run(s, ops).history[|Run(s, ops).history| - |s.history|..] == s.history
    decreases |ops|
  {
    if ops != [] {
      NoRevertTail(ops);
      var t := Step(s, ops[0]);
      StepExtends(s, ops[0]);
      HistoryExtends(t, ops[1..]);
      var h := Run(t, ops[1..]).history;
      assert h[|h| - |t.history|..] == t.history;
      if t.history != s.history {
        assert t.history[1..] == s.history;
        assert h[|h| - |s.history|..] == h[|h| - |t.history|..][1..];
      }
    }
  }

  /** Without reverts a live file stays live and keeps its object id, whatever is added,
      changed, committed or labelled meanwhile. */
  lemma {:induction false} IdentityStable(s: VcsState, ops: seq<Op>, name: string)
    requires NoRevert(ops)
    requires name in s.working
    ensures name in Run(s, ops).working
    ensures Run(s, ops).working[name].id == s.working[name].id
    decreases |ops|
  {
    if ops != [] {
      var t := Step(s, ops[0]);
      assert !ops[0].RevertOp?;
      assert name in t.working && t.working[name].id == s.working[name].id;
      NoRevertTail(ops);
      IdentityStable(t, ops[1..], name);
    }
  }

  /** The object-id counter never goes back, whatever calls are made, reverts included. */
  lemma {:induction false} IdCounterGrows(s: VcsState, ops: seq<Op>)
    ensures s.nextId <= Run(s, ops).nextId
    decreases |ops|
  {
    if ops != [] {
      IdCounterGrows(Step(s, ops[0]), ops[1..]);
    }
  }

  /** Object ids are never reused: a file added after any sequence of calls gets an id that no
      file had, live or committed, at the start of that sequence. */
  lemma AddedIdIsNew(s: VcsState, ops: seq<Op>, name: string, content: string)
    requires Valid(s)
    requires name !in Run(s, ops).working
    ensures var id := AddFile(Run(s, ops), name, content).state.working[name].id;
      && (forall n :: n in s.working ==> s.working[n].id != id)
      && (forall i, n :: 0 <= i < |s.history| && n in s.history[i].files ==> s.history[i].files[n].id != id)
  {
    IdCounterGrows(s, ops);
  }

  /** Only `putLabel` with the same name changes what a label points to. */
  lemma {:induction false} LabelKept(s: VcsState, ops: seq<Op>, name: string)
    requires NoLabel(ops, name)
    ensures name in Run(s, ops).labels <==> name in s.labels
    ensures name in s.labels ==> Run(s, ops).labels[name] == s.labels[name]
    decreases |ops|
  {
    if ops != [] {
      var t := Step(s, ops[0]);
      assert ops[0] != LabelOp(name);
      assert name in t.labels <==> name in s.labels;
      assert name in s.labels ==> t.labels[name] == s.labels[name];
      assert NoLabel(ops[1..], name) by {
        forall i | 0 <= i < |ops[1..]| ensures ops[1..][i] != LabelOp(name) {
          assert ops[1..][i] == ops[i + 1];
        }
      }
      LabelKept(t, ops[1..], name);
    }
  }

  /** A snapshot that has left the history (or never entered it) with an already issued
      stamp never comes back, whatever calls follow. */
  lemma {:induction false} StaysAbsent(s: VcsState, ops: seq<Op>, x: Snapshot)
    requires x !in s.history && x.stamp < s.nextStamp
    ensures x !in Run(s, ops).history && x.stamp < Run(s, ops).nextStamp
    decreases |ops|
  {
    if ops != [] {
      var t := Step(s, ops[0]);
      if ops[0].CommitOp? {
        assert t.history == [Snapshot(s.nextStamp, s.working)] + s.history;
      } else if ops[0].RevertOp? && !s.dirty && s.history != [] {
        assert t.history == s.history[1..];
      }
      assert x !in t.history && x.stamp < t.nextStamp;
      StaysAbsent(t, ops[1..], x);
    }
  }

  /** A labelled snapshot is immune to later edits, commits and other labels: as long as no
      revert undoes it and the label is not reassigned, `getSnapshot` returns the same snapshot. */
  lemma LabelSurvivesCommits(s: VcsState, ops: seq<Op>, name: string)
    requires NoRevert(ops) && NoLabel(ops, name)
    requires GetSnapshot(s, name).Some?
    ensures GetSnapshot(Run(s, ops), name) == GetSnapshot(s, name)
  {
    var r := Run(s, ops);
    var x := s.labels[name];
    LabelKept(s, ops, name);
    HistoryExtends(s, ops);
    var k :| 0 <= k < |s.history| && s.history[k] == x;
    assert r.history[|r.history| - |s.history|..][k] == x;
  }

  /** Labels do not resurrect undone history: once `getSnapshot` reports a label absent it
      keeps doing so until the name is labelled again. */
  lemma DanglingLabelStaysAbsent(s: VcsState, ops: seq<Op>, name: string)
    requires Valid(s)
    requires NoLabel(ops, name)
    requires GetSnapshot(s, name) == None
    ensures GetSnapshot(Run(s, ops), name) == None
  {
    LabelKept(s, ops, name);
    if name in s.labels {
      StaysAbsent(s, ops, s.labels[name]);
    }
  }

  /** Reverting a clean engine undoes the newest commit; a label pinned to that commit
      then reports absent. */
  lemma RevertUnpinsUndoneCommit(s: VcsState, name: string)
    requires Valid(s) && !s.dirty && s.history != []
    requires name in s.labels && s.labels[name] == s.history[0]
    ensures GetSnapshot(Revert(s), name) == None
  {
  }

  /** Edits alone never touch the history, the labels or the stamp counter. */
  lemma {:induction false} EditsKeepHistory(s: VcsState, ops: seq<Op>)
    requires OnlyEdits(ops)
    ensures Run(s, ops).history == s.history
    ensures Run(s, ops).labels == s.labels
    ensures Run(s, ops).nextStamp == s.nextStamp
    ensures s.nextId <= Run(s, ops).nextId
    decreases |ops|
  {
    if ops != [] {
      assert ops[0].AddOp? || ops[0].ChangeOp?;
      assert OnlyEdits(ops[1..]) by {
        forall i | 0 <= i < |ops[1..]| ensures ops[1..][i].AddOp? || ops[1..][i].ChangeOp? {
          assert ops[1..][i] == ops[i + 1];
        }
      }
      EditsKeepHistory(Step(s, ops[0]), ops[1..]);
    }
  }

  /** From a clean engine, any edits followed by one revert lead back to the same files and
      history, clean again; only the id counter remembers the discarded additions. */
  lemma RevertDiscardsEdits(s: VcsState, ops: seq<Op>)
    requires Valid(s) && !s.dirty
    requires OnlyEdits(ops)
    requires Run(s, ops).dirty
    ensures Revert(Run(s, ops)) == s.(nextId := Run(s, ops).nextId)
  {
    EditsKeepHistory(s, ops);
  }

  /** On a clean engine a commit followed by a revert changes nothing but the stamp counter. */
  lemma CommitThenRevert(s: VcsState)
    requires Valid(s) && !s.dirty
    ensures Revert(Commit(s)) == s.(nextStamp := s.nextStamp + 1)
  {
  }

  /** Reverting a fresh engine, once or twice, leaves it fresh. */
  lemma RevertOnFreshEngine()
    ensures Revert(Initial()) == Initial()
    ensures Revert(Revert(Initial())) == Initial()
  {
  }
}
