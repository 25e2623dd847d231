/** Immutable values of the history engine: revisions, working entries and snapshots. */
module Revisions {
  import opened Results

  /** A frozen copy of one file: object id, file name and content.
      Two revisions are equal exactly when all three fields are. */
  datatype Revision = Revision(objectId: nat, name: string, content: string)

  /** A live file of the working state: its object id and its current content. */
  datatype Entry = Entry(id: nat, content: string)

  /** Files by name; the working state and every snapshot hold one of these. */
  type Files = map<string, Entry>

  /** The revision of `name` in `files`, if the file exists there. */
  function RevisionAt(files: Files, name: string): (r: Option<Revision>)
    ensures r.Some? <==> name in files
    ensures r.Some? ==> r.value.name == name && files[name] == Entry(r.value.objectId, r.value.content)
  {
    if name in files then Some(Revision(files[name].id, name, files[name].content)) else None
  }

  /** All revisions of `files`: one per file, carrying that file's id and content. */
  function RevisionsOf(files: Files): (revs: set<Revision>)
    ensures forall r :: r in revs <==> r.name in files && files[r.name] == Entry(r.objectId, r.content)
  {
    set name | name in files :: Revision(files[name].id, name, files[name].content)
  }

  /** No two files share an object id. */
  ghost predicate DistinctIds(files: Files) {
    forall a, b :: a in files && b in files && a != b ==> files[a].id != files[b].id
  }

  /** Every object id in `files` is below `bound`, i.e. was issued before `bound`. */
  ghost predicate IdsBelow(files: Files, bound: nat) {
    forall name :: name in files ==> files[name].id < bound
  }

  /** The state of all files at one commit. `stamp` is the commit's serial number; it is
      never reused, so it gives each snapshot an identity of its own, like an object reference. */
  datatype Snapshot = Snapshot(stamp: nat, files: Files) {

    /** `getRevisions()`: the revisions of exactly the files live at the commit. */
    function Revisions(): (revs: set<Revision>)
      ensures forall r :: r in revs <==> RevisionAt(files, r.name) == Some(r)
    {
      RevisionsOf(files)
    }

    /** `getFileRevision(name)`: the revision of `name` at the commit, if it existed. */
    function FileRevision(name: string): (r: Option<Revision>)
      ensures r.Some? <==> name in files
      ensures r.Some? ==> r.value in Revisions() && r.value.name == name
    {
      RevisionAt(files, name)
    }
  }
}
