/**
 * The snapshot store: immutable blobs named by their SHA-256, rows that refer to them, and a sweep after
 * every commit or rollback. Transactions and crashes are functions on values here.
 */
module SoulStore {
  import opened Prelude

  // SHA-256, taken as free of collisions.
  datatype Digest = Sha256(content: Bytes)

  // A file in the blob directory: a blob, or a half-written file under a random name.
  datatype FileName = Blob(digest: Digest) | Scratch(n: nat)

  type Files = map<FileName, Bytes>

  datatype Entry = Entry(path: string, size: nat, digest: Digest)

  datatype Meta = Meta(workspace: bool, readers: set<string>, parent: Option<string>, size: nat, entries: seq<Entry>,
                       archive: Digest)

  // A row of snapshots, in insertion order. Without metadata it is a tombstone.
  datatype Row = Row(id: string, owner: string, name: string, version: nat, meta: Option<Meta>)

  type Rows = seq<Row>

  type Refs = set<(string, Digest)>

  // The quotas of an owner, which each process is started with.
  datatype Limits = Limits(maxCount: int, maxBytes: int) {
    predicate Positive() {
      maxCount >= 1 && maxBytes >= 1
    }
  }

  // What is on disk, and the quotas of the process that serves it; None: no process is up.
  datatype State = State(files: Files, rows: Rows, refs: Refs, process: Option<Limits>)

  const EMPTY := State(map[], [], {}, None)

  datatype Upload = Upload(name: string, workspace: bool, readers: set<string>, parent: Option<string>, findings: bool,
                           allowSecrets: bool, contents: Contents)

  // Paths and bytes of the uploaded files, in archive name order.
  type Contents = seq<(string, Bytes)>

  /** The archive writer: any function of the members and their bytes. */
  type Tar = Contents -> Bytes

  datatype Error = NotFound | Forbidden | SecretsDetected | QuotaExceeded | IdTaken | StorageFailed | Corrupt

  const LEGACY := "legacy"

  // ---------------------------------------------------------------- rows

  function Find(rows: Rows, id: string): (r: Option<nat>)
    ensures r.Some? ==> r.value < |rows| && rows[r.value].id == id
    ensures r.None? ==> forall i :: 0 <= i < |rows| ==> rows[i].id != id
  {
    if rows == [] then None
    else if rows[|rows| - 1].id == id then Some(|rows| - 1)
    else Find(rows[..|rows| - 1], id)
  }

  predicate LiveOf(row: Row, owner: string) {
    row.owner == owner && row.meta.Some?
  }

  /** `_usage`: how many live snapshots an owner has, and their bytes. */
  function Count(rows: Rows, owner: string): nat {
    if rows == [] then 0
    else Count(rows[..|rows| - 1], owner) + if LiveOf(rows[|rows| - 1], owner) then 1 else 0
  }

  function Total(rows: Rows, owner: string): nat {
    if rows == [] then 0
    else
      var last := rows[|rows| - 1];
      Total(rows[..|rows| - 1], owner) + if LiveOf(last, owner) then last.meta.value.size else 0
  }

  // MAX(version) of a lineage, tombstones included.
  function MaxVersion(rows: Rows, owner: string, name: string): nat {
    if rows == [] then 0
    else
      var last := rows[|rows| - 1];
      var before := MaxVersion(rows[..|rows| - 1], owner, name);
      if last.owner == owner && last.name == name && last.version > before then last.version else before
  }

  predicate Visible(row: Row, actor: string) {
    row.meta.Some? && (row.owner == actor || row.meta.value.workspace || actor in row.meta.value.readers)
  }

  // ---------------------------------------------------------------- blobs

  function PutBlob(files: Files, data: Bytes): Files {
    if Blob(Sha256(data)) in files then files else files[Blob(Sha256(data)) := data]
  }

  function PutAll(files: Files, contents: Contents): Files {
    if contents == [] then files
    else PutBlob(PutAll(files, contents[..|contents| - 1]), contents[|contents| - 1].1)
  }

  function Referenced(refs: Refs): set<Digest> {
    set r | r in refs :: r.1
  }

  predicate Needed(n: FileName, refs: Refs) {
    n.Blob? && n.digest in Referenced(refs)
  }

  /** `_gc` run to its end. */
  function Swept(files: Files, refs: Refs): Files {
    map n | n in files && Needed(n, refs) :: files[n]
  }

  /** `_gc` cut short: some of the unneeded files are gone. */
  function PartlySwept(files: Files, refs: Refs, removed: set<FileName>): Files {
    map n | n in files && (Needed(n, refs) || n !in removed) :: files[n]
  }

  // ---------------------------------------------------------------- save

  function EntryOf(member: (string, Bytes)): Entry {
    Entry(member.0, |member.1|, Sha256(member.1))
  }

  function Entries(contents: Contents): seq<Entry> {
    seq(|contents|, i requires 0 <= i < |contents| => EntryOf(contents[i]))
  }

  function Size(contents: Contents): nat {
    if contents == [] then 0 else Size(contents[..|contents| - 1]) + |contents[|contents| - 1].1|
  }

  function Digests(entries: seq<Entry>): set<Digest> {
    set e | e in entries :: e.digest
  }

  function ParentError(rows: Rows, parent: string, actor: string): Option<Error> {
    var i := Find(rows, parent);
    if i.None? || rows[i.value].meta.None? then Some(NotFound)
    else if !Visible(rows[i.value], actor) then Some(NotFound)
    else if rows[i.value].owner != actor && rows[i.value].owner != LEGACY then Some(Forbidden)
    else None
  }

  /** What refuses an upload before any blob is written. */
  function SaveError(limits: Limits, rows: Rows, actor: string, u: Upload): Option<Error> {
    if u.parent.Some? && ParentError(rows, u.parent.value, actor).Some? then ParentError(rows, u.parent.value, actor)
    else if u.findings && !u.allowSecrets then Some(SecretsDetected)
    else if actor != LEGACY && (Count(rows, actor) >= limits.maxCount || Total(rows, actor) + Size(u.contents) > limits.maxBytes)
    then Some(QuotaExceeded)
    else None
  }

  function NewRow(tar: Tar, rows: Rows, id: string, actor: string, u: Upload): Row {
    Row(id, actor, u.name, MaxVersion(rows, actor, u.name) + 1,
        Some(Meta(u.workspace, u.readers, u.parent, Size(u.contents), Entries(u.contents), Sha256(tar(u.contents)))))
  }

  function NewRefs(id: string, digests: set<Digest>): Refs {
    set d | d in digests :: (id, d)
  }

  /** The state once the save has committed, before the sweep. */
  function Committed(tar: Tar, s: State, id: string, actor: string, u: Upload): State {
    s.(files := PutAll(s.files, u.contents),
       rows := s.rows + [NewRow(tar, s.rows, id, actor, u)],
       refs := s.refs + NewRefs(id, Digests(Entries(u.contents))))
  }

  function Sweep(s: State): State {
    s.(files := Swept(s.files, s.refs))
  }

  /** `save`: `fault` is a storage failure after that many blobs. The sweep runs either way. */
  function Save(tar: Tar, s: State, id: string, actor: string, u: Upload, fault: Option<nat>): (State, Result<Row, Error>)
    requires s.process.Some?
  {
    var e := SaveError(s.process.value, s.rows, actor, u);
    if e.Some? then (Sweep(s), Err(e.value))
    else if fault.Some? && fault.value <= |u.contents| then
      (Sweep(s.(files := PutAll(s.files, u.contents[..fault.value]))), Err(StorageFailed))
    else if Find(s.rows, id).Some? then (Sweep(s.(files := PutAll(s.files, u.contents))), Err(IdTaken))
    else (Sweep(Committed(tar, s, id, actor, u)), Ok(NewRow(tar, s.rows, id, actor, u)))
  }

  // ---------------------------------------------------------------- delete

  function DeleteError(rows: Rows, id: string, actor: string): Option<Error> {
    var i := Find(rows, id);
    if i.None? then Some(NotFound)
    else if rows[i.value].owner == actor then None
    else if !Visible(rows[i.value], actor) then Some(NotFound)
    else Some(Forbidden)
  }

  function Buried(rows: Rows, id: string): Rows {
    var i := Find(rows, id);
    if i.None? then rows else rows[i.value := rows[i.value].(meta := None)]
  }

  function RefsWithout(refs: Refs, id: string): Refs {
    set r | r in refs && r.0 != id
  }

  function Unlinked(s: State, id: string): State {
    s.(rows := Buried(s.rows, id), refs := RefsWithout(s.refs, id))
  }

  /** `delete`: a tombstone, then the sweep; a refused delete does neither. */
  function Delete(s: State, id: string, actor: string): (State, Option<Error>) {
    var e := DeleteError(s.rows, id, actor);
    if e.Some? then (s, e) else (Sweep(Unlinked(s, id)), None)
  }

  // ---------------------------------------------------------------- archive

  /** The bytes an entry list stands for, read back from the blobs; each blob is hashed again. */
  function ReadBack(files: Files, entries: seq<Entry>): Result<Contents, Error> {
    if entries == [] then Ok([])
    else
      var before := ReadBack(files, entries[..|entries| - 1]);
      var e := entries[|entries| - 1];
      if before.Err? then before
      else if Blob(e.digest) !in files then Err(StorageFailed)
      else if Sha256(files[Blob(e.digest)]) != e.digest then Err(Corrupt)
      else Ok(before.value + [(e.path, files[Blob(e.digest)])])
  }

  function Archive(tar: Tar, s: State, id: string, actor: string): Result<Bytes, Error> {
    var i := Find(s.rows, id);
    if i.None? || !Visible(s.rows[i.value], actor) then Err(NotFound)
    else
      var read := ReadBack(s.files, s.rows[i.value].meta.value.entries);
      if read.Err? then Err(read.error) else Ok(tar(read.value))
  }

  // ---------------------------------------------------------------- steps, crashes included

  datatype Step =
    | SaveStep(id: string, actor: string, u: Upload, fault: Option<nat>)
    | DeleteStep(id: string, actor: string)
    | SaveCrash(id: string, actor: string, u: Upload, puts: nat, scratch: Option<(nat, Bytes)>, committed: bool,
                removed: set<FileName>)
    | DeleteCrash(id: string, actor: string, committed: bool, removed: set<FileName>)
    | Restart(limits: Limits)
    | RestartCrash(limits: Limits, removed: set<FileName>)

  function WithScratch(files: Files, scratch: Option<(nat, Bytes)>): Files {
    if scratch.Some? then files[Scratch(scratch.value.0) := scratch.value.1] else files
  }

  // The process dies somewhere in a save: between blobs, in the middle of one, or after the commit.
  function CrashedSave(tar: Tar, s: State, id: string, actor: string, u: Upload, puts: nat, scratch: Option<(nat, Bytes)>,
                       committed: bool): State
    requires s.process.Some?
  {
    if SaveError(s.process.value, s.rows, actor, u).Some? then s
    else if puts < |u.contents| then
      s.(files := WithScratch(PutAll(s.files, u.contents[..puts]), scratch))
    else if committed && Find(s.rows, id).None? then Committed(tar, s, id, actor, u)
    else s.(files := PutAll(s.files, u.contents))
  }

  function Dead(s: State, removed: set<FileName>): State {
    s.(files := PartlySwept(s.files, s.refs, removed), process := None)
  }

  // A process is started, after the one that was up, if any, has gone.
  function Started(s: State, limits: Limits): State {
    if limits.Positive() then Sweep(s).(process := Some(limits)) else s.(process := None)
  }

  /** One step; only a start does anything while no process is up. */
  function Next(tar: Tar, s: State, step: Step): State {
    if step.Restart? then Started(s, step.limits)
    else if step.RestartCrash? then if step.limits.Positive() then Dead(s, step.removed) else s.(process := None)
    else if s.process.None? then s
    else match step
      case SaveStep(id, actor, u, fault) => Save(tar, s, id, actor, u, fault).0
      case DeleteStep(id, actor) => Delete(s, id, actor).0
      case SaveCrash(id, actor, u, puts, scratch, committed, removed) =>
        Dead(CrashedSave(tar, s, id, actor, u, puts, scratch, committed), removed)
      case DeleteCrash(id, actor, committed, removed) =>
        if DeleteError(s.rows, id, actor).Some? then s.(process := None)
        else if committed then Dead(Unlinked(s, id), removed)
        else s.(process := None)
  }

  function Run(tar: Tar, s: State, steps: seq<Step>): State {
    if steps == [] then s
    else Next(tar, Run(tar, s, steps[..|steps| - 1]), steps[|steps| - 1])
  }
}
