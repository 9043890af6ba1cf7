/** What the snapshot store keeps over every run with failed saves, crashes and restarts. */
module SoulRuns {
  import opened Prelude
  import opened SoulStore

  // ---------------------------------------------------------------- files

  /** Every blob holds the bytes it is named after. */
  ghost predicate Honest(files: Files) {
    forall d :: Blob(d) in files ==> files[Blob(d)] == d.content
  }

  /** Nothing that a live snapshot refers to is missing. */
  ghost predicate Held(files: Files, refs: Refs) {
    forall d :: d in Referenced(refs) ==> Blob(d) in files
  }

  /** The directory holds the referenced blobs and nothing else. */
  ghost predicate Exact(files: Files, refs: Refs) {
    forall n :: n in files <==> Needed(n, refs)
  }

  ghost predicate FilesKept(files: Files, refs: Refs) {
    Honest(files) && Held(files, refs)
  }

  lemma PutKeeps(files: Files, data: Bytes)
    requires Honest(files)
    ensures Honest(PutBlob(files, data)) && files.Keys <= PutBlob(files, data).Keys
    ensures Blob(Sha256(data)) in PutBlob(files, data)
  {
  }

  lemma {:induction false} PutAllKeeps(files: Files, contents: Contents)
    requires Honest(files)
    ensures Honest(PutAll(files, contents)) && files.Keys <= PutAll(files, contents).Keys
    ensures forall m :: m in contents ==> Blob(Sha256(m.1)) in PutAll(files, contents)
  {
    if contents != [] {
      var rest, last := contents[..|contents| - 1], contents[|contents| - 1];
      PutAllKeeps(files, rest);
      PutKeeps(PutAll(files, rest), last.1);
      assert contents == rest + [last];
    }
  }

  /** What an exact directory sweeps back to, whatever blobs were added meanwhile. */
  lemma ExactAgain(files: Files, more: Files, refs: Refs)
    requires Honest(files) && Exact(files, refs) && Honest(more) && files.Keys <= more.Keys
    ensures Swept(more, refs) == files
  {
  }

  // ---------------------------------------------------------------- rows

  ghost function RowRefs(rows: Rows): Refs {
    if rows == [] then {}
    else
      var last := rows[|rows| - 1];
      RowRefs(rows[..|rows| - 1]) + if last.meta.Some? then NewRefs(last.id, Digests(last.meta.value.entries)) else {}
  }

  ghost predicate UniqueIds(rows: Rows) {
    forall i, j :: 0 <= i < j < |rows| ==> rows[i].id != rows[j].id
  }

  // How many rows a lineage has, tombstones included.
  function Lineage(rows: Rows, owner: string, name: string): nat {
    if rows == [] then 0
    else
      var last := rows[|rows| - 1];
      Lineage(rows[..|rows| - 1], owner, name) + if last.owner == owner && last.name == name then 1 else 0
  }

  /** The versions of a lineage are 1, 2, 3, ... in the order of saving. */
  ghost predicate Dense(rows: Rows) {
    forall i :: 0 <= i < |rows| ==> rows[i].version == Lineage(rows[..i], rows[i].owner, rows[i].name) + 1
  }

  lemma {:induction false} MaxIsLineage(rows: Rows, owner: string, name: string)
    requires Dense(rows)
    ensures MaxVersion(rows, owner, name) == Lineage(rows, owner, name)
  {
    if rows != [] {
      var rest := rows[..|rows| - 1];
      assert forall i :: 0 <= i < |rest| ==> rest[..i] == rows[..i];
      MaxIsLineage(rest, owner, name);
      assert rows[|rows| - 1].version == Lineage(rest, rows[|rows| - 1].owner, rows[|rows| - 1].name) + 1;
    }
  }

  // The bytes an entry list was made from.
  function Members(entries: seq<Entry>): Contents {
    seq(|entries|, i requires 0 <= i < |entries| => (entries[i].path, entries[i].digest.content))
  }

  // The bytes of all files, one after the other.
  ghost function Joined(contents: Contents): Bytes {
    if contents == [] then [] else Joined(contents[..|contents| - 1]) + contents[|contents| - 1].1
  }

  lemma {:induction false} SizeIsJoined(contents: Contents)
    ensures Size(contents) == |Joined(contents)|
  {
    if contents != [] { SizeIsJoined(contents[..|contents| - 1]); }
  }

  ghost predicate RecordedMeta(tar: Tar, meta: Meta) {
    meta.archive == Sha256(tar(Members(meta.entries))) && meta.size == |Joined(Members(meta.entries))|
  }

  /** The recorded archive hash is that of the archive of the entries, and the recorded size theirs. */
  ghost predicate Recorded(tar: Tar, rows: Rows) {
    forall i :: 0 <= i < |rows| && rows[i].meta.Some? ==> RecordedMeta(tar, rows[i].meta.value)
  }

  ghost predicate RowsKept(tar: Tar, rows: Rows) {
    UniqueIds(rows) && Dense(rows) && Recorded(tar, rows)
  }

  ghost predicate Inv(tar: Tar, s: State) {
    && FilesKept(s.files, s.refs)
    && RowsKept(tar, s.rows)
    && s.refs == RowRefs(s.rows)
    && (s.process.Some? ==> Exact(s.files, s.refs))
  }

  // ---------------------------------------------------------------- adding a row

  lemma MembersOfEntries(contents: Contents)
    ensures Members(Entries(contents)) == contents
  {
  }

  lemma EntryDigests(contents: Contents, d: Digest)
    requires d in Digests(Entries(contents))
    ensures exists m :: m in contents && d == Sha256(m.1)
  {
  }

  lemma CommittedFiles(tar: Tar, s: State, id: string, actor: string, u: Upload)
    requires FilesKept(s.files, s.refs)
    ensures FilesKept(Committed(tar, s, id, actor, u).files, Committed(tar, s, id, actor, u).refs)
  {
    var s' := Committed(tar, s, id, actor, u);
    PutAllKeeps(s.files, u.contents);
    forall d | d in Referenced(s'.refs) ensures Blob(d) in s'.files {
      var r :| r in s'.refs && r.1 == d;
      if r in s.refs {
        assert d in Referenced(s.refs);
      } else {
        EntryDigests(u.contents, d);
      }
    }
  }

  lemma Snoc(rows: Rows, row: Row)
    ensures (rows + [row])[..|rows|] == rows
    ensures forall i :: 0 <= i <= |rows| ==> (rows + [row])[..i] == rows[..i]
    ensures RowRefs(rows + [row]) ==
            RowRefs(rows) + if row.meta.Some? then NewRefs(row.id, Digests(row.meta.value.entries)) else {}
    ensures forall owner :: Count(rows + [row], owner) == Count(rows, owner) + if LiveOf(row, owner) then 1 else 0
    ensures forall owner :: Total(rows + [row], owner) ==
                            Total(rows, owner) + if LiveOf(row, owner) then row.meta.value.size else 0
  {
  }

  lemma DenseMore(rows: Rows, row: Row)
    requires Dense(rows) && row.version == Lineage(rows, row.owner, row.name) + 1
    ensures Dense(rows + [row])
  {
    hide Lineage;
    var rows' := rows + [row];
    forall i | 0 <= i < |rows'| ensures rows'[i].version == Lineage(rows'[..i], rows'[i].owner, rows'[i].name) + 1 {
      assert rows'[..i] == rows[..i];
      assert rows[..|rows|] == rows;
    }
  }

  lemma NewRowKept(tar: Tar, rows: Rows, id: string, actor: string, u: Upload)
    requires RowsKept(tar, rows) && Find(rows, id).None?
    ensures RowsKept(tar, rows + [NewRow(tar, rows, id, actor, u)])
  {
    hide Dense, Lineage, MaxVersion, Entries, Members, Size, Find, Joined;
    MembersOfEntries(u.contents);
    SizeIsJoined(u.contents);
    MaxIsLineage(rows, actor, u.name);
    DenseMore(rows, NewRow(tar, rows, id, actor, u));
  }

  // ---------------------------------------------------------------- burying a row

  lemma BuriedAt(rows: Rows, id: string)
    requires rows != []
    ensures var rest, last := rows[..|rows| - 1], rows[|rows| - 1];
            Buried(rows, id) == if last.id == id then rest + [last.(meta := None)] else Buried(rest, id) + [last]
  {
  }

  lemma {:induction false} BuriedRefs(rows: Rows, id: string)
    requires UniqueIds(rows)
    ensures RowRefs(Buried(rows, id)) == RefsWithout(RowRefs(rows), id)
  {
    if rows != [] {
      var rest, last := rows[..|rows| - 1], rows[|rows| - 1];
      BuriedAt(rows, id);
      if last.id == id {
        NoRefs(rest, id);
        Snoc(rest, last.(meta := None));
      } else {
        BuriedRefs(rest, id);
        Snoc(Buried(rest, id), last);
      }
    }
  }

  lemma {:induction false} NoRefs(rows: Rows, id: string)
    requires forall i :: 0 <= i < |rows| ==> rows[i].id != id
    ensures forall r :: r in RowRefs(rows) ==> r.0 != id
  {
    if rows != [] { NoRefs(rows[..|rows| - 1], id); }
  }

  lemma {:induction false} BuriedUsage(rows: Rows, id: string, owner: string)
    ensures Count(Buried(rows, id), owner) <= Count(rows, owner) && Total(Buried(rows, id), owner) <= Total(rows, owner)
  {
    if rows != [] {
      var rest, last := rows[..|rows| - 1], rows[|rows| - 1];
      BuriedAt(rows, id);
      if last.id == id {
        Snoc(rest, last.(meta := None));
      } else {
        BuriedUsage(rest, id, owner);
        Snoc(Buried(rest, id), last);
      }
    }
  }

  lemma {:induction false} SameLineage(a: Rows, b: Rows, owner: string, name: string)
    requires |a| == |b| && forall i :: 0 <= i < |a| ==> a[i].owner == b[i].owner && a[i].name == b[i].name
    ensures Lineage(a, owner, name) == Lineage(b, owner, name)
  {
    if a != [] { SameLineage(a[..|a| - 1], b[..|b| - 1], owner, name); }
  }

  lemma BuriedDense(rows: Rows, id: string)
    requires Dense(rows)
    ensures Dense(Buried(rows, id))
  {
    var rows' := Buried(rows, id);
    forall i | 0 <= i < |rows'| ensures rows'[i].version == Lineage(rows'[..i], rows'[i].owner, rows'[i].name) + 1 {
      assert rows[i].version == Lineage(rows[..i], rows[i].owner, rows[i].name) + 1;
      SameLineage(rows[..i], rows'[..i], rows[i].owner, rows[i].name);
    }
  }

  lemma BuriedKept(tar: Tar, rows: Rows, id: string)
    requires RowsKept(tar, rows)
    ensures RowsKept(tar, Buried(rows, id))
  {
    hide Dense;
    BuriedDense(rows, id);
  }

  lemma UnlinkedFiles(s: State, id: string)
    requires FilesKept(s.files, s.refs)
    ensures FilesKept(s.files, RefsWithout(s.refs, id))
  {
  }

  // ---------------------------------------------------------------- the steps

  // The invariant of a process that may be about to sweep.
  ghost predicate Unswept(tar: Tar, s: State) {
    FilesKept(s.files, s.refs) && RowsKept(tar, s.rows) && s.refs == RowRefs(s.rows)
  }

  lemma SweepKeeps(tar: Tar, s: State)
    requires Unswept(tar, s)
    ensures Inv(tar, Sweep(s))
  {
  }

  lemma StartedKeeps(tar: Tar, s: State, limits: Limits)
    requires Unswept(tar, s)
    ensures Inv(tar, Started(s, limits))
  {
    hide RowsKept, RowRefs;
  }

  lemma DeadKeeps(tar: Tar, s: State, removed: set<FileName>)
    requires Unswept(tar, s)
    ensures Inv(tar, Dead(s, removed))
  {
  }

  lemma CommittedKeeps(tar: Tar, s: State, id: string, actor: string, u: Upload)
    requires Unswept(tar, s) && Find(s.rows, id).None?
    ensures Unswept(tar, Committed(tar, s, id, actor, u))
  {
    CommittedFiles(tar, s, id, actor, u);
    NewRowKept(tar, s.rows, id, actor, u);
    Snoc(s.rows, NewRow(tar, s.rows, id, actor, u));
    hide FilesKept, RowsKept, RowRefs, SaveError, PutAll, Find, NewRefs, Digests, Entries;
  }

  lemma MoreFiles(tar: Tar, s: State, files: Files)
    requires Unswept(tar, s) && Honest(files) && s.files.Keys <= files.Keys
    ensures Unswept(tar, s.(files := files))
  {
  }

  lemma UnlinkedKeeps(tar: Tar, s: State, id: string)
    requires Unswept(tar, s)
    ensures Unswept(tar, Unlinked(s, id))
  {
    UnlinkedFiles(s, id);
    BuriedKept(tar, s.rows, id);
    BuriedRefs(s.rows, id);
  }

  lemma SaveKeeps(tar: Tar, s: State, id: string, actor: string, u: Upload, fault: Option<nat>)
    requires Unswept(tar, s) && s.process.Some?
    ensures Inv(tar, Save(tar, s, id, actor, u, fault).0)
  {
    hide SaveError, Find, Inv, Committed, RowsKept, RowRefs, Sweep, PutAll;
    PutAllKeeps(s.files, u.contents);
    MoreFiles(tar, s, PutAll(s.files, u.contents));
    if fault.Some? && fault.value <= |u.contents| {
      PutAllKeeps(s.files, u.contents[..fault.value]);
      MoreFiles(tar, s, PutAll(s.files, u.contents[..fault.value]));
      SweepKeeps(tar, s.(files := PutAll(s.files, u.contents[..fault.value])));
    }
    SweepKeeps(tar, s);
    SweepKeeps(tar, s.(files := PutAll(s.files, u.contents)));
    if SaveError(s.process.value, s.rows, actor, u).None? && Find(s.rows, id).None? {
      CommittedKeeps(tar, s, id, actor, u);
      SweepKeeps(tar, Committed(tar, s, id, actor, u));
    }
  }

  lemma ScratchKeeps(files: Files, scratch: Option<(nat, Bytes)>)
    requires Honest(files)
    ensures Honest(WithScratch(files, scratch)) && files.Keys <= WithScratch(files, scratch).Keys
  {
  }

  lemma CrashedSaveKeeps(tar: Tar, s: State, id: string, actor: string, u: Upload, puts: nat,
                         scratch: Option<(nat, Bytes)>, committed: bool)
    requires Unswept(tar, s) && s.process.Some?
    ensures Unswept(tar, CrashedSave(tar, s, id, actor, u, puts, scratch, committed))
  {
    hide SaveError, Find, Committed, RowsKept, RowRefs, PutAll, Unswept, Honest, WithScratch;
    UnsweptHonest(tar, s);
    if puts < |u.contents| {
      PutAllKeeps(s.files, u.contents[..puts]);
      ScratchKeeps(PutAll(s.files, u.contents[..puts]), scratch);
      MoreFiles(tar, s, WithScratch(PutAll(s.files, u.contents[..puts]), scratch));
    } else {
      PutAllKeeps(s.files, u.contents);
      MoreFiles(tar, s, PutAll(s.files, u.contents));
      if SaveError(s.process.value, s.rows, actor, u).None? && Find(s.rows, id).None? {
        CommittedKeeps(tar, s, id, actor, u);
      }
    }
  }

  lemma UnsweptHonest(tar: Tar, s: State)
    requires Unswept(tar, s)
    ensures Honest(s.files)
  {
  }

  /** Every step keeps the invariant, wherever the process dies. */
  lemma NextKeeps(tar: Tar, s: State, step: Step)
    requires Inv(tar, s)
    ensures Inv(tar, Next(tar, s, step))
  {
    hide Inv, Unswept, Save, CrashedSave, Started, Sweep, Dead, Unlinked, DeleteError;
    DownKeeps(tar, s);
    match step
    case SaveStep(id, actor, u, fault) =>
      if s.process.Some? { SaveKeeps(tar, s, id, actor, u, fault); }
    case DeleteStep(id, actor) =>
      UnlinkedKeeps(tar, s, id);
      SweepKeeps(tar, Unlinked(s, id));
    case SaveCrash(id, actor, u, puts, scratch, committed, removed) =>
      if s.process.Some? {
        CrashedSaveKeeps(tar, s, id, actor, u, puts, scratch, committed);
        DeadKeeps(tar, CrashedSave(tar, s, id, actor, u, puts, scratch, committed), removed);
      }
    case DeleteCrash(id, actor, committed, removed) =>
      UnlinkedKeeps(tar, s, id);
      DeadKeeps(tar, Unlinked(s, id), removed);
    case Restart(limits) =>
      StartedKeeps(tar, s, limits);
    case RestartCrash(_, removed) =>
      DeadKeeps(tar, s, removed);
  }

  lemma DownKeeps(tar: Tar, s: State)
    requires Inv(tar, s)
    ensures Inv(tar, s.(process := None)) && Unswept(tar, s)
  {
  }

  lemma {:induction false} RunKeeps(tar: Tar, s: State, steps: seq<Step>)
    requires Inv(tar, s)
    ensures Inv(tar, Run(tar, s, steps))
  {
    hide Inv, Next;
    if steps != [] {
      RunKeeps(tar, s, steps[..|steps| - 1]);
      NextKeeps(tar, Run(tar, s, steps[..|steps| - 1]), steps[|steps| - 1]);
    }
  }

  lemma EmptyInv(tar: Tar)
    ensures Inv(tar, EMPTY)
  {
  }

  // ---------------------------------------------------------------- what a run promises

  // Some live snapshot has an entry with this digest.
  ghost predicate UsedBy(rows: Rows, i: int, d: Digest) {
    0 <= i < |rows| && rows[i].meta.Some? && exists e :: e in rows[i].meta.value.entries && e.digest == d
  }

  lemma {:induction false} RefsAreUses(rows: Rows, d: Digest)
    ensures d in Referenced(RowRefs(rows)) <==> exists i :: UsedBy(rows, i, d)
  {
    if rows != [] {
      var rest, last := rows[..|rows| - 1], rows[|rows| - 1];
      RefsAreUses(rest, d);
      forall i ensures UsedBy(rows, i, d) <==> UsedBy(rest, i, d) || (i == |rows| - 1 && UsedBy(rows, i, d)) { }
      if UsedBy(rows, |rows| - 1, d) {
        assert d in Digests(last.meta.value.entries);
        assert (last.id, d) in RowRefs(rows);
      }
      RefsSnoc(rows, d);
    }
  }

  lemma RefsSnoc(rows: Rows, d: Digest)
    requires rows != []
    ensures d in Referenced(RowRefs(rows)) <==>
            d in Referenced(RowRefs(rows[..|rows| - 1])) || UsedBy(rows, |rows| - 1, d)
  {
    var rest, last := rows[..|rows| - 1], rows[|rows| - 1];
    if d in Referenced(RowRefs(rest)) {
      var r :| r in RowRefs(rest) && r.1 == d;
      assert r in RowRefs(rows);
    }
    if UsedBy(rows, |rows| - 1, d) { assert (last.id, d) in RowRefs(rows); }
  }

  /** While the process runs, the blob files are exactly the entries of the live snapshots. */
  lemma BlobsAreExactlyReferenced(tar: Tar, steps: seq<Step>)
    ensures var s := Run(tar, EMPTY, steps);
            s.process.Some? ==> forall n :: n in s.files <==> n.Blob? && exists i :: UsedBy(s.rows, i, n.digest)
  {
    EmptyInv(tar);
    RunKeeps(tar, EMPTY, steps);
    var s := Run(tar, EMPTY, steps);
    hide Run, RowRefs, UsedBy;
    if s.process.Some? {
      forall n ensures n in s.files <==> n.Blob? && exists i :: UsedBy(s.rows, i, n.digest) {
        if n.Blob? { RefsAreUses(s.rows, n.digest); }
      }
    }
  }

  /** Versions count up from 1 in each lineage, so none is ever used twice. */
  lemma VersionsCountUp(tar: Tar, steps: seq<Step>)
    ensures var rows := Run(tar, EMPTY, steps).rows;
            forall i :: 0 <= i < |rows| ==> rows[i].version == Lineage(rows[..i], rows[i].owner, rows[i].name) + 1
  {
    EmptyInv(tar);
    RunKeeps(tar, EMPTY, steps);
  }

  lemma {:induction false} ReadsBack(files: Files, entries: seq<Entry>)
    requires Honest(files) && forall e :: e in entries ==> Blob(e.digest) in files
    ensures ReadBack(files, entries) == Ok(Members(entries))
  {
    if entries == [] {
      assert Members(entries) == [];
    } else {
      var rest, last := entries[..|entries| - 1], entries[|entries| - 1];
      ReadsBack(files, rest);
      assert last in entries;
      assert Members(entries) == Members(rest) + [(last.path, last.digest.content)];
    }
  }

  lemma {:induction false} RowIsReferenced(rows: Rows, i: nat, d: Digest)
    requires i < |rows| && rows[i].meta.Some? && d in Digests(rows[i].meta.value.entries)
    ensures (rows[i].id, d) in RowRefs(rows)
  {
    if i < |rows| - 1 { RowIsReferenced(rows[..|rows| - 1], i, d); }
  }

  /** In any state the invariant allows, a live snapshot reads back as the bytes its hashes were taken of. */
  lemma ArchiveReads(tar: Tar, s: State, i: nat, actor: string)
    requires Inv(tar, s) && i < |s.rows| && Visible(s.rows[i], actor)
    ensures var meta := s.rows[i].meta.value;
            var r := Archive(tar, s, s.rows[i].id, actor);
            r == Ok(tar(Members(meta.entries))) && Sha256(r.value) == meta.archive
  {
    var entries := s.rows[i].meta.value.entries;
    forall e | e in entries ensures Blob(e.digest) in s.files {
      assert e.digest in Digests(entries);
      RowIsReferenced(s.rows, i, e.digest);
      assert (s.rows[i].id, e.digest).1 in Referenced(s.refs);
    }
    ReadsBack(s.files, entries);
    assert Find(s.rows, s.rows[i].id) == Some(i);
  }

  // ---------------------------------------------------------------- quotas

  /** The live snapshots of an owner. */
  ghost function LiveRows(rows: Rows, owner: string): set<int> {
    set i | 0 <= i < |rows| && rows[i].owner == owner && rows[i].meta.Some?
  }

  /** All the bytes they hold, one after the other. */
  ghost function Holdings(rows: Rows, owner: string): Bytes {
    if rows == [] then []
    else
      var last := rows[|rows| - 1];
      Holdings(rows[..|rows| - 1], owner) +
      if last.owner == owner && last.meta.Some? then Joined(Members(last.meta.value.entries)) else []
  }

  lemma LiveSnoc(rows: Rows, owner: string)
    requires rows != []
    ensures var n := |rows| - 1;
            && n !in LiveRows(rows[..n], owner)
            && LiveRows(rows, owner) == LiveRows(rows[..n], owner) + if LiveOf(rows[n], owner) then {n} else {}
  {
    var n := |rows| - 1;
    forall i ensures i in LiveRows(rows, owner) <==> i in LiveRows(rows[..n], owner) || (i == n && LiveOf(rows[n], owner)) { }
  }

  lemma {:induction false} CountIsLive(rows: Rows, owner: string)
    ensures Count(rows, owner) == |LiveRows(rows, owner)|
  {
    if rows == [] {
      assert LiveRows(rows, owner) == {};
    } else {
      hide LiveRows;
      LiveSnoc(rows, owner);
      CountIsLive(rows[..|rows| - 1], owner);
    }
  }

  lemma {:induction false} TotalIsHeld(tar: Tar, rows: Rows, owner: string)
    requires Recorded(tar, rows)
    ensures Total(rows, owner) == |Holdings(rows, owner)|
  {
    hide Members, Joined;
    if rows != [] { TotalIsHeld(tar, rows[..|rows| - 1], owner); }
  }

  ghost predicate Within(limits: Limits, rows: Rows, owner: string) {
    |LiveRows(rows, owner)| <= limits.maxCount && |Holdings(rows, owner)| <= limits.maxBytes
  }

  /** An owner's usage grows only under a process, and then to within that process's quotas. */
  ghost predicate GrowsWithin(process: Option<Limits>, a: Rows, b: Rows, owner: string) {
    || (|LiveRows(b, owner)| <= |LiveRows(a, owner)| && |Holdings(b, owner)| <= |Holdings(a, owner)|)
    || (process.Some? && Within(process.value, b, owner))
  }

  // The same in the numbers that the code adds up.
  ghost predicate Grows(process: Option<Limits>, a: Rows, b: Rows, owner: string) {
    || (Count(b, owner) <= Count(a, owner) && Total(b, owner) <= Total(a, owner))
    || (process.Some? && Count(b, owner) <= process.value.maxCount && Total(b, owner) <= process.value.maxBytes)
  }

  lemma NewRowGrows(tar: Tar, limits: Limits, rows: Rows, id: string, actor: string, u: Upload, owner: string)
    requires owner != "legacy" && SaveError(limits, rows, actor, u).None?
    ensures Grows(Some(limits), rows, rows + [NewRow(tar, rows, id, actor, u)], owner)
  {
    Snoc(rows, NewRow(tar, rows, id, actor, u));
    hide Count, Total, Size, MaxVersion, Entries, ParentError;
  }

  lemma NextCounts(tar: Tar, s: State, step: Step, owner: string)
    requires owner != "legacy"
    ensures Grows(s.process, s.rows, Next(tar, s, step).rows, owner)
  {
    hide Count, Total, SaveError, NewRow, PutAll, Swept, PartlySwept, NewRefs, RefsWithout, Find, Buried;
    if s.process.Some? {
      match step
      case SaveStep(id, actor, u, _) =>
        if SaveError(s.process.value, s.rows, actor, u).None? { NewRowGrows(tar, s.process.value, s.rows, id, actor, u, owner); }
      case SaveCrash(id, actor, u, _, _, _, _) =>
        if SaveError(s.process.value, s.rows, actor, u).None? { NewRowGrows(tar, s.process.value, s.rows, id, actor, u, owner); }
      case DeleteStep(id, _) => BuriedUsage(s.rows, id, owner);
      case DeleteCrash(id, _, _, _) => BuriedUsage(s.rows, id, owner);
      case _ =>
    }
  }

  /** Whatever the quotas were when the rows were written. */
  lemma NextGrows(tar: Tar, s: State, step: Step, owner: string)
    requires Inv(tar, s) && owner != "legacy"
    ensures GrowsWithin(s.process, s.rows, Next(tar, s, step).rows, owner)
  {
    NextCounts(tar, s, step, owner);
    NextKeeps(tar, s, step);
    hide Next, LiveRows, Holdings, Count, Total, Recorded;
    var rows' := Next(tar, s, step).rows;
    CountIsLive(s.rows, owner);
    CountIsLive(rows', owner);
    TotalIsHeld(tar, s.rows, owner);
    TotalIsHeld(tar, rows', owner);
  }

  ghost predicate Under(limits: Limits, max: Limits) {
    limits.maxCount <= max.maxCount && limits.maxBytes <= max.maxBytes
  }

  lemma NextProcess(tar: Tar, s: State, step: Step)
    ensures var p := Next(tar, s, step).process;
            p.Some? ==> p == s.process || (step.Restart? && p == Some(step.limits))
  {
  }

  lemma {:induction false} RunWithin(tar: Tar, max: Limits, steps: seq<Step>, owner: string)
    requires max.Positive() && owner != "legacy"
    requires forall k :: 0 <= k < |steps| && steps[k].Restart? ==> Under(steps[k].limits, max)
    ensures var s := Run(tar, EMPTY, steps); Within(max, s.rows, owner) && (s.process.Some? ==> Under(s.process.value, max))
  {
    hide Next, Inv, LiveRows, Holdings;
    EmptyInv(tar);
    if steps == [] {
      NothingHeld(owner);
    } else {
      var rest, last := steps[..|steps| - 1], steps[|steps| - 1];
      var s := Run(tar, EMPTY, rest);
      RunWithin(tar, max, rest, owner);
      RunKeeps(tar, EMPTY, rest);
      NextGrows(tar, s, last, owner);
      NextProcess(tar, s, last);
    }
  }

  lemma NothingHeld(owner: string)
    ensures LiveRows([], owner) == {} && Holdings([], owner) == []
  {
  }

  /** If no process is started with quotas beyond `max`, no owner but the legacy one is ever beyond it. */
  lemma QuotasHold(tar: Tar, max: Limits, steps: seq<Step>)
    requires max.Positive() && forall k :: 0 <= k < |steps| && steps[k].Restart? ==> Under(steps[k].limits, max)
    ensures forall owner :: owner != "legacy" ==> Within(max, Run(tar, EMPTY, steps).rows, owner)
  {
    forall owner | owner != "legacy" ensures Within(max, Run(tar, EMPTY, steps).rows, owner) {
      RunWithin(tar, max, steps, owner);
    }
  }

  // ---------------------------------------------------------------- what a saved snapshot keeps

  /** Rows only ever turn into tombstones. */
  ghost predicate RowsMove(a: Rows, b: Rows) {
    |a| <= |b| && forall i :: 0 <= i < |a| ==> b[i] == a[i] || b[i] == a[i].(meta := None)
  }

  lemma NextMoves(tar: Tar, s: State, step: Step)
    ensures RowsMove(s.rows, Next(tar, s, step).rows)
  {
  }

  lemma {:induction false} RunMoves(tar: Tar, s: State, steps: seq<Step>)
    ensures RowsMove(s.rows, Run(tar, s, steps).rows)
  {
    hide Next;
    if steps != [] {
      RunMoves(tar, s, steps[..|steps| - 1]);
      NextMoves(tar, Run(tar, s, steps[..|steps| - 1]), steps[|steps| - 1]);
    }
  }

  lemma SavedRow(tar: Tar, s: State, id: string, actor: string, u: Upload, fault: Option<nat>)
    requires s.process.Some? && Save(tar, s, id, actor, u, fault).1.Ok?
    ensures var s' := Save(tar, s, id, actor, u, fault).0;
            |s'.rows| == |s.rows| + 1 && s'.rows[|s.rows|] == NewRow(tar, s.rows, id, actor, u)
  {
  }

  /** Only a delete by its owner, completed or cut short, can bury a row. */
  ghost predicate Deletes(step: Step, id: string, owner: string) {
    (step.DeleteStep? || step.DeleteCrash?) && step.id == id && step.actor == owner
  }

  lemma BystanderStays(tar: Tar, s: State, step: Step, i: nat)
    requires i < |s.rows| && !Deletes(step, s.rows[i].id, s.rows[i].owner)
    ensures i < |Next(tar, s, step).rows| && Next(tar, s, step).rows[i] == s.rows[i]
  {
    hide SaveError, PutAll, NewRow, Swept, PartlySwept, NewRefs, RefsWithout, Visible;
  }

  lemma {:induction false} UndeletedStays(tar: Tar, s: State, steps: seq<Step>, i: nat)
    requires i < |s.rows| && forall k :: 0 <= k < |steps| ==> !Deletes(steps[k], s.rows[i].id, s.rows[i].owner)
    ensures i < |Run(tar, s, steps).rows| && Run(tar, s, steps).rows[i] == s.rows[i]
  {
    hide Next;
    if steps != [] {
      UndeletedStays(tar, s, steps[..|steps| - 1], i);
      BystanderStays(tar, Run(tar, s, steps[..|steps| - 1]), steps[|steps| - 1], i);
    }
  }

  /**
   * A saved snapshot stays readable, byte for byte, until it is itself deleted: whatever is saved or
   * deleted around it, through failed saves, crashes and restarts, and however blobs are shared.
   */
  lemma SavedBytesComeBack(tar: Tar, before: seq<Step>, id: string, actor: string, u: Upload,
                           fault: Option<nat>, after: seq<Step>, reader: string)
    requires var s := Run(tar, EMPTY, before);
             s.process.Some? && Save(tar, s, id, actor, u, fault).1.Ok?
    ensures var s := Run(tar, EMPTY, before);
            var s' := Run(tar, Save(tar, s, id, actor, u, fault).0, after);
            var i := |s.rows|;
            && i < |s'.rows| && s'.rows[i].id == id
            && (Visible(s'.rows[i], reader) ==> Archive(tar, s', id, reader) == Ok(tar(u.contents)))
            && ((forall k :: 0 <= k < |after| ==> !Deletes(after[k], id, actor)) ==>
                  && s'.rows[i] == NewRow(tar, s.rows, id, actor, u)
                  && (reader == actor || u.workspace || reader in u.readers ==> Visible(s'.rows[i], reader)))
  {
    var s := Run(tar, EMPTY, before);
    var saved := Save(tar, s, id, actor, u, fault).0;
    var s' := Run(tar, saved, after);
    EmptyInv(tar);
    RunKeeps(tar, EMPTY, before);
    SaveKeeps(tar, s, id, actor, u, fault);
    RunKeeps(tar, saved, after);
    SavedRow(tar, s, id, actor, u, fault);
    RunMoves(tar, saved, after);
    MembersOfEntries(u.contents);
    hide Inv, Save, Run, Archive, Members, Entries, MaxVersion, Size;
    var i := |s.rows|;
    if forall k :: 0 <= k < |after| ==> !Deletes(after[k], id, actor) { UndeletedStays(tar, saved, after, i); }
    assert s'.rows[i] == saved.rows[i] || s'.rows[i] == saved.rows[i].(meta := None);
    if Visible(s'.rows[i], reader) { ArchiveReads(tar, s', i, reader); }
  }

  /** Once deleted, a snapshot is never served again. */
  lemma DeletedStaysDeleted(tar: Tar, before: seq<Step>, id: string, actor: string, after: seq<Step>, reader: string)
    requires var s := Run(tar, EMPTY, before);
             s.process.Some? && Delete(s, id, actor).1.None?
    ensures var s := Run(tar, EMPTY, before);
            Archive(tar, Run(tar, Delete(s, id, actor).0, after), id, reader) == Err(NotFound)
  {
    var s := Run(tar, EMPTY, before);
    var gone := Delete(s, id, actor).0;
    var s' := Run(tar, gone, after);
    EmptyInv(tar);
    RunKeeps(tar, EMPTY, before);
    NextKeeps(tar, s, DeleteStep(id, actor));
    RunKeeps(tar, gone, after);
    RunMoves(tar, gone, after);
    Tombstone(s, id, actor);
    hide Run, Delete;
    var i := Find(s.rows, id).value;
    assert gone.rows[i] == gone.rows[i].(meta := None);
    assert s'.rows[i].id == id && s'.rows[i].meta.None?;
    assert Find(s'.rows, id) == Some(i);
  }

  lemma Tombstone(s: State, id: string, actor: string)
    requires Delete(s, id, actor).1.None?
    ensures var i := Find(s.rows, id);
            i.Some? && |Delete(s, id, actor).0.rows| == |s.rows| && Delete(s, id, actor).0.rows[i.value].id == id &&
            Delete(s, id, actor).0.rows[i.value].meta.None?
  {
  }

  /** A failed save leaves no trace: not in the tables, and not one file. */
  lemma FailedSaveChangesNothing(tar: Tar, s: State, id: string, actor: string, u: Upload, fault: Option<nat>)
    requires Inv(tar, s) && s.process.Some? && Save(tar, s, id, actor, u, fault).1.Err?
    ensures Save(tar, s, id, actor, u, fault).0 == s
  {
    hide SaveError, Find, RowsKept, RowRefs, PutAll, Swept;
    PutAllKeeps(s.files, u.contents);
    ExactAgain(s.files, s.files, s.refs);
    ExactAgain(s.files, PutAll(s.files, u.contents), s.refs);
    if fault.Some? && fault.value <= |u.contents| {
      PutAllKeeps(s.files, u.contents[..fault.value]);
      ExactAgain(s.files, PutAll(s.files, u.contents[..fault.value]), s.refs);
    }
  }
}
