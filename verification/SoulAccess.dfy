/** Who may save, read and delete a snapshot, said about uploads and rows rather than about the checks. */
module SoulAccess {
  import opened Prelude
  import opened SoulStore
  import opened SoulRuns

  // ---------------------------------------------------------------- rows

  /** A live row with this id. */
  ghost predicate LiveAt(rows: Rows, i: int, id: string) {
    0 <= i < |rows| && rows[i].id == id && rows[i].meta.Some?
  }

  /** Private snapshots are their owner's and the named readers'; workspace snapshots are everybody's. */
  ghost predicate Shared(row: Row, actor: string) {
    row.meta.Some? && (actor == row.owner || row.meta.value.workspace || actor in row.meta.value.readers)
  }

  ghost predicate ReadableAt(rows: Rows, i: int, id: string, actor: string) {
    LiveAt(rows, i, id) && Shared(rows[i], actor)
  }

  /** An upload may name as its parent a snapshot that the caller can read and owns, or one of the old lineage. */
  ghost predicate ParentAt(rows: Rows, i: int, id: string, actor: string) {
    ReadableAt(rows, i, id, actor) && (rows[i].owner == actor || rows[i].owner == "legacy")
  }

  lemma FoundAt(rows: Rows, id: string, i: int)
    requires UniqueIds(rows) && 0 <= i < |rows| && rows[i].id == id
    ensures Find(rows, id) == Some(i)
  {
  }

  lemma ParentExactly(rows: Rows, id: string, actor: string)
    requires UniqueIds(rows)
    ensures ParentError(rows, id, actor).None? <==> exists i :: ParentAt(rows, i, id, actor)
    ensures ParentError(rows, id, actor) == Some(Forbidden) <==>
            (exists i :: ReadableAt(rows, i, id, actor)) && !exists i :: ParentAt(rows, i, id, actor)
  {
    var found := Find(rows, id);
    if i :| 0 <= i < |rows| && rows[i].id == id {
      FoundAt(rows, id, i);
      assert forall j :: ReadableAt(rows, j, id, actor) ==> j == i;
      assert ParentAt(rows, i, id, actor) || !ParentAt(rows, i, id, actor);
      assert ReadableAt(rows, i, id, actor) || !ReadableAt(rows, i, id, actor);
    }
  }

  // ---------------------------------------------------------------- saving

  ghost predicate FitsQuota(limits: Limits, rows: Rows, actor: string, u: Upload) {
    && |LiveRows(rows, actor)| + 1 <= limits.maxCount
    && |Holdings(rows, actor)| + |Joined(u.contents)| <= limits.maxBytes
  }

  ghost predicate ParentOk(rows: Rows, actor: string, u: Upload) {
    u.parent.Some? ==> exists i :: ParentAt(rows, i, u.parent.value, actor)
  }

  ghost predicate Acceptable(limits: Limits, rows: Rows, actor: string, u: Upload) {
    && ParentOk(rows, actor, u)
    && (u.findings ==> u.allowSecrets)
    && (actor == "legacy" || FitsQuota(limits, rows, actor, u))
  }

  /** Why an upload is refused: its parent comes first, then secrets, then the quota. */
  lemma AcceptableExactly(tar: Tar, limits: Limits, rows: Rows, actor: string, u: Upload)
    requires RowsKept(tar, rows)
    ensures var e := SaveError(limits, rows, actor, u);
            && (e.None? <==> Acceptable(limits, rows, actor, u))
            && (e == Some(QuotaExceeded) <==>
                  ParentOk(rows, actor, u) && (u.findings ==> u.allowSecrets) && !Acceptable(limits, rows, actor, u))
            && (e == Some(SecretsDetected) <==> ParentOk(rows, actor, u) && u.findings && !u.allowSecrets)
            && (e == Some(Forbidden) <==>
                  !ParentOk(rows, actor, u) && exists i :: ReadableAt(rows, i, u.parent.value, actor))
            && e in [None, Some(QuotaExceeded), Some(SecretsDetected), Some(Forbidden), Some(NotFound)]
  {
    if u.parent.Some? { ParentExactly(rows, u.parent.value, actor); }
    CountIsLive(rows, actor);
    TotalIsHeld(tar, rows, actor);
    SizeIsJoined(u.contents);
    ParentErrors(rows, actor, u);
    hide ParentError, ParentAt, ReadableAt, LiveRows, Holdings, Joined, Count, Total, Size;
  }

  lemma ParentErrors(rows: Rows, actor: string, u: Upload)
    ensures u.parent.Some? ==> ParentError(rows, u.parent.value, actor) in [None, Some(NotFound), Some(Forbidden)]
  {
  }

  /** The entry list names the uploaded files in order, with their sizes and hashes. */
  ghost predicate Lists(entries: seq<Entry>, contents: Contents) {
    |entries| == |contents| && forall i :: 0 <= i < |contents| ==>
      entries[i].path == contents[i].0 && entries[i].size == |contents[i].1| && entries[i].digest == Sha256(contents[i].1)
  }

  /** The row of an upload: its owner and next version, its readers and parent as sent, its files and their archive. */
  ghost predicate Describes(tar: Tar, rows: Rows, row: Row, id: string, actor: string, u: Upload) {
    && row.id == id && row.owner == actor && row.name == u.name && row.version == Lineage(rows, actor, u.name) + 1
    && row.meta.Some?
    && var m := row.meta.value;
       && m.workspace == u.workspace && m.readers == u.readers && m.parent == u.parent
       && m.size == |Joined(u.contents)| && Lists(m.entries, u.contents) && m.archive == Sha256(tar(u.contents))
  }

  lemma NewRowDescribes(tar: Tar, rows: Rows, id: string, actor: string, u: Upload)
    requires Dense(rows)
    ensures Describes(tar, rows, NewRow(tar, rows, id, actor, u), id, actor, u)
  {
    MaxIsLineage(rows, actor, u.name);
    SizeIsJoined(u.contents);
    hide Lineage, MaxVersion, Size, Joined;
  }

  /** A save succeeds exactly for an acceptable upload under a new id while storage works, and adds the row of the upload. */
  lemma SaveExactly(tar: Tar, s: State, id: string, actor: string, u: Upload, fault: Option<nat>)
    requires Inv(tar, s) && s.process.Some?
    ensures var (s', r) := Save(tar, s, id, actor, u, fault);
            && (r.Ok? <==> && Acceptable(s.process.value, s.rows, actor, u)
                           && (fault.Some? ==> fault.value > |u.contents|)
                           && (forall i :: 0 <= i < |s.rows| ==> s.rows[i].id != id))
            && (r.Ok? ==> s'.rows == s.rows + [r.value] && Describes(tar, s.rows, r.value, id, actor, u))
            && (r.Err? ==> s' == s)
  {
    AcceptableExactly(tar, s.process.value, s.rows, actor, u);
    NewRowDescribes(tar, s.rows, id, actor, u);
    hide Inv, SaveError, Acceptable, NewRow, Describes, PutAll, Swept, NewRefs;
    if Save(tar, s, id, actor, u, fault).1.Err? { FailedSaveChangesNothing(tar, s, id, actor, u, fault); }
  }

  // ---------------------------------------------------------------- reading

  /** The upload admits a reader. */
  ghost predicate Admits(u: Upload, actor: string, reader: string) {
    reader == actor || u.workspace || reader in u.readers
  }

  /** Who gets an archive, on the rows. */
  lemma ArchiveExactly(tar: Tar, s: State, id: string, actor: string)
    requires Inv(tar, s)
    ensures var r := Archive(tar, s, id, actor);
            && (r.Ok? <==> exists i :: ReadableAt(s.rows, i, id, actor))
            && (forall i :: ReadableAt(s.rows, i, id, actor) ==> r == Ok(tar(Members(s.rows[i].meta.value.entries))))
            && (r.Err? ==> r.error == NotFound)
  {
    var r := Archive(tar, s, id, actor);
    forall i | ReadableAt(s.rows, i, id, actor) ensures r == Ok(tar(Members(s.rows[i].meta.value.entries))) {
      ArchiveReads(tar, s, i, actor);
    }
    hide RowRefs, Honest, ReadBack;
    var found := Find(s.rows, id);
    if r != Err(NotFound) { assert ReadableAt(s.rows, found.value, id, actor); }
  }

  ghost predicate Intact(files: Files, d: Digest) {
    Blob(d) in files && files[Blob(d)] == d.content
  }

  /** Whatever the directory holds: the entries read back as what was hashed exactly if every blob is intact. */
  lemma {:induction false} ReadBackExactly(files: Files, entries: seq<Entry>)
    ensures var r := ReadBack(files, entries);
            && (r.Ok? <==> forall i :: 0 <= i < |entries| ==> Intact(files, entries[i].digest))
            && (r.Ok? ==> r.value == Members(entries))
            && (r == Err(Corrupt) ==> exists i :: 0 <= i < |entries| && Blob(entries[i].digest) in files &&
                                                  !Intact(files, entries[i].digest))
            && (r == Err(StorageFailed) ==> exists i :: 0 <= i < |entries| && Blob(entries[i].digest) !in files)
  {
    if entries == [] {
      assert Members(entries) == [];
    } else {
      var rest, last := entries[..|entries| - 1], entries[|entries| - 1];
      ReadBackExactly(files, rest);
      assert Members(entries) == Members(rest) + [(last.path, last.digest.content)];
      assert forall i :: 0 <= i < |rest| ==> rest[i] == entries[i];
    }
  }

  /** Damaged blobs are never served: on any files at all, an archive is that of the hashed bytes of a row the caller may read. */
  lemma DamageIsSeen(tar: Tar, s: State, id: string, actor: string)
    ensures var r := Archive(tar, s, id, actor);
            r.Ok? ==> exists i :: ReadableAt(s.rows, i, id, actor) && r.value == tar(Members(s.rows[i].meta.value.entries))
  {
    var found := Find(s.rows, id);
    if Archive(tar, s, id, actor).Ok? {
      ReadBackExactly(s.files, s.rows[found.value].meta.value.entries);
      assert ReadableAt(s.rows, found.value, id, actor);
    }
  }

  /**
   * Over any run: a saved snapshot that its owner does not delete is served, byte for byte, to exactly those
   * whom its upload admits; for everybody else it does not exist.
   */
  lemma ServedExactly(tar: Tar, before: seq<Step>, id: string, actor: string, u: Upload, fault: Option<nat>,
                      after: seq<Step>, reader: string)
    requires var s := Run(tar, EMPTY, before);
             s.process.Some? && Save(tar, s, id, actor, u, fault).1.Ok?
    requires forall k :: 0 <= k < |after| ==> !Deletes(after[k], id, actor)
    ensures var s' := Run(tar, Save(tar, Run(tar, EMPTY, before), id, actor, u, fault).0, after);
            Archive(tar, s', id, reader) == if Admits(u, actor, reader) then Ok(tar(u.contents)) else Err(NotFound)
  {
    var s := Run(tar, EMPTY, before);
    var saved := Save(tar, s, id, actor, u, fault).0;
    var s' := Run(tar, saved, after);
    EmptyInv(tar);
    RunKeeps(tar, EMPTY, before);
    SaveKeeps(tar, s, id, actor, u, fault);
    SaveExactly(tar, s, id, actor, u, fault);
    RunKeeps(tar, saved, after);
    hide Run, Save, Inv, Archive, Members, Joined, Lineage;
    UndeletedStays(tar, saved, after, |s.rows|);
    ListedMembers(s'.rows[|s.rows|].meta.value.entries, u.contents);
    ServedRow(tar, s', |s.rows|, reader);
  }

  lemma ListedMembers(entries: seq<Entry>, contents: Contents)
    requires Lists(entries, contents)
    ensures Members(entries) == contents
  {
  }

  lemma ServedRow(tar: Tar, s: State, i: nat, reader: string)
    requires Inv(tar, s) && i < |s.rows| && s.rows[i].meta.Some?
    ensures Archive(tar, s, s.rows[i].id, reader) ==
            if Shared(s.rows[i], reader) then Ok(tar(Members(s.rows[i].meta.value.entries))) else Err(NotFound)
  {
    ArchiveExactly(tar, s, s.rows[i].id, reader);
    hide Archive, Members;
    assert ReadableAt(s.rows, i, s.rows[i].id, reader) <==> Shared(s.rows[i], reader);
    assert UniqueIds(s.rows);
  }

  // ---------------------------------------------------------------- deleting

  /** A delete succeeds exactly for the owner, also a second time; others learn of the snapshot only if they can read it. */
  lemma DeleteExactly(tar: Tar, s: State, id: string, actor: string)
    requires Inv(tar, s)
    ensures var (s', e) := Delete(s, id, actor);
            && (e.None? <==> exists i :: 0 <= i < |s.rows| && s.rows[i].id == id && s.rows[i].owner == actor)
            && (e == Some(Forbidden) <==> exists i :: ReadableAt(s.rows, i, id, actor) && s.rows[i].owner != actor)
            && (e in [None, Some(Forbidden), Some(NotFound)])
            && (e.Some? ==> s' == s)
            && (e.None? ==> |s'.rows| == |s.rows| && forall i :: 0 <= i < |s.rows| ==>
                  s'.rows[i] == if s.rows[i].id == id then s.rows[i].(meta := None) else s.rows[i])
  {
    hide RowRefs, Honest, Held, Exact, Dense, Recorded;
    var found := Find(s.rows, id);
    if i :| 0 <= i < |s.rows| && s.rows[i].id == id {
      FoundAt(s.rows, id, i);
      assert forall j :: ReadableAt(s.rows, j, id, actor) ==> j == i;
      assert ReadableAt(s.rows, i, id, actor) || !ReadableAt(s.rows, i, id, actor);
    }
  }

  /** Over any run, nobody but the one who saved a snapshot can delete it. */
  lemma DeletedByOwner(tar: Tar, before: seq<Step>, id: string, actor: string, u: Upload, fault: Option<nat>,
                       after: seq<Step>, who: string)
    requires var s := Run(tar, EMPTY, before);
             s.process.Some? && Save(tar, s, id, actor, u, fault).1.Ok?
    ensures var s' := Run(tar, Save(tar, Run(tar, EMPTY, before), id, actor, u, fault).0, after);
            Delete(s', id, who).1.None? <==> who == actor
  {
    var s := Run(tar, EMPTY, before);
    var saved := Save(tar, s, id, actor, u, fault).0;
    var s' := Run(tar, saved, after);
    EmptyInv(tar);
    RunKeeps(tar, EMPTY, before);
    SaveKeeps(tar, s, id, actor, u, fault);
    SaveExactly(tar, s, id, actor, u, fault);
    RunKeeps(tar, saved, after);
    RunMoves(tar, saved, after);
    DeleteExactly(tar, s', id, who);
    Distinctness(tar, s');
    hide Run, Save, Inv, Delete;
    assert s'.rows[|s.rows|].id == id && s'.rows[|s.rows|].owner == actor;
  }

  lemma Distinctness(tar: Tar, s: State)
    requires Inv(tar, s)
    ensures UniqueIds(s.rows)
  {
  }
}
