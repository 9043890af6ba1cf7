/** The snapshot store as it runs: a directory and two tables, changed step by step. */
module SoulStoreImpl {
  import opened Prelude
  import opened SoulStore
  import opened SoulRuns
  import opened SoulAccess

  /** A name that no file has, as the temporary-file call promises. */
  method FreshScratch(files: Files) returns (n: nat)
    ensures Scratch(n) !in files
  {
    n := 0;
    ghost var tried: set<FileName> := {};
    while Scratch(n) in files
      invariant tried <= files.Keys && forall f :: f in tried ==> f.Scratch? && f.n < n
      decreases files.Keys - tried
    {
      tried := tried + {Scratch(n)};
      n := n + 1;
    }
  }

  class Store {
    var files: Files
    var rows: Rows
    var refs: Refs
    const tar: Tar
    const limits: Limits

    function Now(): State
      reads this
    {
      State(files, rows, refs, Some(limits))
    }

    ghost predicate Valid()
      reads this
    {
      Inv(tar, Now())
    }

    /** Opening on what an earlier process left, however it ended: the sweep makes the directory exact again. */
    constructor (tar: Tar, limits: Limits, left: State)
      requires Inv(tar, left) && limits.Positive()
      ensures Valid() && this.tar == tar && this.limits == limits
      ensures Now() == Next(tar, left, Restart(limits))
    {
      this.tar, this.limits := tar, limits;
      files, rows, refs := left.files, left.rows, left.refs;
      new;
      NextKeeps(tar, left, Restart(limits));
      hide Inv;
      Gc();
    }

    /** `_put_blob`: written under a scratch name and then renamed, unless the blob is there already. */
    method WriteBlob(data: Bytes) returns (digest: Digest)
      modifies `files
      ensures files == PutBlob(old(files), data) && digest == Sha256(data)
    {
      digest := Sha256(data);
      if Blob(digest) !in files {
        var n := FreshScratch(files);
        files := files[Scratch(n) := data];
        files := (files - {Scratch(n)})[Blob(digest) := data];
      }
    }

    /** `_gc`: one pass over the directory. */
    method Gc()
      modifies `files
      ensures files == Swept(old(files), refs)
    {
      var needed := Referenced(refs);
      ghost var all := files;
      var pending := files.Keys;
      while pending != {}
        invariant pending <= files.Keys <= all.Keys
        invariant forall n :: n in all && n !in files ==> !Needed(n, refs)
        invariant forall n :: n in files ==> files[n] == all[n] && (n in pending || Needed(n, refs))
        decreases pending
      {
        var n :| n in pending;
        pending := pending - {n};
        if !(n.Blob? && n.digest in needed) { files := files - {n}; }
      }
      assert files == Swept(all, refs);
    }

    /** `_archive_bytes`: read every blob back and check its hash. */
    method ArchiveBytes(entries: seq<Entry>) returns (r: Result<Bytes, Error>)
      ensures r == (var read := ReadBack(files, entries); if read.Err? then Err(read.error) else Ok(tar(read.value)))
    {
      var members: Contents := [];
      var i := 0;
      assert entries[..0] == [];
      while i < |entries|
        invariant 0 <= i <= |entries| && ReadBack(files, entries[..i]) == Ok(members)
      {
        var e := entries[i];
        assert entries[..i + 1][..i] == entries[..i];
        if Blob(e.digest) !in files {
          ReadBackFails(files, entries, i + 1);
          return Err(StorageFailed);
        }
        var data := files[Blob(e.digest)];
        if Sha256(data) != e.digest {
          ReadBackFails(files, entries, i + 1);
          return Err(Corrupt);
        }
        members := members + [(e.path, data)];
        i := i + 1;
      }
      assert entries[..|entries|] == entries;
      return Ok(tar(members));
    }

    /** The blobs of one upload; false if storage fails on the way. */
    method WriteBlobs(contents: Contents, fault: Option<nat>) returns (entries: seq<Entry>, ok: bool)
      modifies `files
      ensures ok <==> !(fault.Some? && fault.value <= |contents|)
      ensures ok ==> files == PutAll(old(files), contents) && entries == Entries(contents)
      ensures !ok ==> files == PutAll(old(files), contents[..fault.value])
    {
      entries := [];
      var i := 0;
      assert contents[..0] == [];
      hide PutBlob;
      while i < |contents|
        invariant 0 <= i <= |contents| && entries == Entries(contents[..i])
        invariant files == PutAll(old(files), contents[..i])
        invariant fault.Some? ==> i <= fault.value
      {
        if fault == Some(i) { return entries, false; }
        assert contents[..i + 1][..i] == contents[..i];
        var digest := WriteBlob(contents[i].1);
        entries := entries + [Entry(contents[i].0, |contents[i].1|, digest)];
        assert entries == Entries(contents[..i + 1]);
        i := i + 1;
      }
      assert contents[..|contents|] == contents;
      ok := fault != Some(|contents|);
    }

    /** `save`. */
    method SaveUpload(id: string, actor: string, u: Upload, fault: Option<nat>) returns (r: Result<Row, Error>)
      requires Valid()
      modifies this
      ensures Valid()
      ensures (Now(), r) == Save(tar, old(Now()), id, actor, u, fault)
      ensures r.Ok? ==> Acceptable(limits, old(rows), actor, u) && rows == old(rows) + [r.value]
      ensures r.Ok? ==> Describes(tar, old(rows), r.value, id, actor, u)
      ensures r.Err? ==> Now() == old(Now())
    {
      hide Inv, Save, SaveError, PutAll, Entries, Swept, ReadBack, Size, MaxVersion, Digests, NewRefs, Find, Acceptable, Describes;
      ghost var s := Now();
      SaveFacts(tar, s, id, actor, u, fault);
      SaveExactly(tar, s, id, actor, u, fault);
      SaveCases(tar, s, id, actor, u, fault);
      var e := SaveError(limits, rows, actor, u);
      if e.Some? {
        Gc();
        return Err(e.value);
      }
      var size, version := Size(u.contents), MaxVersion(rows, actor, u.name) + 1;
      var entries, ok := WriteBlobs(u.contents, fault);
      if !ok {
        Gc();
        return Err(StorageFailed);
      }
      var raw := ArchiveBytes(entries);
      if Find(rows, id).Some? {
        Gc();
        return Err(IdTaken);
      }
      var row := Row(id, actor, u.name, version,
                     Some(Meta(u.workspace, u.readers, u.parent, size, entries, Sha256(raw.value))));
      rows := rows + [row];
      refs := refs + NewRefs(id, Digests(entries));
      Gc();
      return Ok(row);
    }

    /** `delete`. */
    method DeleteSnapshot(id: string, actor: string) returns (e: Option<Error>)
      requires Valid()
      modifies this
      ensures Valid()
      ensures (Now(), e) == Delete(old(Now()), id, actor)
      ensures e.None? <==> exists i :: 0 <= i < |old(rows)| && old(rows)[i].id == id && old(rows)[i].owner == actor
    {
      NextKeeps(tar, Now(), DeleteStep(id, actor));
      DeletableExactly(tar, Now(), id, actor);
      hide Inv, Swept, Visible, RefsWithout;
      var i := Find(rows, id);
      if i.None? { return Some(NotFound); }
      var row := rows[i.value];
      if row.owner != actor {
        if row.meta.None? || !Visible(row, actor) {
          VisibleIsLive(row, actor);
          return Some(NotFound);
        }
        return Some(Forbidden);
      }
      rows := rows[i.value := row.(meta := None)];
      refs := RefsWithout(refs, id);
      Gc();
      return None;
    }

    /** `archive`: for everyone who may see a live snapshot, the bytes that were saved. */
    method ReadArchive(id: string, actor: string) returns (r: Result<Bytes, Error>)
      requires Valid()
      ensures r == Archive(tar, Now(), id, actor)
      ensures r.Ok? <==> exists i :: ReadableAt(rows, i, id, actor)
      ensures r.Ok? ==> exists i :: ReadableAt(rows, i, id, actor) && Sha256(r.value) == rows[i].meta.value.archive
      ensures r.Err? ==> r.error == NotFound
    {
      var i := Find(rows, id);
      ArchiveExactly(tar, Now(), id, actor);
      if i.None? || !Visible(rows[i.value], actor) { return Err(NotFound); }
      assert ReadableAt(rows, i.value, id, actor);
      ArchiveReads(tar, Now(), i.value, actor);
      r := ArchiveBytes(rows[i.value].meta.value.entries);
    }
  }

  /** Starting the store: quotas that are not positive are refused before anything is touched. */
  method OpenStore(tar: Tar, limits: Limits, left: State) returns (store: Store?)
    requires Inv(tar, left)
    ensures store != null <==> limits.Positive()
    ensures store != null ==> fresh(store) && store.Valid() && store.Now() == Next(tar, left, Restart(limits))
  {
    if !limits.Positive() { return null; }
    store := new Store(tar, limits, left);
  }

  lemma DeletableExactly(tar: Tar, s: State, id: string, actor: string)
    requires Inv(tar, s)
    ensures Delete(s, id, actor).1.None? <==> exists i :: 0 <= i < |s.rows| && s.rows[i].id == id && s.rows[i].owner == actor
  {
    hide Delete, Inv;
    DeleteExactly(tar, s, id, actor);
  }

  lemma VisibleIsLive(row: Row, actor: string)
    ensures Visible(row, actor) ==> row.meta.Some?
  {
  }

  lemma {:induction false} ReadBackFails(files: Files, entries: seq<Entry>, i: nat)
    requires i <= |entries| && ReadBack(files, entries[..i]).Err?
    ensures ReadBack(files, entries) == ReadBack(files, entries[..i])
    decreases |entries|
  {
    if i == |entries| {
      assert entries[..i] == entries;
    } else {
      assert entries[..|entries| - 1][..i] == entries[..i];
      ReadBackFails(files, entries[..|entries| - 1], i);
    }
  }

  // The four ways out of a save.
  lemma SaveCases(tar: Tar, s: State, id: string, actor: string, u: Upload, fault: Option<nat>)
    requires s.process.Some?
    ensures var e := SaveError(s.process.value, s.rows, actor, u);
            var put := PutAll(s.files, u.contents);
            var row := NewRow(tar, s.rows, id, actor, u);
            var refs := s.refs + NewRefs(id, Digests(Entries(u.contents)));
            Save(tar, s, id, actor, u, fault) ==
            if e.Some? then (s.(files := Swept(s.files, s.refs)), Err(e.value))
            else if fault.Some? && fault.value <= |u.contents| then
              (s.(files := Swept(PutAll(s.files, u.contents[..fault.value]), s.refs)), Err(StorageFailed))
            else if Find(s.rows, id).Some? then (s.(files := Swept(put, s.refs)), Err(IdTaken))
            else (State(Swept(put, refs), s.rows + [row], refs, s.process), Ok(row))
  {
    hide SaveError, PutAll, Entries, Swept, Size, MaxVersion, Digests, NewRefs, Find;
  }

  lemma SaveFacts(tar: Tar, s: State, id: string, actor: string, u: Upload, fault: Option<nat>)
    requires Inv(tar, s) && s.process.Some?
    ensures Inv(tar, Save(tar, s, id, actor, u, fault).0)
    ensures ReadBack(PutAll(s.files, u.contents), Entries(u.contents)) == Ok(u.contents)
  {
    hide Save, PutAll, Entries, ReadBack;
    SaveKeeps(tar, s, id, actor, u, fault);
    SavedReads(s, u);
  }

  // What has just been written reads back as it was sent.
  lemma SavedReads(s: State, u: Upload)
    requires Honest(s.files)
    ensures ReadBack(PutAll(s.files, u.contents), Entries(u.contents)) == Ok(u.contents)
  {
    var files := PutAll(s.files, u.contents);
    PutAllKeeps(s.files, u.contents);
    forall e | e in Entries(u.contents) ensures Blob(e.digest) in files {
      var i :| 0 <= i < |u.contents| && Entries(u.contents)[i] == e;
      assert u.contents[i] in u.contents;
    }
    ReadsBack(files, Entries(u.contents));
    MembersOfEntries(u.contents);
  }
}
