/** The policy store as it runs: one file, one state in memory, replaced together. */
module PolicyStore {
  import opened Prelude
  import opened PolicyDecision
  import opened PolicyHistory

  /** `_load`, with its loop over the stored revisions. */
  method ReadState(v: Vocabulary, file: Option<File>, now: int) returns (m: Option<Memory>)
    ensures m == Load(v, file, now)
  {
    hide Validate, ModeOk, Bundle;
    if file.None? { return Some(Initial(now)); }
    var f := file.value;
    var doc := Validate(v, f.current.document);
    if doc.Err? || !ModeOk(f.current.mode) || f.current.revision < 1 { return None; }
    var current := Item(f.current.revision, f.current.mode, Complete(doc.value), f.current.publishedAt, None);
    var history := if f.history.Some? then f.history.value else [current];
    if history == [] || |history| > MAX_HISTORY { return None; }
    var previous := 0;
    var i := 0;
    while i < |history|
      invariant 0 <= i <= |history| && previous == if i == 0 then 0 else history[i - 1].revision
      invariant forall k :: 0 <= k < i ==> Follows(v, history, k)
    {
      var item := history[i];
      if item.revision <= previous || Validate(v, item.document).Err? || !ModeOk(item.mode) {
        assert !Follows(v, history, i);
        return None;
      }
      previous := item.revision;
      i := i + 1;
    }
    if Bundle(history[|history| - 1]) != Bundle(current) { return None; }
    return Some(Memory(current, history));
  }

  class Store {
    const v: Vocabulary
    var file: Option<File>
    var state: Memory

    ghost function Now(): Sys
      reads this
    {
      Sys(file, Some(state))
    }

    ghost predicate Valid()
      reads this
    {
      Inv(v, Now(), state.current.revision - 1)
    }

    /** A process starting on whatever file earlier processes left. */
    constructor (v: Vocabulary, file: Option<File>, now: int, ghost commits: int)
      requires Sensible(v) && Inv(v, Sys(file, None), commits)
      ensures Valid() && this.v == v && this.file == file
      ensures Load(v, file, now) == Some(state) && state.current.revision == commits + 1
    {
      NextKeeps(v, Sys(file, None), Restart(now), commits);
      Starts(v, file, now, commits);
      hide Inv, Load;
      var m := ReadState(v, file, now);
      this.v, this.file, this.state := v, file, m.value;
    }

    // The checks of a publish, and the state it would lead to.
    method Prepare(expected: int, mode: string, d: Draft, now: int, from: Option<int>) returns (r: Result<Memory, Error>)
      ensures r == Publish(v, state, expected, mode, d, now, from)
    {
      hide Validate, ModeOk, Kept, Complete;
      if expected != state.current.revision { return Err(RevisionConflict); }
      if !ModeOk(mode) { return Err(InvalidMode); }
      var doc := Validate(v, d);
      if doc.Err? { return Err(doc.error); }
      var next := Item(state.current.revision + 1, mode, Complete(doc.value), now, from);
      return Ok(Memory(next, Kept(state.history + [next])));
    }

    /** `publish`; `fails` is a failure to write the file. */
    method PublishDocument(expected: int, mode: string, d: Draft, now: int, from: Option<int>, fails: bool)
      returns (r: Result<Memory, Error>)
      requires Valid()
      modifies this
      ensures Valid()
      ensures var spec := Publish(v, old(state), expected, mode, d, now, from);
              && r == (if spec.Ok? && fails then Err(WriteFailed) else spec)
              && Now() == Settle(old(Now()), spec, if fails then WriteFails else Written)
    {
      PublishKeeps(v, Now(), expected, mode, d, now, from, if fails then WriteFails else Written);
      hide Inv, Publish;
      r := Prepare(expected, mode, d, now, from);
      if r.Err? { return; }
      if fails { return Err(WriteFailed); }
      file := Some(File(r.value.current, Some(r.value.history)));
      state := r.value;
    }

    /** `rollback`. */
    method RollbackTo(expected: int, revision: int, now: int, fails: bool) returns (r: Result<Memory, Error>)
      requires Valid()
      modifies this
      ensures Valid()
      ensures var spec := Rollback(v, old(state), expected, revision, now);
              && r == (if spec.Ok? && fails then Err(WriteFailed) else spec)
              && Now() == Settle(old(Now()), spec, if fails then WriteFails else Written)
      ensures r.Ok? ==> expected == old(state).current.revision && revision > expected - 100
    {
      RollbackRestores(v, state, expected, revision, now);
      hide Inv, Publish;
      var item := FindRevision(state.history, revision);
      if item.None? { return Err(RevisionNotFound); }
      r := PublishDocument(expected, item.value.mode, item.value.document, now, Some(revision), fails);
    }
  }

  lemma PublishKeeps(v: Vocabulary, s: Sys, expected: int, mode: string, d: Draft, now: int, from: Option<int>, fate: Fate)
    requires s.memory.Some? && Inv(v, s, s.memory.value.current.revision - 1) && (fate.Written? || fate.WriteFails?)
    ensures var s' := Settle(s, Publish(v, s.memory.value, expected, mode, d, now, from), fate);
            s'.memory.Some? && Inv(v, s', s'.memory.value.current.revision - 1)
  {
    hide Publish;
    var spec := Publish(v, s.memory.value, expected, mode, d, now, from);
    if spec.Ok? {
      PublishShape(v, s.memory.value, expected, mode, d, now, from);
      SettleKeeps(v, s, spec.value, fate, s.memory.value.current.revision - 1);
    }
    hide Inv;
  }

  lemma Starts(v: Vocabulary, file: Option<File>, now: int, commits: int)
    requires Sensible(v) && Inv(v, Sys(file, None), commits)
    ensures var m := Load(v, file, now); m.Some? && m.value.current.revision == commits + 1
  {
  }
}
