/** The issue store: tables updated in place, each write proved against its transaction on values. */
module IssueStore {
  import opened Prelude
  import opened UnicodeText
  import opened IssueData
  import opened IssueGraph
  import opened IssueLinks
  import opened SearchIndex
  import opened IndexAgreement
  import opened IssueTracker
  import opened IssueRuns
  import opened LinkBatch
  import opened IssueMeaning

  lemma TableEdited(issues: Issues, node: int, deps: seq<int>)
    requires Closed(Deps(issues)) && forall d :: d in deps ==> d in issues
    ensures var table := if node in issues then Deps(issues)[node := deps] else Deps(issues);
            && Closed(table) && Edited(Blocking(Deps(issues)), table, node)
            && forall d :: d in deps ==> d in table
  {
  }

  /** `validate`: the table it walks already holds the new list of the edited issue. */
  method Validate(issues: Issues, node: int, issue: Issue, directory: set<string>) returns (e: Option<Error>)
    requires Closed(Deps(issues))
    ensures e == ValidateError(issues, node, issue, directory)
  {
    hide FieldsError, MissingError, Closed, Blocking, Clear, Deps;
    e := FieldsError(issue, directory);
    if e.Some? { return; }
    var deps := issue.blockedBy;
    if |deps| > 50 { return Some(InvalidField); }
    e := MissingError(issues.Keys, deps);
    if e.Some? { return; }
    MissingNone(issues.Keys, deps);
    DistinctBySize(deps);
    if |Elements(deps)| != |deps| { return Some(InvalidField); }
    TableEdited(issues, node, deps);
    var table := if node in issues then Deps(issues)[node := deps] else Deps(issues);
    var cycle := DependencyWalk(table, node, deps, Blocking(Deps(issues)));
    e := if cycle then Some(DependencyCycle) else None;
  }

  class Store {
    var issues: Issues
    var next: int
    var links: Links
    var activity: Activity
    const index: Index

    ghost function State(): Tracker
      reads this, index
    {
      Tracker(issues, next, links, activity, index.Contents())
    }

    ghost predicate Valid()
      reads this, index
    {
      index.Valid() && Inv(index.lower, State())
    }

    constructor (lower: Lower)
      ensures Valid() && fresh(index) && index.lower == lower && State() == EMPTY
    {
      issues, next, links, activity := map[], 1, [], [];
      index := new Index(lower);
      new;
      EmptyInv(lower);
    }

    // The checks of a create; they change nothing.
    method CreateRefusal(r: Request, c: Context) returns (e: Option<Error>)
      requires Valid()
      ensures e == CreateError(State(), r, c)
    {
      Sound(index.lower, State());
      hide Inv, ValidateError, ParentsError, Unready, Applied, Unique, Closed, WantedParents, NewIssue;
      if r.version.Some? { return Some(InvalidFields); }
      var wanted := WantedParents(r);
      if wanted.Err? { return Some(wanted.error); }
      var issue := Applied(NewIssue(c), r);
      e := Validate(issues, UNSAVED, issue, c.directory);
      if e.Some? { return; }
      var parents := Or(wanted.value, []);
      if parents != [] {
        e := CheckParents(issues.Keys, links, None, parents);
        if e.Some? { return; }
        if Limited(c, |parents|) { return Some(RateLimited); }
      }
      if Unready(issues, issue) { return Some(DependenciesUnresolved); }
    }

    /** `mutate`, action create. */
    method CreateIssue(r: Request, c: Context) returns (result: Result<int, Error>)
      requires Valid()
      modifies this, index
      ensures Valid()
      ensures (State(), result) == Create(index.lower, old(State()), r, c)
      ensures result.Ok? ==>
                && result.value == old(next) && result.value in issues && Takes(BlankIssue(c), r, issues[result.value])
                && ParentsOf(links, result.value) == Sent(Asked(r), []) && OnlyLinksOf(old(links), links, result.value, c)
      ensures result.Err? ==> State() == old(State())
    {
      CreateFacts(index.lower, State(), r, c);
      hide Takes, OnlyLinksOf, Asked, BlankIssue;
      CreateKeeps(index.lower, State(), r, c);
      var e := CreateRefusal(r, c);
      CreateOk(State(), r, c);
      hide Inv, CreateError, AfterCreate;
      if e.Some? { return Err(e.value); }
      result := Ok(next);
      InsertIssue(r, c);
    }

    method InsertIssue(r: Request, c: Context)
      requires index.Valid() && WantedParents(r).Ok?
      modifies this, index
      ensures index.Valid() && State() == AfterCreate(index.lower, old(State()), r, c)
    {
      hide Mirror, ContentsOf, OnFields, Rewritten, Recorded, Traces, Stored, Applied, WantedParents, NewIssue, Minus;
      var parents := Or(WantedParents(r).value, []);
      var stored := Stored(Applied(NewIssue(c), r), c);
      var written, added, removed := Write(links, next, [], parents, c.actor, c.now);
      MinusNothing(parents);
      links := written;
      issues := issues[next := stored];
      activity := activity + [Recorded(next, Created, r, c)] + Traces(added, Linked, next, c);
      index.OnFieldsWritten(next, None, stored, c.actor, c.now);
      next := next + 1;
    }

    // The checks of an update.
    method UpdateRefusal(id: int, r: Request, c: Context) returns (e: Option<Error>)
      requires Valid()
      ensures e == UpdateError(State(), id, r, c)
    {
      Sound(index.lower, State());
      hide Inv, ValidateError, ParentsError, Unready, Applied, Unique, Closed, WantedParents, ParentsOf, Minus;
      var wanted := WantedParents(r);
      if wanted.Err? { return Some(wanted.error); }
      if id !in issues { return Some(IssueNotFound); }
      if r.version.Some? && r.version.value != issues[id].version { return Some(VersionConflict); }
      var issue := Applied(issues[id], r);
      var had := ParentsOf(links, id);
      var want := Or(wanted.value, had);
      if want != had {
        e := CheckParents(issues.Keys, links, Some(id), want);
        if e.Some? { return; }
        if Limited(c, |Minus(want, had)|) { return Some(RateLimited); }
      }
      e := Validate(issues, id, issue, c.directory);
      if e.Some? { return; }
      if Unready(issues[id := issue], issue) { return Some(DependenciesUnresolved); }
    }

    /** `mutate`, action update. */
    method UpdateIssue(id: int, r: Request, c: Context) returns (result: Result<int, Error>)
      requires Valid()
      modifies this, index
      ensures Valid()
      ensures (State(), result) == Update(index.lower, old(State()), id, r, c)
      ensures result.Ok? ==>
                && id in old(issues) && id in issues && Takes(old(issues)[id], r, issues[id])
                && SameElements(ParentsOf(links, id), Sent(Asked(r), ParentsOf(old(links), id)))
                && OnlyLinksOf(old(links), links, id, c)
      ensures result.Err? ==> State() == old(State())
    {
      UpdateFacts(index.lower, State(), id, r, c);
      hide Takes, OnlyLinksOf, Asked, SameElements;
      UpdateKeeps(index.lower, State(), id, r, c);
      var e := UpdateRefusal(id, r, c);
      UpdateOk(State(), id, r, c);
      hide Inv, UpdateError, AfterUpdate;
      if e.Some? { return Err(e.value); }
      ReplaceIssue(id, r, c);
      return Ok(id);
    }

    method ReplaceIssue(id: int, r: Request, c: Context)
      requires index.Valid() && WantedParents(r).Ok? && id in issues
      modifies this, index
      ensures index.Valid() && State() == AfterUpdate(index.lower, old(State()), id, r, c)
    {
      hide Mirror, ContentsOf, OnFields, Rewritten, Recorded, Traces, Stored, Applied, ParentsOf, Minus, WantedParents;
      var before := issues[id];
      var had := ParentsOf(links, id);
      var want := Or(WantedParents(r).value, had);
      var stored := Stored(Applied(before, r), c);
      var written, added, removed := links, [], [];
      NothingNew(had);
      if want != had { written, added, removed := Write(links, id, had, want, c.actor, c.now); }
      links := written;
      issues := issues[id := stored];
      activity := activity + [Recorded(id, Updated, r, c)] + (Traces(added, Linked, id, c) + Traces(removed, Unlinked, id, c));
      index.OnFieldsWritten(id, Some(before), stored, c.actor, c.now);
    }

    /** `mutate`, action comment. */
    method CommentOn(id: int, comment: Comment, c: Context) returns (result: Result<int, Error>)
      requires Valid()
      modifies this, index
      ensures Valid()
      ensures (State(), result) == AddComment(index.lower, old(State()), id, comment, c)
    {
      CommentKeeps(index.lower, State(), id, comment, c);
      hide Inv, Mirror, ContentsOf, OnComment, Stored, TextOk, OneTrimmedLine;
      if id !in issues { return Err(IssueNotFound); }
      if !TextOk(comment.body, 8192, false) { return Err(InvalidField); }
      if comment.title.Some? {
        if !(TextOk(comment.title.value, COMMENT_TITLE_BYTES, false) && OneTrimmedLine(comment.title.value)) {
          return Err(InvalidField);
        }
      }
      var stored := Stored(issues[id], c);
      var event := |activity| + 1;
      issues := issues[id := stored];
      activity := activity + [Event(id, Commented, c.actor, c.now, None, None, Some(comment), None, None)];
      index.OnCommentWritten(id, stored, event, comment, c.actor, c.now);
      return Ok(event);
    }

    /** `set_hidden`. */
    method Hide(id: int, event: Option<int>, conceal: bool, c: Context) returns (e: Option<Error>)
      requires Valid()
      modifies this
      ensures Valid()
      ensures (State(), e) == SetHidden(old(State()), id, event, conceal, c)
    {
      hide Inv, Stored, Mirror, ContentsOf, Trace;
      HideKeeps(index.lower, State(), id, event, conceal, c);
      if id !in issues { return Some(IssueNotFound); }
      var mark := if conceal then Some(Mark(c.actor, c.now)) else None;
      if event.None? {
        if issues[id].hidden.Some? != conceal {
          issues := issues[id := Stored(issues[id], c).(hidden := mark)];
          activity := activity + [Trace(id, if conceal then Hid else Restored, None, c)];
        }
        return None;
      }
      var i := event.value - 1;
      if !(0 <= i < |activity| && activity[i].issue == id) { return Some(EventNotFound); }
      if !activity[i].kind.Commented? { return Some(NotAComment); }
      if activity[i].hidden.Some? != conceal {
        activity := activity[i := activity[i].(hidden := mark)];
        activity := activity + [Trace(id, if conceal then Hid else Restored, event, c)];
      }
      return None;
    }

    method BatchRefusal(parent: int, add: seq<int>, remove: seq<int>, c: Context) returns (e: Option<Error>)
      ensures e == BatchError(State(), parent, add, remove, c)
    {
      if |add| > MAX_CHILDREN || |remove| > MAX_CHILDREN { return Some(InvalidField); }
      var low := (exists x :: x in add && x < 1) || (exists x :: x in remove && x < 1);
      if low { return Some(InvalidField); }
      if add == [] && remove == [] { return Some(InvalidField); }
      if parent !in issues { return Some(IssueNotFound); }
      if Limited(c, |Dedupe(add)|) { return Some(RateLimited); }
      return None;
    }

    /** `link_children`: the loops work on copies; nothing is stored unless the whole batch passes. */
    method Relate(parent: int, add: seq<int>, remove: seq<int>, c: Context) returns (e: Option<Error>)
      requires Valid()
      modifies this
      ensures Valid()
      ensures (State(), e) == LinkChildren(old(State()), parent, add, remove, c)
      ensures e.None? <==> Acceptable(old(State()), parent, add, remove, c)
      ensures e.None? ==> Regrouped(old(links), links, parent, add, remove)
      ensures e.Some? ==> State() == old(State())
    {
      hide Acceptable, Regrouped, Inv, LinkAll, UnlinkAll, Dedupe, BatchError, LinkChildren, Mirror, ContentsOf;
      ghost var t := State();
      BatchFacts(index.lower, t, parent, add, remove, c);
      BatchKeeps(index.lower, t, parent, add, remove, c);
      e := BatchRefusal(parent, add, remove, c);
      BatchOk(t, parent, add, remove, c);
      BatchIs(t, parent, add, remove, c);
      if e.Some? { return; }
      var adds, removes := Dedupe(add), Dedupe(remove);
      var linkedRows, linkedEvents;
      linkedRows, linkedEvents, e := AddAll(parent, adds, c);
      if e.Some? { return; }
      var rows, events;
      rows, events, e := RemoveAll(linkedRows, linkedEvents, parent, removes, c, t.(links := linkedRows, activity := linkedEvents));
      if e.Some? { return; }
      links, activity := rows, events;
    }

    method AddOne(rows0: Links, events0: Activity, parent: int, child: int, c: Context, ghost t: Tracker)
      returns (rows: Links, events: Activity, refused: Option<Error>)
      requires t.issues == issues && t.links == rows0 && t.activity == events0 && Unique(rows0)
      ensures LinkOne(t, parent, child, c) ==
              if refused.Some? then Err(refused.value) else Ok(t.(links := rows, activity := events))
    {
      hide Rewritten, ParentsError, ParentsOf, Unique;
      rows, events, refused := rows0, events0, None;
      if child !in issues { return rows, events, Some(IssueNotFound); }
      var had := ParentsOf(rows, child);
      if parent in had { return; }
      refused := CheckParents(issues.Keys, rows, Some(child), had + [parent]);
      if refused.Some? { return; }
      var added, removed;
      rows, added, removed := Write(rows, child, had, had + [parent], c.actor, c.now);
      events := events + [Trace(parent, Linked, Some(child), c), Trace(child, Linked, Some(parent), c)];
    }

    method AddAll(parent: int, children: seq<int>, c: Context)
      returns (rows: Links, events: Activity, refused: Option<Error>)
      requires Valid() && parent in issues
      ensures LinkAll(State(), parent, children, c) ==
              if refused.Some? then Err(refused.value) else Ok(State().(links := rows, activity := events))
    {
      ghost var t := State();
      rows, events, refused := links, activity, None;
      var i := 0;
      LinkNone(t, parent, children, c);
      hide Inv, LinkOne, LinkAll;
      while i < |children|
        invariant 0 <= i <= |children|
        invariant LinkAll(t, parent, children[..i], c) == Ok(t.(links := rows, activity := events))
        invariant refused == None
      {
        ghost var now := t.(links := rows, activity := events);
        LinkAllKeeps(index.lower, t, parent, children[..i], c);
        Sound(index.lower, now);
        LinkAllSnoc(t, parent, children, i, c);
        rows, events, refused := AddOne(rows, events, parent, children[i], c, now);
        if refused.Some? {
          LinkAllFails(t, parent, children, i + 1, c);
          return;
        }
        i := i + 1;
      }
      assert children[..|children|] == children;
    }

    method RemoveOne(rows0: Links, events0: Activity, parent: int, child: int, c: Context, ghost t: Tracker)
      returns (rows: Links, events: Activity, refused: Option<Error>)
      requires t.issues == issues && t.links == rows0 && t.activity == events0
      ensures UnlinkOne(t, parent, child, c) ==
              if refused.Some? then Err(refused.value) else Ok(t.(links := rows, activity := events))
    {
      hide Rewritten, ParentsOf;
      rows, events, refused := rows0, events0, None;
      if child !in issues { return rows, events, Some(IssueNotFound); }
      var had := ParentsOf(rows, child);
      if parent !in had { return; }
      var added, removed;
      rows, added, removed := Write(rows, child, had, Minus(had, [parent]), c.actor, c.now);
      events := events + [Trace(parent, Unlinked, Some(child), c), Trace(child, Unlinked, Some(parent), c)];
    }

    method RemoveAll(rows0: Links, events0: Activity, parent: int, children: seq<int>, c: Context, ghost t: Tracker)
      returns (rows: Links, events: Activity, refused: Option<Error>)
      requires t.issues == issues && t.links == rows0 && t.activity == events0
      ensures UnlinkAll(t, parent, children, c) ==
              if refused.Some? then Err(refused.value) else Ok(t.(links := rows, activity := events))
    {
      rows, events, refused := rows0, events0, None;
      var i := 0;
      UnlinkNone(t, parent, children, c);
      hide UnlinkOne, UnlinkAll;
      while i < |children|
        invariant 0 <= i <= |children|
        invariant UnlinkAll(t, parent, children[..i], c) == Ok(t.(links := rows, activity := events))
        invariant refused == None
      {
        UnlinkAllSnoc(t, parent, children, i, c);
        rows, events, refused :=
          RemoveOne(rows, events, parent, children[i], c, t.(links := rows, activity := events));
        if refused.Some? {
          UnlinkAllFails(t, parent, children, i + 1, c);
          return;
        }
        i := i + 1;
      }
      assert children[..|children|] == children;
    }

    /** `rebuild_if_needed`: at any time, skipped, done or given up, it changes no document. */
    method Reindex(marked: bool, late: set<int>) returns (ready: bool)
      requires Valid()
      modifies index
      ensures Valid() && State() == old(State())
      ensures ready <==> marked || forall id :: id in late ==> id !in issues
    {
      ghost var before := index.Contents();
      Sound(index.lower, State());
      hide Agrees, Mirror, ContentsOf, LinksKept, BlocksKept, Explains;
      ready := Rebuild(index, marked, issues, activity, next, late);
      if ready && !marked { AgreementIsUnique(index.lower, before, index.Contents(), issues, activity); }
    }
  }

  // The parts of the invariant that the checks rely on.
  lemma Sound(lower: Lower, t: Tracker)
    requires Inv(lower, t)
    ensures Unique(t.links) && Closed(Deps(t.issues)) && Numbered(t) && TextKept(lower, t)
  {
  }

  /** The children added are under the parent and those removed are not; all others are where they were. */
  ghost predicate Regrouped(a: Links, b: Links, parent: int, add: seq<int>, remove: seq<int>) {
    && (forall x, y :: (x, y) in Edges(b) <==>
          ((x, y) in Edges(a) || (x == parent && y in add)) && !(x == parent && y in remove))
    && (forall x :: x !in add && x !in remove ==> ParentsOf(b, x) == ParentsOf(a, x))
  }

  lemma BatchFacts(lower: Lower, t: Tracker, parent: int, add: seq<int>, remove: seq<int>, c: Context)
    requires Inv(lower, t)
    ensures var (t', e) := LinkChildren(t, parent, add, remove, c);
            && (e.None? <==> Acceptable(t, parent, add, remove, c)) && (e.Some? ==> t' == t)
            && (e.None? ==> Regrouped(t.links, t'.links, parent, add, remove))
  {
    hide Inv, LinkChildren, Acceptable, Edges, ParentsOf, Noted, Stamped;
    BatchExactly(lower, t, parent, add, remove, c);
    if LinkChildren(t, parent, add, remove, c).1.None? { var _, _ := BatchMeans(lower, t, parent, add, remove, c); }
  }

  lemma CreateFacts(lower: Lower, t: Tracker, r: Request, c: Context)
    requires Inv(lower, t)
    ensures var (t', result) := Create(lower, t, r, c);
            && (result.Ok? ==>
                  && result.value == t.next && t.next in t'.issues && Takes(BlankIssue(c), r, t'.issues[t.next])
                  && ParentsOf(t'.links, t.next) == Sent(Asked(r), []) && OnlyLinksOf(t.links, t'.links, t.next, c))
            && (result.Err? ==> t' == t)
  {
    hide Inv, Create, Takes, BlankIssue, ParentsOf, Asked, OnlyLinksOf, Told;
    CreateFails(lower, t, r, c);
    if Create(lower, t, r, c).1.Ok? { CreateMeans(lower, t, r, c); }
  }

  lemma UpdateFacts(lower: Lower, t: Tracker, id: int, r: Request, c: Context)
    requires Inv(lower, t)
    ensures var (t', result) := Update(lower, t, id, r, c);
            && (result.Ok? ==>
                  && id in t.issues && id in t'.issues && Takes(t.issues[id], r, t'.issues[id])
                  && SameElements(ParentsOf(t'.links, id), Sent(Asked(r), ParentsOf(t.links, id)))
                  && OnlyLinksOf(t.links, t'.links, id, c))
            && (result.Err? ==> t' == t)
  {
    hide Inv, Update, Takes, SameElements, ParentsOf, Asked, OnlyLinksOf, Told;
    UpdateFails(lower, t, id, r, c);
    if Update(lower, t, id, r, c).1.Ok? { var _, _ := UpdateMeans(lower, t, id, r, c); }
  }

  lemma CreateOk(t: Tracker, r: Request, c: Context)
    ensures CreateError(t, r, c).None? ==> WantedParents(r).Ok?
  {
  }

  lemma UpdateOk(t: Tracker, id: int, r: Request, c: Context)
    ensures UpdateError(t, id, r, c).None? ==> WantedParents(r).Ok? && id in t.issues
  {
  }

  lemma BatchOk(t: Tracker, parent: int, add: seq<int>, remove: seq<int>, c: Context)
    ensures BatchError(t, parent, add, remove, c).None? ==> parent in t.issues
  {
  }

  lemma BatchIs(t: Tracker, parent: int, add: seq<int>, remove: seq<int>, c: Context)
    ensures BatchError(t, parent, add, remove, c).Some? ==>
              LinkChildren(t, parent, add, remove, c) == (t, BatchError(t, parent, add, remove, c))
    ensures BatchError(t, parent, add, remove, c).None? ==>
              var added := LinkAll(t, parent, Dedupe(add), c);
              LinkChildren(t, parent, add, remove, c) ==
              if added.Err? then (t, Some(added.error))
              else
                var done := UnlinkAll(added.value, parent, Dedupe(remove), c);
                if done.Err? then (t, Some(done.error)) else (done.value, None)
  {
  }

  lemma LinkNone(t: Tracker, parent: int, children: seq<int>, c: Context)
    ensures LinkAll(t, parent, children[..0], c) == Ok(t.(links := t.links, activity := t.activity))
  {
  }

  lemma UnlinkNone(t: Tracker, parent: int, children: seq<int>, c: Context)
    ensures UnlinkAll(t, parent, children[..0], c) == Ok(t.(links := t.links, activity := t.activity))
  {
  }

  lemma NothingNew(had: seq<int>)
    ensures Minus(had, had) == []
  {
    SomeElement(Minus(had, had));
  }

  lemma LinkAllSnoc(t: Tracker, parent: int, children: seq<int>, i: nat, c: Context)
    requires i < |children| && LinkAll(t, parent, children[..i], c).Ok?
    ensures LinkAll(t, parent, children[..i + 1], c) ==
            LinkOne(LinkAll(t, parent, children[..i], c).value, parent, children[i], c)
  {
    hide LinkOne;
    assert children[..i + 1][..i] == children[..i];
  }

  // A failing prefix fails the whole batch.
  lemma {:induction false} LinkAllFails(t: Tracker, parent: int, children: seq<int>, i: nat, c: Context)
    requires i <= |children| && LinkAll(t, parent, children[..i], c).Err?
    ensures LinkAll(t, parent, children, c) == LinkAll(t, parent, children[..i], c)
    decreases |children|
  {
    hide LinkOne;
    if i == |children| {
      assert children[..i] == children;
    } else {
      assert children[..|children| - 1][..i] == children[..i];
      LinkAllFails(t, parent, children[..|children| - 1], i, c);
    }
  }

  lemma UnlinkAllSnoc(t: Tracker, parent: int, children: seq<int>, i: nat, c: Context)
    requires i < |children| && UnlinkAll(t, parent, children[..i], c).Ok?
    ensures UnlinkAll(t, parent, children[..i + 1], c) ==
            UnlinkOne(UnlinkAll(t, parent, children[..i], c).value, parent, children[i], c)
  {
    hide UnlinkOne;
    assert children[..i + 1][..i] == children[..i];
  }

  lemma {:induction false} UnlinkAllFails(t: Tracker, parent: int, children: seq<int>, i: nat, c: Context)
    requires i <= |children| && UnlinkAll(t, parent, children[..i], c).Err?
    ensures UnlinkAll(t, parent, children, c) == UnlinkAll(t, parent, children[..i], c)
    decreases |children|
  {
    hide UnlinkOne;
    if i == |children| {
      assert children[..i] == children;
    } else {
      assert children[..|children| - 1][..i] == children[..i];
      UnlinkAllFails(t, parent, children[..|children| - 1], i, c);
    }
  }
}
