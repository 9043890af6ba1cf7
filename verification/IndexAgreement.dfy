/** The incrementally kept index agrees with a rebuild, write by write; and the rebuild itself. */
module IndexAgreement {
  import opened Prelude
  import opened UnicodeText
  import opened IssueData
  import opened SearchIndex

  // ---------------------------------------------------------------- what the activity explains

  ghost predicate Known(issues: Issues, events: Activity) {
    forall i :: 0 <= i < |events| ==> events[i].issue in issues
  }

  /** Replaying the activity ends in the stored title and description. */
  ghost predicate ExplainsIssue(events: Activity, id: int, issue: Issue) {
    && Replay(events, id, TitleDoc).current == Some(issue.title)
    && (|| Replay(events, id, DescriptionDoc).current == Some(issue.description)
        || (Replay(events, id, DescriptionDoc) == Written(None, None) && issue.description == ""))
  }

  ghost predicate Explains(issues: Issues, events: Activity) {
    Known(issues, events) && forall id :: id in issues ==> ExplainsIssue(events, id, issues[id])
  }

  lemma ReplayAppend(events: Activity, e: Event, id: int, kind: DocKind)
    ensures Replay(events + [e], id, kind) == WriteStep(Replay(events, id, kind), e, id, kind)
  {
  }

  lemma {:induction false} ReplayUnknown(events: Activity, id: int, kind: DocKind)
    requires forall i :: 0 <= i < |events| ==> events[i].issue != id
    ensures Replay(events, id, kind) == Written(None, None)
  {
    if events != [] { ReplayUnknown(events[..|events| - 1], id, kind); }
  }

  // ---------------------------------------------------------------- documents after a write

  function Refiltered(doc: Option<Doc>, filters: Filters): Option<Doc> {
    if doc.Some? then Some(doc.value.(filters := filters)) else None
  }

  lemma OnFieldsAt(lower: Lower, docs: Docs, id: int, before: Option<Issue>, issue: Issue, actor: string, now: int, key: Key)
    ensures At(OnFields(lower, docs, id, before, issue, actor, now), key) ==
            if key.issue != id then At(docs, key)
            else if key.event == 0 && !key.kind.CommentDoc? &&
                    !(before.Some? && Field(before.value, key.kind) == Field(issue, key.kind))
            then MakeDoc(actor, now, Field(issue, key.kind), FiltersOf(lower, issue))
            else Refiltered(At(docs, key), FiltersOf(lower, issue))
  {
  }

  lemma OnCommentAt(lower: Lower, docs: Docs, id: int, issue: Issue, eventId: nat, c: Comment, actor: string, now: int, key: Key)
    ensures At(OnComment(lower, docs, id, issue, eventId, c, actor, now), key) ==
            if key.issue != id then At(docs, key)
            else if key == Key(id, CommentDoc, eventId)
            then MakeDoc(actor, now, CommentText(c), FiltersOf(lower, issue))
            else Refiltered(At(docs, key), FiltersOf(lower, issue))
  {
  }

  // What an event with no say over text or comments leaves alone.
  lemma DocAtOther(lower: Lower, issues: Issues, events: Activity, e: Event, key: Key)
    requires e.issue != key.issue || (e.kind != Commented && Change(e, TitleDoc).None? && Change(e, DescriptionDoc).None?)
    ensures DocAt(lower, issues, events + [e], key) == DocAt(lower, issues, events, key)
  {
  }

  // ---------------------------------------------------------------- create and update

  /** What a create or update event says about the issue it left behind. */
  ghost predicate Describes(e: Event, before: Option<Issue>, issue: Issue) {
    && (e.title.Some? ==> e.title.value == issue.title)
    && (e.title.None? ==> before.Some? && before.value.title == issue.title)
    && (e.description.Some? ==> e.description.value == issue.description)
    && (e.description.None? ==> issue.description == if before.Some? then before.value.description else "")
    && (if before.Some? then e.kind.Updated? && issue.createdAt == before.value.createdAt else e.kind.Created?)
  }

  // The state before the write, for the issue that is written.
  ghost predicate Before(issues: Issues, events: Activity, id: int, before: Option<Issue>) {
    && Known(issues, events)
    && (before.Some? ==> id in issues && issues[id] == before.value && ExplainsIssue(events, id, before.value))
    && (before.None? ==> id !in issues)
  }

  lemma ReplayWritten(issues: Issues, events: Activity, id: int, before: Option<Issue>, issue: Issue, e: Event, kind: DocKind)
    requires Before(issues, events, id, before) && Describes(e, before, issue) && e.issue == id && !kind.CommentDoc?
    ensures var w := Replay(events + [e], id, kind);
            && (w.current == Some(Field(issue, kind)) || (w == Written(None, None) && Field(issue, kind) == "" && kind.DescriptionDoc?))
            && (!Blank(Field(issue, kind)) ==>
                  if before.Some? && Field(before.value, kind) == Field(issue, kind)
                  then w == Replay(events, id, kind)
                  else w.writer == Some((e.actor, e.at)))
  {
    ReplayAppend(events, e, id, kind);
    if before.None? { ReplayUnknown(events, id, kind); }
  }

  lemma WrittenDocAt(lower: Lower, docs: Docs, issues: Issues, events: Activity, id: int, before: Option<Issue>,
                     issue: Issue, e: Event, key: Key)
    requires Before(issues, events, id, before) && Describes(e, before, issue) && e.issue == id && key.issue == id
    requires At(docs, key) == DocAt(lower, issues, events, key)
    ensures At(OnFields(lower, docs, id, before, issue, e.actor, e.at), key) ==
            DocAt(lower, issues[id := issue], events + [e], key)
  {
    hide OnFields, FiltersOf, Blank, Replay, CommentText;
    OnFieldsAt(lower, docs, id, before, issue, e.actor, e.at, key);
    if key.kind.CommentDoc? {
      if 1 <= key.event <= |events| {
        assert (events + [e])[key.event - 1] == events[key.event - 1];
      }
    } else if key.event == 0 {
      ReplayWritten(issues, events, id, before, issue, e, key.kind);
    }
  }

  /** A create or update leaves the index in agreement with a rebuild, and the text explained. */
  lemma WriteAgrees(lower: Lower, docs: Docs, issues: Issues, events: Activity, id: int, before: Option<Issue>,
                    issue: Issue, e: Event)
    requires Agrees(lower, docs, issues, events) && Explains(issues, events) && Before(issues, events, id, before)
    requires Describes(e, before, issue) && e.issue == id
    ensures Agrees(lower, OnFields(lower, docs, id, before, issue, e.actor, e.at), issues[id := issue], events + [e])
    ensures Explains(issues[id := issue], events + [e])
  {
    forall key ensures At(OnFields(lower, docs, id, before, issue, e.actor, e.at), key) ==
                       DocAt(lower, issues[id := issue], events + [e], key) {
      assert At(docs, key) == DocAt(lower, issues, events, key);
      if key.issue == id {
        WrittenDocAt(lower, docs, issues, events, id, before, issue, e, key);
      } else {
        OnFieldsAt(lower, docs, id, before, issue, e.actor, e.at, key);
        DocAtOther(lower, issues[id := issue], events, e, key);
        OtherIssueDoc(lower, issues, events, id, issue, key);
      }
    }
    ExplainsWritten(issues, events, id, before, issue, e);
  }

  lemma OtherIssueDoc(lower: Lower, issues: Issues, events: Activity, id: int, issue: Issue, key: Key)
    requires key.issue != id
    ensures DocAt(lower, issues[id := issue], events, key) == DocAt(lower, issues, events, key)
  {
  }

  lemma ExplainsWritten(issues: Issues, events: Activity, id: int, before: Option<Issue>, issue: Issue, e: Event)
    requires Explains(issues, events) && Before(issues, events, id, before)
    requires Describes(e, before, issue) && e.issue == id
    ensures Explains(issues[id := issue], events + [e])
  {
    ReplayWritten(issues, events, id, before, issue, e, TitleDoc);
    ReplayWritten(issues, events, id, before, issue, e, DescriptionDoc);
    forall other | other in issues && other != id ensures ExplainsIssue(events + [e], other, issues[other]) {
      ReplayAppend(events, e, other, TitleDoc);
      ReplayAppend(events, e, other, DescriptionDoc);
    }
  }

  // ---------------------------------------------------------------- comments, links, hiding

  // Nothing that the index shows has changed.
  ghost predicate SameText(a: Issue, b: Issue) {
    && b.title == a.title && b.description == a.description && b.status == a.status && b.assignee == a.assignee
    && b.labels == a.labels && b.createdAt == a.createdAt
  }

  ghost predicate Quiet(e: Event) {
    !e.kind.Created? && !e.kind.Updated? && !e.kind.Commented?
  }

  lemma SameTextDocAt(lower: Lower, issues: Issues, events: Activity, id: int, issue: Issue, key: Key)
    requires id in issues && SameText(issues[id], issue)
    ensures DocAt(lower, issues[id := issue], events, key) == DocAt(lower, issues, events, key)
  {
  }

  lemma FiltersKept(lower: Lower, issues: Issues, events: Activity, key: Key)
    requires key.issue in issues
    ensures Refiltered(DocAt(lower, issues, events, key), FiltersOf(lower, issues[key.issue])) ==
            DocAt(lower, issues, events, key)
  {
  }

  lemma ExplainsQuiet(issues: Issues, events: Activity, e: Event, id: int, issue: Issue)
    requires Explains(issues, events) && e.issue in issues && id in issues && SameText(issues[id], issue)
    requires Change(e, TitleDoc).None? && Change(e, DescriptionDoc).None?
    ensures Explains(issues[id := issue], events + [e])
  {
  }

  /** A run of such events. */
  lemma {:induction false} QuietRun(lower: Lower, docs: Docs, issues: Issues, events: Activity, more: Activity)
    requires Agrees(lower, docs, issues, events) && Explains(issues, events)
    requires forall i :: 0 <= i < |more| ==> Quiet(more[i]) && more[i].issue in issues
    ensures Agrees(lower, docs, issues, events + more) && Explains(issues, events + more)
  {
    hide Agrees, Explains;
    if more == [] {
      assert events + more == events;
    } else {
      var last := more[|more| - 1];
      var most := more[..|more| - 1];
      QuietRun(lower, docs, issues, events, most);
      QuietAgrees(lower, docs, issues, events + most, last, last.issue, issues[last.issue]);
      assert issues[last.issue := issues[last.issue]] == issues;
      assert events + more == events + most + [last];
    }
  }

  /** An event that concerns no text needs no index write. */
  lemma QuietAgrees(lower: Lower, docs: Docs, issues: Issues, events: Activity, e: Event, id: int, issue: Issue)
    requires Agrees(lower, docs, issues, events) && Explains(issues, events)
    requires Quiet(e) && e.issue in issues && id in issues && SameText(issues[id], issue)
    ensures Agrees(lower, docs, issues[id := issue], events + [e]) && Explains(issues[id := issue], events + [e])
  {
    hide DocAt, Explains;
    var issues' := issues[id := issue];
    forall key ensures At(docs, key) == DocAt(lower, issues', events + [e], key) {
      DocAtOther(lower, issues', events, e, key);
      SameTextDocAt(lower, issues, events, id, issue, key);
      assert At(docs, key) == DocAt(lower, issues, events, key);
    }
    ExplainsQuiet(issues, events, e, id, issue);
  }

  /** A comment is one document, keyed by its event. */
  lemma CommentAgrees(lower: Lower, docs: Docs, issues: Issues, events: Activity, e: Event, issue: Issue)
    requires Agrees(lower, docs, issues, events) && Explains(issues, events)
    requires e.kind.Commented? && e.comment.Some? && e.issue in issues && SameText(issues[e.issue], issue)
    ensures Agrees(lower, OnComment(lower, docs, e.issue, issue, |events| + 1, e.comment.value, e.actor, e.at),
                   issues[e.issue := issue], events + [e])
    ensures Explains(issues[e.issue := issue], events + [e])
  {
    var docs' := OnComment(lower, docs, e.issue, issue, |events| + 1, e.comment.value, e.actor, e.at);
    forall key ensures At(docs', key) == DocAt(lower, issues[e.issue := issue], events + [e], key) {
      CommentDocAt(lower, docs, issues, events, e, issue, key);
    }
    ExplainsQuiet(issues, events, e, e.issue, issue);
  }

  lemma CommentDocAt(lower: Lower, docs: Docs, issues: Issues, events: Activity, e: Event, issue: Issue, key: Key)
    requires At(docs, key) == DocAt(lower, issues, events, key)
    requires e.kind.Commented? && e.comment.Some? && e.issue in issues && SameText(issues[e.issue], issue)
    ensures At(OnComment(lower, docs, e.issue, issue, |events| + 1, e.comment.value, e.actor, e.at), key) ==
            DocAt(lower, issues[e.issue := issue], events + [e], key)
  {
    var issues' := issues[e.issue := issue];
    OnCommentAt(lower, docs, e.issue, issue, |events| + 1, e.comment.value, e.actor, e.at, key);
    hide OnComment, Blank, MakeDoc;
    SameTextDocAt(lower, issues, events, e.issue, issue, key);
    if key.issue != e.issue {
      DocAtOther(lower, issues', events, e, key);
    } else {
      FiltersKept(lower, issues', events, key);
      CommentLeavesOthers(lower, issues', events, e, key);
    }
  }

  lemma CommentLeavesOthers(lower: Lower, issues: Issues, events: Activity, e: Event, key: Key)
    requires e.kind.Commented? && e.comment.Some? && e.issue in issues && key.issue == e.issue
    ensures DocAt(lower, issues, events + [e], key) ==
            if key == Key(e.issue, CommentDoc, |events| + 1)
            then MakeDoc(e.actor, e.at, CommentText(e.comment.value), FiltersOf(lower, issues[e.issue]))
            else DocAt(lower, issues, events, key)
  {
    hide FiltersOf, MakeDoc, CommentText, Replay, Author;
    if key.kind.CommentDoc? {
      if 1 <= key.event <= |events| { assert (events + [e])[key.event - 1] == events[key.event - 1]; }
    } else {
      CommentWritesNothing(events, e, key.issue, key.kind);
    }
  }

  lemma CommentWritesNothing(events: Activity, e: Event, id: int, kind: DocKind)
    requires e.kind.Commented?
    ensures Replay(events + [e], id, kind) == Replay(events, id, kind)
  {
    hide Replay;
    ReplayAppend(events, e, id, kind);
  }

  lemma {:induction false} ReplayMarked(events: Activity, i: nat, mark: Option<Mark>, id: int, kind: DocKind)
    requires i < |events|
    ensures Replay(events[i := events[i].(hidden := mark)], id, kind) == Replay(events, id, kind)
    decreases |events|
  {
    var marked := events[i := events[i].(hidden := mark)];
    var before := events[..|events| - 1];
    if i < |events| - 1 {
      ReplayMarked(before, i, mark, id, kind);
      assert marked[..|events| - 1] == before[i := before[i].(hidden := mark)];
    } else {
      assert marked[..|events| - 1] == before;
    }
  }

  lemma MarkedDocAt(lower: Lower, issues: Issues, events: Activity, i: nat, mark: Option<Mark>, key: Key)
    requires i < |events|
    ensures DocAt(lower, issues, events[i := events[i].(hidden := mark)], key) == DocAt(lower, issues, events, key)
  {
    hide FiltersOf, MakeDoc;
    ReplayMarked(events, i, mark, key.issue, key.kind);
  }

  /** Hiding or restoring a comment changes no document. */
  lemma MarkAgrees(lower: Lower, docs: Docs, issues: Issues, events: Activity, i: nat, mark: Option<Mark>)
    requires Agrees(lower, docs, issues, events) && Explains(issues, events) && i < |events|
    ensures Agrees(lower, docs, issues, events[i := events[i].(hidden := mark)])
    ensures Explains(issues, events[i := events[i].(hidden := mark)])
  {
    var marked := events[i := events[i].(hidden := mark)];
    forall key ensures At(docs, key) == DocAt(lower, issues, marked, key) {
      MarkedDocAt(lower, issues, events, i, mark, key);
      assert At(docs, key) == DocAt(lower, issues, events, key);
    }
    hide DocAt;
    forall id | id in issues ensures ExplainsIssue(marked, id, issues[id]) {
      assert ExplainsIssue(events, id, issues[id]);
      ReplayMarked(events, i, mark, id, TitleDoc);
      ReplayMarked(events, i, mark, id, DescriptionDoc);
    }
  }

  lemma SameDocs(a: Docs, b: Docs)
    requires forall key :: At(a, key) == At(b, key)
    ensures a == b
  {
    forall key ensures key in a <==> key in b {
      assert At(a, key) == At(b, key);
    }
    forall key | key in a ensures a[key] == b[key] {
      assert At(a, key) == At(b, key);
    }
  }

  /** Two indexes that agree with the same rebuild hold the same documents. */
  lemma AgreementIsUnique(lower: Lower, a: Docs, b: Docs, issues: Issues, events: Activity)
    requires Agrees(lower, a, issues, events) && Agrees(lower, b, issues, events)
    ensures a == b
  {
    hide DocAt;
    forall key ensures At(a, key) == At(b, key) {
      assert At(a, key) == DocAt(lower, issues, events, key);
    }
    SameDocs(a, b);
  }

  // ---------------------------------------------------------------- the rebuild

  /** `writers`, for one field: two values updated by a loop over the events. */
  method Writers(events: Activity, id: int, issue: Issue, kind: DocKind) returns (author: string, at: int)
    ensures (author, at) == Author(Replay(events, id, kind), Field(issue, kind), issue.createdAt)
  {
    var current: Option<string>, writer: Option<(string, int)> := None, None;
    var i := 0;
    while i < |events|
      invariant 0 <= i <= |events|
      invariant Written(current, writer) == Replay(events[..i], id, kind)
    {
      assert events[..i + 1] == events[..i] + [events[i]];
      ReplayAppend(events[..i], events[i], id, kind);
      var change := Change(events[i], kind);
      if events[i].issue == id && change.Some? && change != current {
        current, writer := change, Some((events[i].actor, events[i].at));
      }
      i := i + 1;
    }
    assert events[..|events|] == events;
    if writer.Some? && current == Some(Field(issue, kind)) { return writer.value.0, writer.value.1; }
    return "", if writer.Some? then writer.value.1 else issue.createdAt;
  }

  // The index is complete for every key before `id`, and for the first `done` events of `id` itself.
  ghost predicate Partial(lower: Lower, docs: Docs, issues: Issues, events: Activity, id: int,
                          title: bool, description: bool, done: nat) {
    forall key: Key :: At(docs, key) ==
      if key.issue < id || (key.issue == id && (if key.kind.TitleDoc? then title else if key.kind.DescriptionDoc?
                                                then description else key.event <= done))
      then DocAt(lower, issues, events, key) else None
  }

  lemma PartialPut(lower: Lower, docs: Docs, issues: Issues, events: Activity, id: int, kind: DocKind)
    requires id in issues && !kind.CommentDoc?
    requires Partial(lower, docs, issues, events, id, kind.DescriptionDoc?, false, 0)
    ensures Partial(lower, PutDoc(docs, Key(id, kind, 0), DocAt(lower, issues, events, Key(id, kind, 0))),
                    issues, events, id, true, kind.DescriptionDoc?, 0)
  {
  }

  lemma PartialComment(lower: Lower, docs: Docs, issues: Issues, events: Activity, id: int, done: nat)
    requires id in issues && done < |events|
    requires Partial(lower, docs, issues, events, id, true, true, done)
    ensures Partial(lower, PutDoc(docs, Key(id, CommentDoc, done + 1), DocAt(lower, issues, events, Key(id, CommentDoc, done + 1))),
                    issues, events, id, true, true, done + 1)
  {
  }

  /**
   * `rebuild_if_needed`: nothing to do if the version marker is there, else derive every document again
   * from the issues and their activity. If the deadline is found to have passed after one of the issues
   * in `late`, the transaction is rolled back and the index stays unmarked.
   */
  method Rebuild(index: Index, marked: bool, issues: Issues, events: Activity, nextIssue: int, late: set<int>)
    returns (ready: bool)
    requires index.Valid() && nextIssue >= 1
    requires forall id :: id in issues <==> 1 <= id < nextIssue
    modifies index
    ensures index.Valid()
    ensures ready <==> marked || forall id :: id in late ==> id !in issues
    ensures if ready && !marked then Agrees(index.lower, index.Contents(), issues, events)
            else index.Contents() == old(index.Contents())
  {
    if marked { return true; }
    var docs, fts, nextRow := index.docs, index.fts, index.nextRow;
    ghost var owner := index.owner;
    index.docs, index.fts := map[], map[];
    index.owner := map[];
    var id := 1;
    assert Partial(index.lower, index.Contents(), issues, events, 1, false, false, 0);
    while id < nextIssue
      invariant 1 <= id <= nextIssue && index.Valid()
      invariant Partial(index.lower, index.Contents(), issues, events, id, false, false, 0)
      invariant forall i :: 1 <= i < id ==> i !in late
    {
      RebuildIssue(index, issues, events, id);
      if id in late {
        index.docs, index.fts, index.nextRow := docs, fts, nextRow;
        index.owner := owner;
        return false;
      }
      id := id + 1;
    }
    PartialIsWhole(index.lower, index.Contents(), issues, events, nextIssue);
    return true;
  }

  lemma PartialIsWhole(lower: Lower, docs: Docs, issues: Issues, events: Activity, nextIssue: int)
    requires forall id :: id in issues ==> id < nextIssue
    requires Partial(lower, docs, issues, events, nextIssue, false, false, 0)
    ensures Agrees(lower, docs, issues, events)
  {
  }

  lemma PartialNext(lower: Lower, docs: Docs, issues: Issues, events: Activity, id: int)
    requires Partial(lower, docs, issues, events, id, true, true, |events|)
    ensures Partial(lower, docs, issues, events, id + 1, false, false, 0)
  {
  }

  method RebuildIssue(index: Index, issues: Issues, events: Activity, id: int)
    requires index.Valid() && id in issues
    requires Partial(index.lower, index.Contents(), issues, events, id, false, false, 0)
    modifies index
    ensures index.Valid()
    ensures Partial(index.lower, index.Contents(), issues, events, id + 1, false, false, 0)
  {
    hide Partial, Mirror, ContentsOf, PutDoc, Replay, Author, MakeDoc, FiltersOf;
    var issue := issues[id];
    var author, at := Writers(events, id, issue, TitleDoc);
    PartialPut(index.lower, index.Contents(), issues, events, id, TitleDoc);
    index.Put(Key(id, TitleDoc, 0), author, at, issue.title, FiltersOf(index.lower, issue));
    author, at := Writers(events, id, issue, DescriptionDoc);
    PartialPut(index.lower, index.Contents(), issues, events, id, DescriptionDoc);
    index.Put(Key(id, DescriptionDoc, 0), author, at, issue.description, FiltersOf(index.lower, issue));
    var i := 0;
    while i < |events|
      invariant 0 <= i <= |events| && index.Valid()
      invariant Partial(index.lower, index.Contents(), issues, events, id, true, true, i)
    {
      var e := events[i];
      PartialComment(index.lower, index.Contents(), issues, events, id, i);
      if e.issue == id && e.kind.Commented? && e.comment.Some? {
        index.Put(Key(id, CommentDoc, i + 1), e.actor, e.at, CommentText(e.comment.value), FiltersOf(index.lower, issue));
      } else {
        NoComment(index.lower, index.Contents(), issues, events, id, i);
      }
      i := i + 1;
    }
    PartialNext(index.lower, index.Contents(), issues, events, id);
  }

  lemma NoComment(lower: Lower, docs: Docs, issues: Issues, events: Activity, id: int, i: nat)
    requires i < |events| && Partial(lower, docs, issues, events, id, true, true, i)
    requires !(events[i].issue == id && events[i].kind.Commented? && events[i].comment.Some?)
    ensures PutDoc(docs, Key(id, CommentDoc, i + 1), DocAt(lower, issues, events, Key(id, CommentDoc, i + 1))) == docs
  {
  }
}
