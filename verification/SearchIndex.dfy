/**
 * The full-text index: documents kept in step with every write, and the same documents derived from
 * scratch by replaying the activity.
 */
module SearchIndex {
  import opened Prelude
  import opened UnicodeText
  import opened IssueData
  import LabelFilter

  type Lower = string -> string

  datatype DocKind = TitleDoc | DescriptionDoc | CommentDoc

  // Column values that search filters on; they follow the issue.
  datatype Filters = Filters(status: string, assignee: string, labels: string)

  datatype Key = Key(issue: int, kind: DocKind, event: nat)

  datatype Doc = Doc(author: string, at: int, text: string, filters: Filters)

  type Docs = map<Key, Doc>

  function Lowered(lower: Lower, labels: seq<string>): seq<string> {
    seq(|labels|, i requires 0 <= i < |labels| => lower(labels[i]))
  }

  function FiltersOf(lower: Lower, issue: Issue): Filters {
    Filters(issue.status, if issue.assignee.Some? then issue.assignee.value else "",
            LabelFilter.LabelsKey(Lowered(lower, issue.labels)))
  }

  function Field(issue: Issue, kind: DocKind): string {
    if kind.TitleDoc? then issue.title else issue.description
  }

  function CommentText(c: Comment): string {
    if c.title.Some? && c.title.value != "" then
      if c.body != "" then c.title.value + "\n" + c.body else c.title.value
    else c.body
  }

  // ---------------------------------------------------------------- what a rebuild derives

  // The text the events leave in a field, and who put it there.
  datatype Written = Written(current: Option<string>, writer: Option<(string, int)>)

  function Change(e: Event, kind: DocKind): Option<string> {
    if !(e.kind.Created? || e.kind.Updated?) then None
    else if kind.TitleDoc? then e.title else e.description
  }

  function WriteStep(w: Written, e: Event, id: int, kind: DocKind): Written {
    var change := Change(e, kind);
    if e.issue == id && change.Some? && change != w.current then Written(change, Some((e.actor, e.at))) else w
  }

  function Replay(events: Activity, id: int, kind: DocKind): Written {
    if events == [] then Written(None, None)
    else WriteStep(Replay(events[..|events| - 1], id, kind), events[|events| - 1], id, kind)
  }

  /** `writers`: the last writer, or nobody if the events do not explain the stored text. */
  function Author(w: Written, text: string, createdAt: int): (string, int) {
    if w.writer.Some? && w.current == Some(text) then w.writer.value
    else ("", if w.writer.Some? then w.writer.value.1 else createdAt)
  }

  function MakeDoc(author: string, at: int, text: string, filters: Filters): Option<Doc> {
    if Blank(text) then None else Some(Doc(author, at, text, filters))
  }

  /** The document a rebuild derives for a key, if any. */
  function DocAt(lower: Lower, issues: Issues, events: Activity, key: Key): Option<Doc> {
    if key.issue !in issues then None
    else
      var issue := issues[key.issue];
      if key.kind.CommentDoc? then
        if 1 <= key.event <= |events| && events[key.event - 1].issue == key.issue &&
           events[key.event - 1].kind.Commented? && events[key.event - 1].comment.Some?
        then
          var e := events[key.event - 1];
          MakeDoc(e.actor, e.at, CommentText(e.comment.value), FiltersOf(lower, issue))
        else None
      else if key.event != 0 then None
      else
        var text := Field(issue, key.kind);
        var (author, at) := Author(Replay(events, key.issue, key.kind), text, issue.createdAt);
        MakeDoc(author, at, text, FiltersOf(lower, issue))
  }

  function At(docs: Docs, key: Key): Option<Doc> {
    if key in docs then Some(docs[key]) else None
  }

  /** The index holds exactly what a rebuild would derive. */
  ghost predicate Agrees(lower: Lower, docs: Docs, issues: Issues, events: Activity) {
    forall key :: At(docs, key) == DocAt(lower, issues, events, key)
  }

  // ---------------------------------------------------------------- what a write does

  function PutDoc(docs: Docs, key: Key, doc: Option<Doc>): Docs {
    if doc.Some? then docs[key := doc.value] else docs - {key}
  }

  function Synced(docs: Docs, id: int, filters: Filters): Docs {
    map k | k in docs :: if k.issue == id then docs[k].(filters := filters) else docs[k]
  }

  // Title or description: indexed again only when it changed.
  function PutField(lower: Lower, docs: Docs, id: int, kind: DocKind, before: Option<Issue>, issue: Issue,
                    actor: string, now: int): Docs {
    if before.Some? && Field(before.value, kind) == Field(issue, kind) then docs
    else PutDoc(docs, Key(id, kind, 0), MakeDoc(actor, now, Field(issue, kind), FiltersOf(lower, issue)))
  }

  function OnFields(lower: Lower, docs: Docs, id: int, before: Option<Issue>, issue: Issue, actor: string, now: int): Docs {
    var titled := PutField(lower, docs, id, TitleDoc, before, issue, actor, now);
    var described := PutField(lower, titled, id, DescriptionDoc, before, issue, actor, now);
    Synced(described, id, FiltersOf(lower, issue))
  }

  function OnComment(lower: Lower, docs: Docs, id: int, issue: Issue, eventId: nat, c: Comment, actor: string, now: int): Docs {
    var put := PutDoc(docs, Key(id, CommentDoc, eventId),
                      MakeDoc(actor, now, CommentText(c), FiltersOf(lower, issue)));
    Synced(put, id, FiltersOf(lower, issue))
  }

  // ---------------------------------------------------------------- the tables

  // One row of search_docs; `row` is its key in the full-text table.
  datatype Entry = Entry(row: int, doc: Doc)

  function ContentsOf(docs: map<Key, Entry>): (c: Docs) {
    map k | k in docs :: docs[k].doc
  }

  // The full-text table mirrors the documents row by row; `owner` names the document of each row.
  ghost predicate Mirror(docs: map<Key, Entry>, fts: map<int, string>, owner: map<int, Key>, nextRow: int) {
    && owner.Keys == fts.Keys
    && (forall k :: k in docs ==>
          var row := docs[k].row;
          row < nextRow && row in owner && owner[row] == k && fts[row] == docs[k].doc.text)
    && (forall r :: r in owner ==> owner[r] in docs && docs[owner[r]].row == r)
  }

  lemma MirrorDelete(docs: map<Key, Entry>, fts: map<int, string>, owner: map<int, Key>, nextRow: int, key: Key)
    requires Mirror(docs, fts, owner, nextRow) && key in docs
    ensures Mirror(docs - {key}, fts - {docs[key].row}, owner - {docs[key].row}, nextRow)
    ensures ContentsOf(docs - {key}) == ContentsOf(docs) - {key}
  {
  }

  lemma MirrorInsert(docs: map<Key, Entry>, fts: map<int, string>, owner: map<int, Key>, nextRow: int, key: Key, doc: Doc)
    requires Mirror(docs, fts, owner, nextRow) && key !in docs
    ensures Mirror(docs[key := Entry(nextRow, doc)], fts[nextRow := doc.text], owner[nextRow := key], nextRow + 1)
    ensures ContentsOf(docs[key := Entry(nextRow, doc)]) == ContentsOf(docs)[key := doc]
  {
  }

  function SyncedEntries(docs: map<Key, Entry>, id: int, filters: Filters): map<Key, Entry> {
    map k | k in docs :: if k.issue == id then docs[k].(doc := docs[k].doc.(filters := filters)) else docs[k]
  }

  lemma MirrorSync(docs: map<Key, Entry>, fts: map<int, string>, owner: map<int, Key>, nextRow: int, id: int, f: Filters)
    requires Mirror(docs, fts, owner, nextRow)
    ensures Mirror(SyncedEntries(docs, id, f), fts, owner, nextRow)
    ensures ContentsOf(SyncedEntries(docs, id, f)) == Synced(ContentsOf(docs), id, f)
  {
  }

  class Index {
    const lower: Lower
    var docs: map<Key, Entry>
    var fts: map<int, string>
    var nextRow: int
    ghost var owner: map<int, Key>

    ghost predicate Valid()
      reads this
    {
      Mirror(docs, fts, owner, nextRow)
    }

    function Contents(): (c: Docs)
      reads this
    {
      ContentsOf(docs)
    }

    constructor (lower: Lower)
      ensures Valid() && Contents() == map[] && this.lower == lower
    {
      this.lower := lower;
      docs, fts, nextRow, owner := map[], map[], 1, map[];
    }

    /** `put`: insert or replace one document and its full-text row; blank text removes it. */
    method Put(key: Key, author: string, at: int, text: string, filters: Filters)
      requires Valid()
      modifies this
      ensures Valid()
      ensures Contents() == PutDoc(old(Contents()), key, MakeDoc(author, at, text, filters))
    {
      assert key !in docs ==> ContentsOf(docs) == ContentsOf(docs) - {key};
      assert key !in docs ==> ContentsOf(docs)[key := Doc(author, at, text, filters)] ==
                              (ContentsOf(docs) - {key})[key := Doc(author, at, text, filters)];
      assert (ContentsOf(docs) - {key})[key := Doc(author, at, text, filters)] ==
             ContentsOf(docs)[key := Doc(author, at, text, filters)];
      hide Mirror, ContentsOf;
      if key in docs {
        MirrorDelete(docs, fts, owner, nextRow, key);
        owner := owner - {docs[key].row};
        fts := fts - {docs[key].row};
        docs := docs - {key};
      }
      if Blank(text) { return; }
      MirrorInsert(docs, fts, owner, nextRow, key, Doc(author, at, text, filters));
      docs := docs[key := Entry(nextRow, Doc(author, at, text, filters))];
      fts := fts[nextRow := text];
      owner := owner[nextRow := key];
      nextRow := nextRow + 1;
    }

    /** `sync_filters`: the filter columns of all of an issue's documents follow the issue. */
    method SyncFilters(id: int, filters: Filters)
      requires Valid()
      modifies this`docs
      ensures Valid() && Contents() == Synced(old(Contents()), id, filters)
    {
      MirrorSync(docs, fts, owner, nextRow, id, filters);
      hide Mirror, ContentsOf, Synced;
      docs := SyncedEntries(docs, id, filters);
    }

    /** `on_write` after a create (`before` is None) or an update. */
    method OnFieldsWritten(id: int, before: Option<Issue>, issue: Issue, actor: string, now: int)
      requires Valid()
      modifies this
      ensures Valid() && Contents() == OnFields(lower, old(Contents()), id, before, issue, actor, now)
    {
      hide Mirror, ContentsOf, Synced, PutDoc, MakeDoc, FiltersOf;
      if before.None? || before.value.title != issue.title {
        Put(Key(id, TitleDoc, 0), actor, now, issue.title, FiltersOf(lower, issue));
      }
      if before.None? || before.value.description != issue.description {
        Put(Key(id, DescriptionDoc, 0), actor, now, issue.description, FiltersOf(lower, issue));
      }
      SyncFilters(id, FiltersOf(lower, issue));
    }

    /** `on_write` after a comment. */
    method OnCommentWritten(id: int, issue: Issue, eventId: nat, c: Comment, actor: string, now: int)
      requires Valid()
      modifies this
      ensures Valid() && Contents() == OnComment(lower, old(Contents()), id, issue, eventId, c, actor, now)
    {
      Put(Key(id, CommentDoc, eventId), actor, now, CommentText(c), FiltersOf(lower, issue));
      SyncFilters(id, FiltersOf(lower, issue));
    }
  }
}
