/** What the search index holds after any run, said about issues and comments rather than about the writes. */
module IndexMeaning {
  import opened Prelude
  import opened UnicodeText
  import opened IssueData
  import opened SearchIndex
  import opened IndexAgreement
  import opened IssueTracker
  import opened IssueRuns
  import opened LinkBatch
  import opened IssueMeaning
  import LabelFilter

  // ---------------------------------------------------------------- comments are sound in every run

  /** Exactly the comment events carry a comment, and it has something to say. */
  ghost predicate CommentEvent(e: Event) {
    if e.kind == Commented then e.comment.Some? && CommentSound(e.comment.value) else e.comment.None?
  }

  ghost predicate CommentsSound(events: Activity) {
    forall i :: 0 <= i < |events| ==> CommentEvent(events[i])
  }

  lemma NotedSilent(parent: int, kids: seq<int>, kind: Kind, c: Context)
    requires kind != Commented
    ensures CommentsSound(Noted(parent, kids, kind, c))
  {
  }

  lemma ToldSilent(parents: seq<int>, kind: Kind, child: int, c: Context)
    requires kind != Commented
    ensures CommentsSound(Told(parents, kind, child, c))
  {
  }

  lemma SoundBoth(a: Activity, b: Activity)
    requires CommentsSound(a) && CommentsSound(b)
    ensures CommentsSound(a + b)
  {
  }

  lemma OneSound(e: Event)
    requires CommentEvent(e)
    ensures CommentsSound([e])
  {
  }

  lemma MarkedSound(a: Activity, i: nat, mark: Option<Mark>)
    requires CommentsSound(a) && i < |a|
    ensures CommentsSound(a[i := a[i].(hidden := mark)])
  {
  }

  lemma WriteSound(lower: Lower, t: Tracker, s: Step, c: Context)
    requires Inv(lower, t) && CommentsSound(t.activity) && (s.CreateStep? || s.UpdateStep? || s.CommentStep?)
    ensures CommentsSound(Next(lower, t, s, c).activity)
  {
    hide Inv, Create, Update, AddComment, CommentsSound, Told, CommentSound, OnlyLinksOf, Takes, SameElements;
    match s
    case CreateStep(r) =>
      CreateFails(lower, t, r, c);
      if Create(lower, t, r, c).1.Ok? {
        CreateMeans(lower, t, r, c);
        var e := Event(t.next, Created, c.actor, c.now, r.title, r.description, None, None, None);
        OneSound(e);
        ToldSilent(Sent(Asked(r), []), Linked, t.next, c);
        SoundBoth(t.activity, [e]);
        SoundBoth(t.activity + [e], Told(Sent(Asked(r), []), Linked, t.next, c));
      }
    case UpdateStep(id, r) =>
      UpdateFails(lower, t, id, r, c);
      if Update(lower, t, id, r, c).1.Ok? {
        var gained, lost := UpdateMeans(lower, t, id, r, c);
        var e := Event(id, Updated, c.actor, c.now, r.title, r.description, None, None, None);
        OneSound(e);
        ToldSilent(gained, Linked, id, c);
        ToldSilent(lost, Unlinked, id, c);
        SoundBoth(Told(gained, Linked, id, c), Told(lost, Unlinked, id, c));
        SoundBoth(t.activity, [e]);
        SoundBoth(t.activity + [e], Told(gained, Linked, id, c) + Told(lost, Unlinked, id, c));
      }
    case CommentStep(id, comment) =>
      CommentFails(lower, t, id, comment, c);
      if AddComment(lower, t, id, comment, c).1.Ok? {
        CommentMeans(lower, t, id, comment, c);
        var e := Event(id, Commented, c.actor, c.now, None, None, Some(comment), None, None);
        OneSound(e);
        SoundBoth(t.activity, [e]);
      }
  }

  lemma ChangeSound(lower: Lower, t: Tracker, s: Step, c: Context)
    requires Inv(lower, t) && CommentsSound(t.activity) && (s.LinkStep? || s.HideStep?)
    ensures CommentsSound(Next(lower, t, s, c).activity)
  {
    hide Inv, LinkChildren, SetHidden, CommentsSound, Noted, Stamped, Acceptable;
    match s
    case LinkStep(parent, add, remove) =>
      BatchExactly(lower, t, parent, add, remove, c);
      if LinkChildren(t, parent, add, remove, c).1.None? {
        var added, removed := BatchMeans(lower, t, parent, add, remove, c);
        NotedSilent(parent, added, Linked, c);
        NotedSilent(parent, removed, Unlinked, c);
        SoundBoth(t.activity, Noted(parent, added, Linked, c));
        SoundBoth(t.activity + Noted(parent, added, Linked, c), Noted(parent, removed, Unlinked, c));
      }
    case HideStep(id, event, conceal) =>
      if event.None? {
        HideIssueMeans(t, id, conceal, c);
        OneSound(HideEvent(id, conceal, None, c));
        SoundBoth(t.activity, [HideEvent(id, conceal, None, c)]);
      } else {
        HideCommentMeans(t, id, event.value, conceal, c);
        if CommentAt(t, id, event.value) {
          OneSound(HideEvent(id, conceal, event, c));
          MarkedSound(t.activity, event.value - 1, Veil(conceal, c));
          SoundBoth(t.activity[event.value - 1 := t.activity[event.value - 1].(hidden := Veil(conceal, c))],
                    [HideEvent(id, conceal, event, c)]);
        }
      }
  }

  lemma {:induction false} CommentsStaySound(lower: Lower, steps: seq<(Step, Context)>)
    ensures CommentsSound(Run(lower, steps).activity)
  {
    hide Inv, Next;
    if steps != [] {
      var rest, last := steps[..|steps| - 1], steps[|steps| - 1];
      CommentsStaySound(lower, rest);
      RunKeeps(lower, rest);
      if last.0.LinkStep? || last.0.HideStep? {
        ChangeSound(lower, Run(lower, rest), last.0, last.1);
      } else {
        WriteSound(lower, Run(lower, rest), last.0, last.1);
      }
    }
  }

  // ---------------------------------------------------------------- what the documents say

  /** The filter columns are the issue's own, and the label filter finds a document exactly by a label of its issue. */
  ghost predicate Filed(lower: Lower, f: Filters, issue: Issue) {
    && f.status == issue.status && (f.assignee == match issue.assignee case Some(who) => who case None => "")
    && forall query :: lower(query) != "" ==>
         (LabelFilter.Like(LabelFilter.LabelPattern(lower(query)), f.labels) <==>
          exists l :: l in issue.labels && lower(l) == lower(query))
  }

  // Lower-casing leaves no ASCII capital.
  ghost predicate Lowers(lower: Lower) {
    forall s :: LabelFilter.NoUpper(lower(s))
  }

  lemma FiltersFiled(lower: Lower, issue: Issue)
    requires Lowers(lower)
    ensures Filed(lower, FiltersOf(lower, issue), issue)
  {
    hide LabelFilter.Like, LabelFilter.LabelPattern, LabelFilter.LabelsKey, LabelFilter.NoUpper;
    forall query | lower(query) != ""
      ensures LabelFilter.Like(LabelFilter.LabelPattern(lower(query)), FiltersOf(lower, issue).labels) <==>
              exists l :: l in issue.labels && lower(l) == lower(query)
    {
      LabelFilter.FilterFindsLabelAnyCase(lower, issue.labels, query);
      LoweredIs(lower, issue.labels);
    }
  }

  lemma LoweredIs(lower: Lower, labels: seq<string>)
    ensures Lowered(lower, labels) == seq(|labels|, i requires 0 <= i < |labels| => lower(labels[i]))
  {
  }

  lemma SaysExactly(s: string)
    ensures Blank(s) <==> !Says(s)
  {
    if ch :| ch in s && !Space(ch) { var i :| 0 <= i < |s| && s[i] == ch; }
    if !Blank(s) {
      var i :| 0 <= i < |s| && !Space(s[i]);
      assert s[i] in s;
    }
  }

  /** After any run an issue's title is found as its title, and its description, if it says anything, as its description. */
  lemma TextIsIndexed(lower: Lower, steps: seq<(Step, Context)>, id: int)
    requires Lowers(lower) && id in Run(lower, steps).issues
    ensures var t := Run(lower, steps);
            var issue := t.issues[id];
            var title, text := Key(id, TitleDoc, 0), Key(id, DescriptionDoc, 0);
            && (title in t.docs <==> Says(issue.title)) && (text in t.docs <==> Says(issue.description))
            && (title in t.docs ==> t.docs[title].text == issue.title && Filed(lower, t.docs[title].filters, issue))
            && (text in t.docs ==> t.docs[text].text == issue.description && Filed(lower, t.docs[text].filters, issue))
  {
    var t := Run(lower, steps);
    IndexIsTheRebuild(lower, steps, Key(id, TitleDoc, 0));
    IndexIsTheRebuild(lower, steps, Key(id, DescriptionDoc, 0));
    hide Run, Replay, Author, Filed, FiltersOf, Blank, Says;
    FiltersFiled(lower, t.issues[id]);
    SaysExactly(t.issues[id].title);
    SaysExactly(t.issues[id].description);
  }

  /** A create or update of this issue that sent this text for the field. */
  ghost predicate WroteAt(events: Activity, i: int, id: int, kind: DocKind, text: string) {
    && 0 <= i < |events| && events[i].issue == id && (events[i].kind == Created || events[i].kind == Updated)
    && (if kind == TitleDoc then events[i].title else events[i].description) == Some(text)
  }

  lemma {:induction false} ReplayNames(events: Activity, id: int, kind: DocKind)
    ensures var w := Replay(events, id, kind);
            w.writer.Some? ==>
              && w.current.Some?
              && exists i :: WroteAt(events, i, id, kind, w.current.value) && w.writer.value == (events[i].actor, events[i].at)
  {
    if events != [] {
      var rest, n := events[..|events| - 1], |events| - 1;
      ReplayNames(rest, id, kind);
      var w, v := Replay(events, id, kind), Replay(rest, id, kind);
      if w == v && w.writer.Some? {
        var i :| WroteAt(rest, i, id, kind, v.current.value) && v.writer.value == (rest[i].actor, rest[i].at);
        assert WroteAt(events, i, id, kind, w.current.value);
      } else if w.writer.Some? {
        assert WroteAt(events, n, id, kind, w.current.value);
      }
    }
  }

  /** Whatever history a rebuild meets, it names an author only for a text that this author wrote. */
  lemma NeverMisattributed(events: Activity, id: int, kind: DocKind, text: string, createdAt: int)
    ensures var (author, at) := Author(Replay(events, id, kind), text, createdAt);
            author != "" ==>
              exists i :: WroteAt(events, i, id, kind, text) && author == events[i].actor && at == events[i].at
  {
    hide Replay;
    ReplayNames(events, id, kind);
  }

  /** The author and the time of a title or description are those of a write that sent exactly this text. */
  lemma AuthorsWrote(lower: Lower, steps: seq<(Step, Context)>, id: int, kind: DocKind)
    requires id in Run(lower, steps).issues && kind != CommentDoc && Key(id, kind, 0) in Run(lower, steps).docs
    ensures var t := Run(lower, steps);
            var doc := t.docs[Key(id, kind, 0)];
            exists i :: WroteAt(t.activity, i, id, kind, doc.text) && doc.author == t.activity[i].actor && doc.at == t.activity[i].at
  {
    var t := Run(lower, steps);
    var text := Field(t.issues[id], kind);
    IndexIsTheRebuild(lower, steps, Key(id, kind, 0));
    RunKeeps(lower, steps);
    FieldExplained(lower, t, id, kind);
    ReplayNames(t.activity, id, kind);
    hide Run, Replay, Inv, FiltersOf, Blank, WroteAt;
    EmptyIsBlank();
  }

  lemma EmptyIsBlank()
    ensures Blank("")
  {
  }

  lemma {:induction false} WriterIfCurrent(events: Activity, id: int, kind: DocKind)
    ensures Replay(events, id, kind).current.Some? ==> Replay(events, id, kind).writer.Some?
  {
    if events != [] { WriterIfCurrent(events[..|events| - 1], id, kind); }
  }

  lemma FieldExplained(lower: Lower, t: Tracker, id: int, kind: DocKind)
    requires Inv(lower, t) && id in t.issues && kind != CommentDoc
    ensures var w := Replay(t.activity, id, kind);
            Field(t.issues[id], kind) == "" || (w.current == Some(Field(t.issues[id], kind)) && w.writer.Some?)
  {
    WriterIfCurrent(t.activity, id, kind);
    assert ExplainsIssue(t.activity, id, t.issues[id]);
    hide Replay;
  }

  /** All the words of a comment: title, line break and body, or the body alone. */
  ghost function Words(comment: Comment): string {
    match comment.title case Some(title) => title + "\n" + comment.body case None => comment.body
  }

  lemma CommentDocIs(lower: Lower, issues: Issues, events: Activity, n: nat)
    requires 1 <= n <= |events| && CommentEvent(events[n - 1]) && events[n - 1].issue in issues
    ensures var e := events[n - 1];
            DocAt(lower, issues, events, Key(e.issue, CommentDoc, n)) ==
            if e.kind == Commented then Some(Doc(e.actor, e.at, Words(e.comment.value), FiltersOf(lower, issues[e.issue]))) else None
  {
    hide FiltersOf, Blank, CommentText, CommentSound, Words;
    if events[n - 1].kind == Commented { CommentJoined(events[n - 1].comment.value); }
  }

  /** After any run every comment is one document, by its author, with all its words. */
  lemma CommentsAreIndexed(lower: Lower, steps: seq<(Step, Context)>, n: nat)
    requires Lowers(lower) && 1 <= n <= |Run(lower, steps).activity|
    ensures var t := Run(lower, steps);
            var e := t.activity[n - 1];
            var key := Key(e.issue, CommentDoc, n);
            && (key in t.docs <==> e.kind == Commented)
            && (key in t.docs ==>
                  && e.issue in t.issues && e.comment.Some? && t.docs[key].text == Words(e.comment.value)
                  && t.docs[key].author == e.actor && t.docs[key].at == e.at && Filed(lower, t.docs[key].filters, t.issues[e.issue]))
  {
    hide Run, Inv, Filed, FiltersOf, DocAt, CommentSound, Words;
    var t := Run(lower, steps);
    var e := t.activity[n - 1];
    CommentsStaySound(lower, steps);
    IndexIsTheRebuild(lower, steps, Key(e.issue, CommentDoc, n));
    RunKeeps(lower, steps);
    KnownIssue(lower, t, n - 1);
    assert CommentEvent(e);
    CommentDocIs(lower, t.issues, t.activity, n);
    FiltersFiled(lower, t.issues[e.issue]);
  }

  lemma KnownIssue(lower: Lower, t: Tracker, i: nat)
    requires Inv(lower, t) && i < |t.activity|
    ensures t.activity[i].issue in t.issues
  {
  }

  lemma CommentJoined(comment: Comment)
    requires CommentSound(comment)
    ensures !Blank(CommentText(comment))
    ensures CommentText(comment) == Words(comment)
  {
    SaysExactly(comment.body);
    SaysMore(if comment.title.Some? then comment.title.value + "\n" else "", comment.body);
    SaysExactly(CommentText(comment));
    assert "" + comment.body == comment.body;
  }

  lemma SaysMore(a: string, b: string)
    requires Says(b)
    ensures Says(a + b) && b != ""
  {
    var ch :| ch in b && !Space(ch);
    assert ch in a + b;
  }

  /** There are no other documents. */
  lemma NothingElseIsIndexed(lower: Lower, steps: seq<(Step, Context)>, key: Key)
    requires key in Run(lower, steps).docs
    ensures var t := Run(lower, steps);
            && key.issue in t.issues
            && (if key.kind == CommentDoc then
                  1 <= key.event <= |t.activity| && t.activity[key.event - 1].issue == key.issue &&
                  t.activity[key.event - 1].kind == Commented
                else key.event == 0)
  {
    IndexIsTheRebuild(lower, steps, key);
    hide Run, Replay, FiltersOf, Blank, CommentText, Author;
  }
}
