/** What each write of the issue tracker means, field by field, and exactly when it is accepted. */
module IssueMeaning {
  import opened Prelude
  import opened UnicodeText
  import opened IssueData
  import opened IssueGraph
  import opened IssueLinks
  import opened SearchIndex
  import opened IssueTracker
  import opened IssueRuns
  import opened LinkBatch

  // ---------------------------------------------------------------- fields

  ghost function Sent<T>(sent: Option<T>, kept: T): T {
    match sent case Some(v) => v case None => kept
  }

  /** Every field of the request that was sent is taken, and every other one is as before. */
  ghost predicate Takes(before: Issue, r: Request, after: Issue) {
    && after.title == Sent(r.title, before.title) && after.description == Sent(r.description, before.description)
    && after.status == Sent(r.status, before.status) && after.priority == Sent(r.priority, before.priority)
    && after.labels == Sent(r.labels, before.labels) && after.assignee == Sent(r.assignee, before.assignee)
    && after.blockedBy == Sent(r.blockedBy, before.blockedBy)
    && after.creator == before.creator && after.createdAt == before.createdAt && after.hidden == before.hidden
  }

  // An issue nobody has written anything into.
  ghost function BlankIssue(c: Context): Issue {
    Issue(title := "", description := "", status := "open", priority := "normal", labels := [], assignee := None,
          blockedBy := [], creator := c.actor, createdAt := c.now, updatedAt := c.now, version := 0, hidden := None)
  }

  // At most so many bytes of UTF-8.
  ghost predicate Text(s: string, maximum: nat) {
    |Encoded(s)| <= maximum
  }

  ghost predicate Says(s: string) {
    exists ch :: ch in s && !Space(ch)
  }

  ghost predicate FieldsSound(issue: Issue, directory: set<string>) {
    && Text(issue.title, 300) && Says(issue.title) && Text(issue.description, 32768)
    && issue.status in {"open", "in_progress", "blocked", "done", "closed", "note"}
    && issue.priority in {"low", "normal", "high", "urgent"}
    && |issue.labels| <= 20 && (forall l :: l in issue.labels ==> Text(l, 64) && Says(l))
    && (forall i, j :: 0 <= i < j < |issue.labels| ==> issue.labels[i] != issue.labels[j])
    && (issue.assignee.Some? ==> issue.assignee.value in directory)
  }

  lemma TextExactly(s: string, maximum: nat)
    ensures TextOk(s, maximum, false) <==> Text(s, maximum) && Says(s)
    ensures TextOk(s, maximum, true) <==> Text(s, maximum)
  {
    SizeIsEncoded(s);
    if Says(s) {
      var ch :| ch in s && !Space(ch);
      var i :| 0 <= i < |s| && s[i] == ch;
    }
    if !Blank(s) {
      var i :| 0 <= i < |s| && !Space(s[i]);
      assert s[i] in s;
    }
  }

  lemma FieldsExactly(issue: Issue, directory: set<string>)
    ensures FieldsError(issue, directory).None? <==> FieldsSound(issue, directory)
    ensures FieldsError(issue, directory) == Some(AssigneeUnavailable) ==> issue.assignee.Some? && issue.assignee.value !in directory
  {
    hide TextOk, Text, Says;
    forall s, n: nat ensures TextOk(s, n, false) <==> Text(s, n) && Says(s) { TextExactly(s, n); }
    forall s, n: nat ensures TextOk(s, n, true) <==> Text(s, n) { TextExactly(s, n); }
    LabelsExactly(issue.labels);
  }

  lemma LabelsExactly(labels: seq<string>)
    ensures (exists i :: 0 <= i < |labels| && !TextOk(labels[i], 64, false)) <==>
            !(forall l :: l in labels ==> Text(l, 64) && Says(l))
  {
    hide TextOk, Text, Says;
    forall s ensures TextOk(s, 64, false) <==> Text(s, 64) && Says(s) { TextExactly(s, 64); }
    if i :| 0 <= i < |labels| && !TextOk(labels[i], 64, false) { assert labels[i] in labels; }
  }

  // ---------------------------------------------------------------- dependencies

  /** The issues it waits for exist, are different, and none of them waits for it. */
  ghost predicate DepsSound(issues: Issues, node: int, deps: seq<int>) {
    && |deps| <= 50 && Distinct(deps)
    && forall d :: d in deps ==> d >= 1 && d in issues && !Reachable(Waits(issues), node, d)
  }

  lemma {:induction false} MissingExactly(issues: set<int>, deps: seq<int>)
    ensures MissingError(issues, deps).None? <==> forall d :: d in deps ==> d >= 1 && d in issues
    ensures MissingError(issues, deps) != Some(DependencyCycle)
  {
    if deps != [] {
      MissingExactly(issues, deps[1..]);
      assert deps == [deps[0]] + deps[1..];
      assert deps[0] in deps && forall d :: d in deps[1..] ==> d in deps;
    }
  }

  lemma DepsExactly(issues: Issues, node: int, deps: seq<int>)
    ensures DependencyError(issues, node, deps).None? <==> DepsSound(issues, node, deps)
    ensures DependencyError(issues, node, deps) == Some(DependencyCycle) ==>
              exists d :: d in deps && Reachable(Waits(issues), node, d)
  {
    WaitsAre(issues);
    MissingExactly(issues.Keys, deps);
    hide Waits, Deps, Blocking, Reachable, MissingError, Distinct;
  }

  /** Work starts or ends only when everything it waits for is resolved. */
  ghost predicate Ready(issues: Issues, issue: Issue) {
    issue.status == "in_progress" || issue.status == "done" ==>
      forall d :: d in issue.blockedBy && d in issues ==> issues[d].status in {"done", "closed", "note"}
  }

  lemma ReadyExactly(issues: Issues, issue: Issue)
    ensures Unready(issues, issue) <==> !Ready(issues, issue)
  {
    forall s ensures s in RESOLVED <==> s in {"done", "closed", "note"} { }
    assert issue.status in ["in_progress", "done"] <==> issue.status == "in_progress" || issue.status == "done";
    if d :| d in issue.blockedBy && d in issues && issues[d].status !in {"done", "closed", "note"} {
      var i :| 0 <= i < |issue.blockedBy| && issue.blockedBy[i] == d;
      assert issues[issue.blockedBy[i]].status !in RESOLVED;
    }
    if i :| 0 <= i < |issue.blockedBy| && issue.blockedBy[i] in issues && issues[issue.blockedBy[i]].status !in RESOLVED {
      var d := issue.blockedBy[i];
      assert d in issue.blockedBy && d in issues && issues[d].status !in {"done", "closed", "note"};
    }
  }

  // ---------------------------------------------------------------- parents

  /** The parents that a request asks for, if it speaks of them: a list, one id, or an explicit none. */
  ghost function Asked(r: Request): Option<seq<int>> {
    match (r.parentIds, r.parentId)
    case (Some(ids), _) => Some(ids)
    case (None, Some(Some(id))) => Some([id])
    case (None, Some(None)) => Some([])
    case (None, None) => None
  }

  // Both spellings at once are refused, and an id is a positive number.
  ghost predicate Askable(r: Request) {
    !(r.parentIds.Some? && r.parentId.Some?) && (r.parentId.Some? && r.parentId.value.Some? ==> r.parentId.value.value >= 1)
  }

  lemma AskedExactly(r: Request)
    ensures WantedParents(r).Ok? <==> Askable(r)
    ensures WantedParents(r).Ok? ==> WantedParents(r).value == Asked(r)
  {
  }

  ghost predicate ParentsExist(issues: set<int>, parents: seq<int>) {
    Distinct(parents) && |parents| <= 50 && forall p :: p in parents ==> p >= 1 && p in issues
  }

  /** None of the parents lies at or below the issue, and each new one has room. */
  ghost predicate ParentsFit(g: Graph, id: int, parents: seq<int>) {
    && |Descendants(g, id)| < 10000
    && forall p :: p in parents ==> !Reachable(g, id, p) && ((p, id) in g || |Children(g, p)| < 50)
  }

  lemma ParentsExactly(issues: set<int>, g: Graph, id: int, parents: seq<int>)
    ensures ParentsError(issues, g, None, parents).None? <==> ParentsExist(issues, parents)
    ensures ParentsError(issues, g, Some(id), parents).None? <==> ParentsExist(issues, parents) && ParentsFit(g, id, parents)
  {
    LinkErrorExactly(g, id, parents);
    hide LinkError, Reachable, Descendants, Children, Distinct;
  }

  // ---------------------------------------------------------------- create

  ghost predicate Creatable(t: Tracker, r: Request, issue: Issue, c: Context) {
    && r.version.None? && Askable(r)
    && FieldsSound(issue, c.directory) && DepsSound(t.issues, -1, issue.blockedBy) && Ready(t.issues, issue)
    && ParentsExist(t.issues.Keys, Sent(Asked(r), []))
    && (c.limited ==> Sent(Asked(r), []) == [])
  }

  // One event for each parent, on the parent and about the child.
  ghost function Told(parents: seq<int>, kind: Kind, child: int, c: Context): Activity {
    seq(|parents|, i requires 0 <= i < |parents| =>
      Event(parents[i], kind, c.actor, c.now, None, None, None, Some(child), None))
  }

  lemma ToldIs(parents: seq<int>, kind: Kind, child: int, c: Context)
    ensures Traces(parents, kind, child, c) == Told(parents, kind, child, c)
  {
  }

  lemma AppliedTakes(before: Issue, r: Request, c: Context)
    ensures Takes(before, r, Stored(Applied(before, r), c))
    ensures Stored(Applied(before, r), c).version == before.version + 1 && Stored(Applied(before, r), c).updatedAt == c.now
    ensures Takes(before, r, Applied(before, r)) && Applied(before, r).version == before.version
  {
  }

  lemma NewIsBlank(c: Context)
    ensures NewIssue(c) == BlankIssue(c)
  {
  }

  /** A create is accepted exactly for sound fields, dependencies and parents. */
  lemma CreateExactly(t: Tracker, r: Request, c: Context) returns (issue: Issue)
    ensures Takes(BlankIssue(c), r, issue)
    ensures CreateError(t, r, c).None? <==> Creatable(t, r, issue, c)
  {
    issue := Applied(NewIssue(c), r);
    NewIsBlank(c);
    AppliedTakes(NewIssue(c), r, c);
    AskedExactly(r);
    FieldsExactly(issue, c.directory);
    DepsExactly(t.issues, UNSAVED, issue.blockedBy);
    ReadyExactly(t.issues, issue);
    ParentsExactly(t.issues.Keys, Edges(t.links), 0, Sent(Asked(r), []));
    NoneExist(t.issues.Keys);
    hide Applied, NewIssue, WantedParents, Asked, Askable, FieldsError, FieldsSound, DependencyError, DepsSound, Unready, Ready,
         ParentsError, ParentsExist, Takes, Edges;
  }

  lemma NoneExist(issues: set<int>)
    ensures ParentsExist(issues, [])
  {
  }

  // The rows of this child that have just been inserted all carry the same time.
  lemma JustInserted(links: Links, child: int, parents: seq<int>, who: string, now: int)
    requires forall l :: l in links ==> l.child != child
    ensures var r := InsertAll(links, child, parents, who, now);
            forall i :: 0 <= i < |r| && r[i].child == child ==> r[i].at <= now
  {
    hide InsertAll;
    InsertAllRows(links, child, parents, who, now);
    var r := InsertAll(links, child, parents, who, now);
    forall i | 0 <= i < |r| && r[i].child == child ensures r[i].at <= now {
      assert r[i] in r;
    }
  }

  /** No rows of this child yet: they are read in the order in which they were asked for. */
  lemma {:induction false} InsertedLast(links: Links, child: int, parents: seq<int>, who: string, now: int)
    requires forall l :: l in links ==> l.child != child
    ensures ParentsOf(InsertAll(links, child, parents, who, now), child) == parents
  {
    hide ParentsOf, Insert;
    if parents == [] {
      NoParents(links, child);
    } else {
      var rest, last := parents[..|parents| - 1], parents[|parents| - 1];
      InsertedLast(links, child, rest, who, now);
      JustInserted(links, child, rest, who, now);
      InsertedAfter(InsertAll(links, child, rest, who, now), Link(child, last, who, now));
      assert parents == rest + [last];
    }
  }

  lemma {:induction false} NoParents(links: Links, child: int)
    requires forall l :: l in links ==> l.child != child
    ensures ParentsOf(links, child) == []
  {
    if links != [] {
      assert links[|links| - 1] in links;
      assert forall l :: l in links[..|links| - 1] ==> l in links;
      NoParents(links[..|links| - 1], child);
    }
  }

  // A row that is at least as late as the others of its child is read after them.
  lemma {:induction false} InsertedAfter(links: Links, l: Link)
    requires forall i :: 0 <= i < |links| && links[i].child == l.child ==> links[i].at <= l.at
    ensures ParentsOf(Insert(links, l), l.child) == ParentsOf(links, l.child) + [l.parent]
  {
    if links == [] || links[|links| - 1].at <= l.at {
      ParentsSnoc(links, l, l.child);
    } else {
      var rest, last := links[..|links| - 1], links[|links| - 1];
      InsertedAfter(rest, l);
      assert last.child != l.child;
      ParentsLast(links, l.child);
      ParentsSnoc(Insert(rest, l), last, l.child);
    }
  }

  // A last row of another child says nothing about this one.
  lemma ParentsLast(links: Links, child: int)
    requires links != [] && links[|links| - 1].child != child
    ensures ParentsOf(links, child) == ParentsOf(links[..|links| - 1], child)
  {
  }

  lemma {:induction false} RowsHaveEnds(issues: set<int>, links: Links)
    requires LinksKept(issues, links)
    ensures forall l :: l in links ==> l.child in issues
  {
    forall l | l in links ensures l.child in issues {
      EdgeOfRow(links, l);
    }
  }

  lemma NewParents(t: Tracker, parents: seq<int>, c: Context)
    requires LinksKept(t.issues.Keys, t.links) && t.next !in t.issues
    ensures ParentsOf(Rewritten(t.links, t.next, [], parents, c.actor, c.now), t.next) == parents
  {
    RowsHaveEnds(t.issues.Keys, t.links);
    hide LinksKept;
    assert Minus([], parents) == [];
    assert Elements([]) == {};
    NothingToRemove(t.links, t.next, {});
    MinusNothing(parents);
    InsertedLast(t.links, t.next, parents, c.actor, c.now);
  }

  lemma MinusSnoc(a: seq<int>, b: seq<int>)
    requires a != []
    ensures Minus(a, b) == Minus(a[..|a| - 1], b) + if a[|a| - 1] in b then [] else [a[|a| - 1]]
  {
    hide Distinct;
  }

  lemma {:induction false} MinusNothing(parents: seq<int>)
    ensures Minus(parents, []) == parents
  {
    hide Distinct, Minus;
    if parents == [] {
      SomeElement(Minus(parents, []));
    } else {
      MinusSnoc(parents, []);
      MinusNothing(parents[..|parents| - 1]);
      assert parents == parents[..|parents| - 1] + [parents[|parents| - 1]];
    }
  }

  /** Only the links of this issue have changed. */
  ghost predicate OnlyLinksOf(a: Links, b: Links, id: int, c: Context) {
    (forall x :: x != id ==> ParentsOf(b, x) == ParentsOf(a, x)) && Stamped(a, b, c.actor, c.now)
  }

  lemma RewrittenOnly(links: Links, id: int, after: seq<int>, c: Context)
    requires Unique(links) && Ordered(links) && Distinct(after)
    ensures OnlyLinksOf(links, Rewritten(links, id, ParentsOf(links, id), after, c.actor, c.now), id, c)
  {
    RewrittenStamped(links, id, after, c.actor, c.now);
    forall x | x != id
      ensures ParentsOf(Rewritten(links, id, ParentsOf(links, id), after, c.actor, c.now), x) == ParentsOf(links, x)
    {
      RewrittenOthers(links, id, ParentsOf(links, id), after, c.actor, c.now, x);
    }
  }

  /**
   * What a create leaves: the next id, the sent fields over the defaults, the parents in the order asked for, and the
   * event of the create followed by one event for each parent.
   */
  lemma CreateMeans(lower: Lower, t: Tracker, r: Request, c: Context)
    requires Inv(lower, t) && Create(lower, t, r, c).1.Ok?
    ensures var (t', result) := Create(lower, t, r, c);
            var id := t.next;
            && result == Ok(id) && id !in t.issues && t'.next == id + 1
            && id in t'.issues && t'.issues == t.issues[id := t'.issues[id]]
            && Takes(BlankIssue(c), r, t'.issues[id]) && t'.issues[id].version == 1 && t'.issues[id].updatedAt == c.now
            && ParentsOf(t'.links, id) == Sent(Asked(r), []) && OnlyLinksOf(t.links, t'.links, id, c)
            && t'.activity == t.activity + [Event(id, Created, c.actor, c.now, r.title, r.description, None, None, None)] +
                              Told(Sent(Asked(r), []), Linked, id, c)
  {
    hide Inv, Create, CreateError, LinksKept, Applied, NewIssue, Stored, WantedParents, Asked, Takes, Rewritten, ParentsOf,
         OnlyLinksOf, Told;
    CreateTables(lower, t, r, c);
    var parents := Sent(Asked(r), []);
    NewIsBlank(c);
    AppliedTakes(NewIssue(c), r, c);
    CreatedLinks(lower, t, r, c);
    ToldIs(parents, Linked, t.next, c);
    NewVersion(c);
  }

  lemma NewVersion(c: Context)
    ensures NewIssue(c).version == 0
  {
  }

  lemma CreateTables(lower: Lower, t: Tracker, r: Request, c: Context)
    requires Create(lower, t, r, c).1.Ok?
    ensures var (t', result) := Create(lower, t, r, c);
            var parents := Sent(Asked(r), []);
            && result == Ok(t.next) && t'.next == t.next + 1 && CreateError(t, r, c).None?
            && t'.issues == t.issues[t.next := Stored(Applied(NewIssue(c), r), c)]
            && t'.links == Rewritten(t.links, t.next, [], parents, c.actor, c.now)
            && t'.activity == t.activity + [Event(t.next, Created, c.actor, c.now, r.title, r.description, None, None, None)] +
                              Traces(parents, Linked, t.next, c)
  {
    AskedExactly(r);
    var _ := CreateExactly(t, r, c);
    hide CreateError, Applied, NewIssue, Stored, WantedParents, Asked, Askable, Rewritten, Traces, OnFields, FieldsSound,
         DepsSound, Ready, ParentsExist;
  }

  lemma CreatedLinks(lower: Lower, t: Tracker, r: Request, c: Context)
    requires Inv(lower, t) && CreateError(t, r, c).None?
    ensures var parents := Sent(Asked(r), []);
            var links := Rewritten(t.links, t.next, [], parents, c.actor, c.now);
            t.next !in t.issues && ParentsOf(links, t.next) == parents && OnlyLinksOf(t.links, links, t.next, c)
  {
    AskedExactly(r);
    var _ := CreateExactly(t, r, c);
    hide CreateError, TextKept, BlocksKept, WantedParents, Asked, Rewritten, ParentsOf, OnlyLinksOf, FieldsSound, DepsSound,
         Ready, Acyclic;
    var parents := Sent(Asked(r), []);
    NoParentsYet(t.issues.Keys, t.links, t.next);
    NewParents(t, parents, c);
    RewrittenOnly(t.links, t.next, parents, c);
  }

  // ---------------------------------------------------------------- update

  ghost predicate Updatable(t: Tracker, id: int, r: Request, issue: Issue, c: Context)
    requires id in t.issues
  {
    var had := ParentsOf(t.links, id);
    var want := Sent(Asked(r), had);
    && (r.version.Some? ==> r.version.value == t.issues[id].version)
    && FieldsSound(issue, c.directory) && DepsSound(t.issues, id, issue.blockedBy) && Ready(t.issues[id := issue], issue)
    && (want != had ==> ParentsExist(t.issues.Keys, want) && ParentsFit(Edges(t.links), id, want))
    && (c.limited ==> forall p :: p in want ==> p in had)
  }

  lemma MinusSome(a: seq<int>, b: seq<int>)
    ensures |Minus(a, b)| > 0 <==> exists x :: x in a && x !in b
  {
    if |Minus(a, b)| > 0 { assert Minus(a, b)[0] in Minus(a, b); }
    if x :| x in a && x !in b { assert x in Minus(a, b); }
  }

  /**
   * An update is accepted exactly for an existing issue, the version the caller has seen if one is sent, and sound
   * fields, dependencies and parents.
   */
  lemma UpdateExactly(t: Tracker, id: int, r: Request, c: Context) returns (issue: Issue)
    ensures id in t.issues ==> Takes(t.issues[id], r, issue)
    ensures UpdateError(t, id, r, c).None? <==> Askable(r) && id in t.issues && Updatable(t, id, r, issue, c)
    ensures Askable(r) && id !in t.issues ==> UpdateError(t, id, r, c) == Some(IssueNotFound)
    ensures Askable(r) && id in t.issues && r.version.Some? && r.version.value != t.issues[id].version ==>
              UpdateError(t, id, r, c) == Some(VersionConflict)
  {
    hide Applied, NewIssue, WantedParents, Asked, Askable, FieldsError, FieldsSound, DependencyError, DepsSound, Unready, Ready,
         ParentsError, ParentsExist, ParentsFit, Takes, Edges, ParentsOf, Minus;
    AskedExactly(r);
    issue := NewIssue(c);
    if id in t.issues {
      issue := Applied(t.issues[id], r);
      var had := ParentsOf(t.links, id);
      var want := Sent(Asked(r), had);
      AppliedTakes(t.issues[id], r, c);
      FieldsExactly(issue, c.directory);
      DepsExactly(t.issues, id, issue.blockedBy);
      ReadyExactly(t.issues[id := issue], issue);
      ParentsExactly(t.issues.Keys, Edges(t.links), id, want);
      MinusSome(want, had);
      assert want == had ==> forall p :: p in want ==> p in had;
    }
  }

  ghost predicate SameElements(a: seq<int>, b: seq<int>) {
    forall x :: x in a <==> x in b
  }

  /**
   * What an update leaves: the sent fields over the old ones, one version more, the parents asked for or the old ones,
   * every other issue as it was, and the event of the update followed by one event for each parent gained or lost.
   */
  lemma UpdateMeans(lower: Lower, t: Tracker, id: int, r: Request, c: Context) returns (gained: seq<int>, lost: seq<int>)
    requires Inv(lower, t) && Update(lower, t, id, r, c).1.Ok?
    ensures var (t', result) := Update(lower, t, id, r, c);
            && result == Ok(id) && id in t.issues && t'.next == t.next
            && id in t'.issues && t'.issues == t.issues[id := t'.issues[id]]
            && Takes(t.issues[id], r, t'.issues[id])
            && t'.issues[id].version == t.issues[id].version + 1 && t'.issues[id].updatedAt == c.now
            && SameElements(ParentsOf(t'.links, id), Sent(Asked(r), ParentsOf(t.links, id)))
            && (Asked(r).None? ==> t'.links == t.links) && OnlyLinksOf(t.links, t'.links, id, c)
            && t'.activity == t.activity + [Event(id, Updated, c.actor, c.now, r.title, r.description, None, None, None)] +
                              (Told(gained, Linked, id, c) + Told(lost, Unlinked, id, c))
            && (forall p :: p in gained <==> p in ParentsOf(t'.links, id) && p !in ParentsOf(t.links, id))
            && (forall p :: p in lost <==> p in ParentsOf(t.links, id) && p !in ParentsOf(t'.links, id))
    ensures Distinct(gained) && Distinct(lost)
  {
    var had := ParentsOf(t.links, id);
    var want := Or(WantedParents(r).value, had);
    gained, lost := Minus(want, had), Minus(had, want);
    AskedExactly(r);
    var _ := UpdateExactly(t, id, r, c);
    AppliedTakes(t.issues[id], r, c);
    ParentsAre(t.links, id);
    ToldIs(gained, Linked, id, c);
    ToldIs(lost, Unlinked, id, c);
    WantDistinct(t, id, r, c);
    LinksSound(lower, t);
    if want != had {
      RewrittenOnly(t.links, id, want, c);
      RewrittenParents(t.links, id, want, c.actor, c.now);
      ElementsSame(ParentsOf(AfterUpdate(lower, t, id, r, c).links, id), want);
    } else {
      SameLinks(t.links, id, c);
    }
    hide Inv, UpdateError, LinksKept, Applied, Stored, WantedParents, Asked, Takes, Rewritten, ParentsOf, OnlyLinksOf, Traces, Told,
         OnFields, Updatable, Askable;
  }

  lemma SameLinks(links: Links, id: int, c: Context)
    ensures OnlyLinksOf(links, links, id, c)
  {
  }

  lemma ElementsSame(a: seq<int>, b: seq<int>)
    requires Elements(a) == Elements(b)
    ensures SameElements(a, b)
  {
    forall x ensures x in a <==> x in b {
      assert x in Elements(a) <==> x in Elements(b);
    }
  }

  lemma WantDistinct(t: Tracker, id: int, r: Request, c: Context)
    requires UpdateError(t, id, r, c).None? && Distinct(ParentsOf(t.links, id))
    ensures WantedParents(r).Ok? && Distinct(Or(WantedParents(r).value, ParentsOf(t.links, id)))
  {
  }

  // ---------------------------------------------------------------- comments

  /** One trimmed line of at most 200 bytes. */
  ghost predicate TitleSound(s: string) {
    && Text(s, 200) && Says(s) && s != "" && !Space(s[0]) && !Space(s[|s| - 1])
    && forall ch :: ch in s ==> '\U{1f}' < ch && !('\U{7f}' <= ch <= '\U{9f}') && ch != '\U{2028}' && ch != '\U{2029}'
  }

  lemma TitleExactly(s: string)
    ensures TextOk(s, COMMENT_TITLE_BYTES, false) && OneTrimmedLine(s) <==> TitleSound(s)
  {
    TextExactly(s, 200);
    assert !Says("");
    if TitleSound(s) {
      forall i | 0 <= i < |s| ensures !Control(s[i]) {
        assert s[i] in s;
      }
    }
  }

  ghost predicate CommentSound(comment: Comment) {
    && Text(comment.body, 8192) && Says(comment.body)
    && (comment.title.Some? ==> TitleSound(comment.title.value))
  }

  /** A comment is accepted exactly on an existing issue, with something to say and a title of one line, if any. */
  lemma CommentExactly(t: Tracker, id: int, comment: Comment)
    ensures CommentError(t, id, comment).None? <==> id in t.issues && CommentSound(comment)
    ensures CommentError(t, id, comment) == Some(IssueNotFound) <==> id !in t.issues
  {
    TextExactly(comment.body, 8192);
    if comment.title.Some? { TitleExactly(comment.title.value); }
    hide TextOk, OneTrimmedLine, Text, Says, TitleSound;
  }

  // The issue after any change: one version more.
  ghost function Touched(issue: Issue, c: Context): Issue {
    issue.(version := issue.version + 1, updatedAt := c.now)
  }

  /** What a comment leaves: one event that carries it, and the issue touched. */
  lemma CommentMeans(lower: Lower, t: Tracker, id: int, comment: Comment, c: Context)
    requires AddComment(lower, t, id, comment, c).1.Ok?
    ensures var (t', result) := AddComment(lower, t, id, comment, c);
            && result == Ok(|t.activity| + 1) && id in t.issues && CommentSound(comment)
            && t' == t.(docs := t'.docs, issues := t.issues[id := Touched(t.issues[id], c)],
                        activity := t.activity + [Event(id, Commented, c.actor, c.now, None, None, Some(comment), None, None)])
  {
    CommentExactly(t, id, comment);
    hide CommentError, CommentSound, OnComment;
  }

  // ---------------------------------------------------------------- hiding and restoring

  ghost function Veil(conceal: bool, c: Context): Option<Mark> {
    if conceal then Some(Mark(c.actor, c.now)) else None
  }

  ghost function HideEvent(id: int, conceal: bool, about: Option<int>, c: Context): Event {
    Event(id, if conceal then Hid else Restored, c.actor, c.now, None, None, None, about, None)
  }

  /** Hiding or restoring an issue: only its mark and version change, and only if it was not so already. */
  lemma HideIssueMeans(t: Tracker, id: int, conceal: bool, c: Context)
    ensures var (t', e) := SetHidden(t, id, None, conceal, c);
            && (e == if id in t.issues then None else Some(IssueNotFound))
            && (t' == if id !in t.issues || t.issues[id].hidden.Some? == conceal then t
                      else t.(issues := t.issues[id := Touched(t.issues[id], c).(hidden := Veil(conceal, c))],
                              activity := t.activity + [HideEvent(id, conceal, None, c)]))
  {
  }

  ghost predicate CommentAt(t: Tracker, id: int, event: int) {
    id in t.issues && 1 <= event <= |t.activity| && t.activity[event - 1].issue == id && t.activity[event - 1].kind == Commented
  }

  /** Hiding or restoring a comment: only comments of this issue, and only the mark of that one event changes. */
  lemma HideCommentMeans(t: Tracker, id: int, event: int, conceal: bool, c: Context)
    ensures var (t', e) := SetHidden(t, id, Some(event), conceal, c);
            && (e.None? <==> CommentAt(t, id, event))
            && (e == Some(NotAComment) ==> id in t.issues && 1 <= event <= |t.activity| && t.activity[event - 1].kind != Commented)
            && (if e.Some? || t.activity[event - 1].hidden.Some? == conceal then t' == t
                else
                  t' == t.(activity := t.activity[event - 1 := t.activity[event - 1].(hidden := Veil(conceal, c))] +
                                       [HideEvent(id, conceal, Some(event), c)]))
  {
  }

  // ---------------------------------------------------------------- versions

  /** No step takes an issue away, and an issue that changes has one version more. */
  lemma VersionsGrow(lower: Lower, t: Tracker, s: Step, c: Context, id: int)
    requires Inv(lower, t) && id in t.issues
    ensures var t' := Next(lower, t, s, c);
            id in t'.issues && (t'.issues[id] == t.issues[id] || t'.issues[id].version == t.issues[id].version + 1)
  {
    hide Inv, Create, Update, AddComment, LinkChildren, SetHidden;
    match s
    case CreateStep(r) =>
      if Create(lower, t, r, c).1.Ok? { CreateMeans(lower, t, r, c); }
      CreateFails(lower, t, r, c);
    case UpdateStep(n, r) =>
      if Update(lower, t, n, r, c).1.Ok? { var _, _ := UpdateMeans(lower, t, n, r, c); }
      UpdateFails(lower, t, n, r, c);
    case CommentStep(n, comment) =>
      if AddComment(lower, t, n, comment, c).1.Ok? { CommentMeans(lower, t, n, comment, c); }
      CommentFails(lower, t, n, comment, c);
    case LinkStep(parent, add, remove) =>
      BatchExactly(lower, t, parent, add, remove, c);
      if LinkChildren(t, parent, add, remove, c).1.None? { var _, _ := BatchMeans(lower, t, parent, add, remove, c); }
    case HideStep(n, event, conceal) =>
      if event.None? { HideIssueMeans(t, n, conceal, c); } else { HideCommentMeans(t, n, event.value, conceal, c); }
  }

  lemma CreateFails(lower: Lower, t: Tracker, r: Request, c: Context)
    ensures Create(lower, t, r, c).1.Err? ==> Create(lower, t, r, c).0 == t
  {
    hide CreateError, AfterCreate;
  }

  lemma UpdateFails(lower: Lower, t: Tracker, id: int, r: Request, c: Context)
    ensures Update(lower, t, id, r, c).1.Err? ==> Update(lower, t, id, r, c).0 == t
  {
    hide UpdateError, AfterUpdate;
  }

  lemma CommentFails(lower: Lower, t: Tracker, id: int, comment: Comment, c: Context)
    ensures AddComment(lower, t, id, comment, c).1.Err? ==> AddComment(lower, t, id, comment, c).0 == t
  {
    hide CommentError, AfterComment;
  }

  lemma {:induction false} VersionsOverRuns(lower: Lower, steps: seq<(Step, Context)>, i: nat, id: int)
    requires i <= |steps| && id in Run(lower, steps[..i]).issues
    ensures var was, now := Run(lower, steps[..i]).issues, Run(lower, steps).issues;
            id in now && now[id].version >= was[id].version
    decreases |steps|
  {
    if i == |steps| {
      assert steps[..i] == steps;
    } else {
      var rest, last := steps[..|steps| - 1], steps[|steps| - 1];
      assert rest[..i] == steps[..i];
      VersionsOverRuns(lower, rest, i, id);
      RunKeeps(lower, rest);
      hide Inv, Next;
      VersionsGrow(lower, Run(lower, rest), last.0, last.1, id);
    }
  }

  // The update of step i, as it met the state before it.
  ghost predicate UpdatedAt(lower: Lower, steps: seq<(Step, Context)>, i: nat, id: int, version: int)
    requires i < |steps|
  {
    && steps[i].0.UpdateStep? && steps[i].0.id == id && steps[i].0.r.version == Some(version)
    && Update(lower, Run(lower, steps[..i]), id, steps[i].0.r, steps[i].1).1.Ok?
  }

  lemma VersionSpent(lower: Lower, t: Tracker, id: int, r: Request, c: Context)
    requires Inv(lower, t) && Update(lower, t, id, r, c).1.Ok? && r.version.Some?
    ensures id in t.issues && t.issues[id].version == r.version.value
    ensures var t' := Update(lower, t, id, r, c).0; id in t'.issues && t'.issues[id].version == r.version.value + 1
  {
    hide Inv, Update, UpdateError, Takes, OnlyLinksOf, FieldsSound, DepsSound, Ready, ParentsExist, ParentsFit;
    var _, _ := UpdateMeans(lower, t, id, r, c);
    var _ := UpdateExactly(t, id, r, c);
    UpdateOkMeans(lower, t, id, r, c);
  }

  lemma UpdateOkMeans(lower: Lower, t: Tracker, id: int, r: Request, c: Context)
    ensures Update(lower, t, id, r, c).1.Ok? <==> UpdateError(t, id, r, c).None?
  {
    hide UpdateError, AfterUpdate;
  }

  lemma StepIs(lower: Lower, steps: seq<(Step, Context)>, i: nat, id: int, version: int)
    requires i < |steps| && UpdatedAt(lower, steps, i, id, version)
    ensures Run(lower, steps[..i + 1]) == Update(lower, Run(lower, steps[..i]), id, steps[i].0.r, steps[i].1).0
  {
    hide Update;
    assert steps[..i + 1][..i] == steps[..i] && steps[..i + 1][i] == steps[i];
  }

  /** Of all updates of an issue that name the same version, at most one ever succeeds, whatever else is written in between. */
  lemma OneUpdatePerVersion(lower: Lower, steps: seq<(Step, Context)>, i: nat, j: nat, id: int, version: int)
    requires i < j < |steps| && UpdatedAt(lower, steps, i, id, version)
    ensures !UpdatedAt(lower, steps, j, id, version)
  {
    hide Inv, Update, Run;
    RunKeeps(lower, steps[..i]);
    VersionSpent(lower, Run(lower, steps[..i]), id, steps[i].0.r, steps[i].1);
    StepIs(lower, steps, i, id, version);
    assert steps[..j][..i + 1] == steps[..i + 1];
    VersionsOverRuns(lower, steps[..j], i + 1, id);
    if UpdatedAt(lower, steps, j, id, version) {
      RunKeeps(lower, steps[..j]);
      VersionSpent(lower, Run(lower, steps[..j]), id, steps[j].0.r, steps[j].1);
    }
  }
}
