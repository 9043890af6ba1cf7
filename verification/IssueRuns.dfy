/** What every write of the issue tracker keeps, and so what holds after any run. */
module IssueRuns {
  import opened Prelude
  import opened UnicodeText
  import opened IssueData
  import opened IssueGraph
  import opened IssueLinks
  import opened SearchIndex
  import opened IndexAgreement
  import opened IssueTracker

  // ---------------------------------------------------------------- the parent relation

  ghost predicate LinksKept(issues: set<int>, links: Links) {
    && Unique(links) && Ordered(links) && Acyclic(Edges(links))
    && (forall a, b :: (a, b) in Edges(links) ==> a in issues && b in issues)
    && (forall child :: |ParentsOf(links, child)| <= MAX_PARENTS)
  }

  lemma BoundKept(links: Links, child: int, after: seq<int>, who: string, now: int)
    requires Unique(links) && Ordered(links) && Distinct(after) && |after| <= MAX_PARENTS
    requires forall c :: |ParentsOf(links, c)| <= MAX_PARENTS
    ensures forall c :: |ParentsOf(Rewritten(links, child, ParentsOf(links, child), after, who, now), c)| <= MAX_PARENTS
  {
    var r := Rewritten(links, child, ParentsOf(links, child), after, who, now);
    forall c ensures |ParentsOf(r, c)| <= MAX_PARENTS {
      assert |ParentsOf(links, c)| <= MAX_PARENTS;
      if c == child {
        RewrittenParents(links, child, after, who, now);
      } else {
        RewrittenOthers(links, child, ParentsOf(links, child), after, who, now, c);
      }
    }
  }

  lemma RepointEnds(issues: set<int>, g: Graph, child: int, sources: set<int>)
    requires forall a, b :: (a, b) in g ==> a in issues && b in issues
    requires child in issues && sources <= issues
    ensures forall a, b :: (a, b) in Repoint(g, child, sources) ==> a in issues && b in issues
  {
  }

  // The common end of every rewrite: what is left to show is that no new parent lies at or below the child.
  lemma RewriteKept(issues: set<int>, links: Links, child: int, after: seq<int>, who: string, now: int)
    requires LinksKept(issues, links) && child in issues && Elements(after) <= issues
    requires Distinct(after) && |after| <= MAX_PARENTS
    requires Acyclic(Repoint(Edges(links), child, Elements(after)))
    ensures LinksKept(issues, Rewritten(links, child, ParentsOf(links, child), after, who, now))
  {
    hide Unique, Ordered, Edges, ParentsOf, Rewritten, Acyclic, Repoint;
    RewrittenRepoints(links, child, after, who, now);
    BoundKept(links, child, after, who, now);
    RepointEnds(issues, Edges(links), child, Elements(after));
  }

  /** Parents that `check_parents` accepts for an existing issue keep the relation acyclic and bounded. */
  lemma AcceptedKept(issues: set<int>, links: Links, child: int, after: seq<int>, who: string, now: int)
    requires LinksKept(issues, links) && child in issues
    requires ParentsError(issues, Edges(links), Some(child), after).None?
    ensures LinksKept(issues, Rewritten(links, child, ParentsOf(links, child), after, who, now))
  {
    LinkErrorNone(Edges(links), child, after);
    RepointAcyclic(Edges(links), child, Elements(after));
    RewriteKept(issues, links, child, after, who, now);
  }

  // An issue outside the graph leads nowhere.
  lemma {:induction false} Isolated(g: Graph, node: int, b: int, n: nat)
    requires Reach(g, node, b, n) && forall a, c :: (a, c) in g ==> a != node
    ensures b == node
    decreases n
  {
    if n > 0 {
      var c :| Reach(g, node, c, n - 1) && (c, b) in g;
      Isolated(g, node, c, n - 1);
    }
  }

  lemma FreshAcyclic(g: Graph, node: int, sources: set<int>)
    requires Acyclic(g) && node !in sources && forall a, c :: (a, c) in g ==> a != node
    ensures Acyclic(Repoint(g, node, sources))
  {
    forall s | s in sources ensures !Reachable(g, node, s) {
      if n: nat :| Reach(g, node, s, n) { Isolated(g, node, s, n); }
    }
    RepointAcyclic(g, node, sources);
  }

  lemma NoParentsYet(issues: set<int>, links: Links, id: int)
    requires LinksKept(issues, links) && id !in issues
    ensures ParentsOf(links, id) == []
  {
    ParentsAre(links, id);
    forall p ensures p !in ParentsOf(links, id) {
      assert (p, id) !in Edges(links);
    }
    SomeElement(ParentsOf(links, id));
  }

  lemma SomeElement(s: seq<int>)
    ensures s != [] ==> exists x :: x in s
  {
    if s != [] {
      var x := s[0];
      assert x in s;
    }
  }

  lemma ElementsWithin(s: seq<int>, big: set<int>)
    requires forall x :: x in s ==> x in big
    ensures Elements(s) <= big
  {
    forall x | x in Elements(s) ensures x in big { }
  }

  /** A new issue may take any existing parents. */
  lemma NewIssueKept(issues: set<int>, links: Links, id: int, after: seq<int>, who: string, now: int)
    requires LinksKept(issues, links) && id !in issues
    requires ParentsError(issues, Edges(links), None, after).None?
    ensures LinksKept(issues + {id}, Rewritten(links, id, [], after, who, now))
  {
    NoParentsYet(issues, links, id);
    ParentsKnown(issues, Edges(links), None, after);
    FreshAcyclic(Edges(links), id, Elements(after));
    ElementsWithin(after, issues + {id});
    RewriteKept(issues + {id}, links, id, after, who, now);
  }

  /** Dropping parents needs no check. */
  lemma FewerParentsKept(issues: set<int>, links: Links, child: int, gone: int, who: string, now: int)
    requires LinksKept(issues, links) && child in issues
    ensures var had := ParentsOf(links, child);
            LinksKept(issues, Rewritten(links, child, had, Minus(had, [gone]), who, now))
  {
    var g := Edges(links);
    var had := ParentsOf(links, child);
    var after := Minus(had, [gone]);
    ParentsAre(links, child);
    forall p | p in after ensures p in issues { assert (p, child) in g; }
    DistinctSize(had);
    DistinctSize(after);
    SubsetSize(Elements(after), Elements(had));
    forall a, b | (a, b) in Repoint(g, child, Elements(after)) ensures (a, b) in g {
      RepointEdges(g, child, Elements(after), a, b);
    }
    Subgraph(Repoint(g, child, Elements(after)), g);
    SubgraphAcyclic(Repoint(g, child, Elements(after)), g);
    RewriteKept(issues, links, child, after, who, now);
  }

  lemma Subgraph(small: Graph, big: Graph)
    requires forall a, b :: (a, b) in small ==> (a, b) in big
    ensures small <= big
  {
    forall e: (int, int) | e in small ensures e in big {
      var (a, b) := e;
      assert (a, b) in small;
    }
  }

  // ---------------------------------------------------------------- the dependency relation

  ghost predicate BlocksKept(issues: Issues) {
    && Closed(Deps(issues)) && Acyclic(Blocking(Deps(issues)))
    && forall id :: id in issues ==> Distinct(issues[id].blockedBy) && |issues[id].blockedBy| <= 50
  }

  lemma {:induction false} MissingNone(issues: set<int>, deps: seq<int>)
    ensures MissingError(issues, deps).None? ==> forall d :: d in deps ==> 1 <= d && d in issues
  {
    if deps != [] {
      MissingNone(issues, deps[1..]);
      assert deps == [deps[0]] + deps[1..];
    }
  }

  lemma BlockingEdges(deps: map<int, seq<int>>, a: int, b: int)
    ensures (a, b) in Blocking(deps) <==> b in deps && a in deps[b]
  {
  }

  lemma BlockingRepoints(issues: Issues, id: int, issue: Issue)
    ensures Blocking(Deps(issues[id := issue])) == Repoint(Blocking(Deps(issues)), id, Elements(issue.blockedBy))
  {
  }

  lemma BlocksWritten(issues: Issues, id: int, issue: Issue)
    requires BlocksKept(issues) && Distinct(issue.blockedBy) && |issue.blockedBy| <= 50
    requires forall d :: d in issue.blockedBy ==> d in issues
    requires Acyclic(Repoint(Blocking(Deps(issues)), id, Elements(issue.blockedBy)))
    ensures BlocksKept(issues[id := issue])
  {
    BlockingRepoints(issues, id, issue);
    hide Acyclic, Blocking, Repoint, Distinct;
    var deps := Deps(issues[id := issue]);
    forall i, d | i in deps && d in deps[i] ensures d in deps {
      if i != id {
        assert i in Deps(issues) && d in Deps(issues)[i];
        assert d in Deps(issues);
      }
    }
  }

  /** An accepted update keeps the dependencies acyclic. */
  lemma UpdateBlocks(issues: Issues, id: int, issue: Issue)
    requires BlocksKept(issues) && DependencyError(issues, id, issue.blockedBy).None?
    ensures BlocksKept(issues[id := issue])
  {
    MissingNone(issues.Keys, issue.blockedBy);
    RepointAcyclic(Blocking(Deps(issues)), id, Elements(issue.blockedBy));
    BlocksWritten(issues, id, issue);
  }

  /** So does an accepted create, although it is checked under another id. */
  lemma CreateBlocks(issues: Issues, id: int, issue: Issue)
    requires BlocksKept(issues) && id !in issues && DependencyError(issues, UNSAVED, issue.blockedBy).None?
    ensures BlocksKept(issues[id := issue])
  {
    var g := Blocking(Deps(issues));
    MissingNone(issues.Keys, issue.blockedBy);
    forall a, b | (a, b) in g ensures a != id {
      BlockingEdges(Deps(issues), a, b);
      assert a in Deps(issues);
    }
    FreshAcyclic(g, id, Elements(issue.blockedBy));
    BlocksWritten(issues, id, issue);
  }

  lemma SameBlocks(issues: Issues, id: int, issue: Issue)
    requires BlocksKept(issues) && id in issues && issue.blockedBy == issues[id].blockedBy
    ensures BlocksKept(issues[id := issue])
  {
    assert Deps(issues[id := issue]) == Deps(issues);
    hide Deps, Closed, Acyclic, Blocking, Distinct;
  }

  // ---------------------------------------------------------------- the whole state

  ghost predicate Numbered(t: Tracker) {
    t.next >= 1 && forall id :: id in t.issues <==> 1 <= id < t.next
  }

  ghost predicate TextKept(lower: Lower, t: Tracker) {
    Agrees(lower, t.docs, t.issues, t.activity) && Explains(t.issues, t.activity)
  }

  /** Both graphs are sound, and the index is what a rebuild would derive. */
  ghost predicate Inv(lower: Lower, t: Tracker) {
    Numbered(t) && LinksKept(t.issues.Keys, t.links) && BlocksKept(t.issues) && TextKept(lower, t)
  }

  lemma EmptyInv(lower: Lower)
    ensures Inv(lower, EMPTY)
  {
  }

  lemma TracesQuiet(ids: seq<int>, kind: Kind, child: int, c: Context)
    requires kind.Linked? || kind.Unlinked?
    ensures |Traces(ids, kind, child, c)| == |ids|
    ensures forall i :: 0 <= i < |ids| ==> Quiet(Traces(ids, kind, child, c)[i]) && Traces(ids, kind, child, c)[i].issue == ids[i]
  {
  }

  lemma TextWritten(lower: Lower, t: Tracker, id: int, before: Option<Issue>, issue: Issue, e: Event, more: Activity)
    requires TextKept(lower, t) && Before(t.issues, t.activity, id, before) && Describes(e, before, issue) && e.issue == id
    requires forall i :: 0 <= i < |more| ==> Quiet(more[i]) && more[i].issue in t.issues
    ensures Agrees(lower, OnFields(lower, t.docs, id, before, issue, e.actor, e.at), t.issues[id := issue],
                   t.activity + [e] + more)
    ensures Explains(t.issues[id := issue], t.activity + [e] + more)
  {
    WriteAgrees(lower, t.docs, t.issues, t.activity, id, before, issue, e);
    QuietRun(lower, OnFields(lower, t.docs, id, before, issue, e.actor, e.at), t.issues[id := issue], t.activity + [e], more);
  }

  // A title is never empty, so a create always records one.
  lemma CreateDescribes(t: Tracker, r: Request, c: Context)
    requires CreateError(t, r, c).None?
    ensures Describes(Recorded(t.next, Created, r, c), None, Stored(Applied(NewIssue(c), r), c))
  {
  }

  lemma ParentsKnown(issues: set<int>, g: Graph, child: Option<int>, parents: seq<int>)
    requires ParentsError(issues, g, child, parents).None?
    ensures forall p :: p in parents ==> p in issues
  {
  }

  lemma CreateLinks(t: Tracker, r: Request, c: Context)
    requires LinksKept(t.issues.Keys, t.links) && Numbered(t) && CreateError(t, r, c).None?
    ensures var parents := Or(WantedParents(r).value, []);
            && LinksKept(t.issues.Keys + {t.next}, Rewritten(t.links, t.next, [], parents, c.actor, c.now))
            && forall p :: p in parents ==> p in t.issues
  {
    hide ValidateError, LinksKept, Rewritten, Unready;
    var parents := Or(WantedParents(r).value, []);
    if parents != [] {
      ParentsKnown(t.issues.Keys, Edges(t.links), None, parents);
    } else {
      NoneRefused(t.issues.Keys, Edges(t.links));
    }
    hide ParentsError;
    assert ParentsError(t.issues.Keys, Edges(t.links), None, parents).None?;
    NewIssueKept(t.issues.Keys, t.links, t.next, parents, c.actor, c.now);
  }

  lemma NoneRefused(issues: set<int>, g: Graph)
    ensures ParentsError(issues, g, None, []).None?
  {
  }

  lemma CreatedText(lower: Lower, t: Tracker, r: Request, c: Context)
    requires TextKept(lower, t) && Numbered(t) && LinksKept(t.issues.Keys, t.links) && CreateError(t, r, c).None?
    ensures TextKept(lower, AfterCreate(lower, t, r, c))
  {
    var issue := Stored(Applied(NewIssue(c), r), c);
    var parents := Or(WantedParents(r).value, []);
    var e := Recorded(t.next, Created, r, c);
    CreateDescribes(t, r, c);
    CreateLinks(t, r, c);
    TracesQuiet(parents, Linked, t.next, c);
    assert t.next !in t.issues && e.issue == t.next && e.actor == c.actor && e.at == c.now;
    hide CreateError, LinksKept, Agrees, Explains, Describes, OnFields, Rewritten, Recorded, Traces, Stored, Applied, Trace,
         Quiet;
    TextWritten(lower, t, t.next, None, issue, e, Traces(parents, Linked, t.next, c));
  }

  lemma CreatedParts(lower: Lower, t: Tracker, r: Request, c: Context)
    requires Numbered(t) && WantedParents(r).Ok?
    ensures var t' := AfterCreate(lower, t, r, c);
            && Numbered(t') && t'.issues.Keys == t.issues.Keys + {t.next}
            && t'.issues == t.issues[t.next := Stored(Applied(NewIssue(c), r), c)]
            && t'.links == Rewritten(t.links, t.next, [], Or(WantedParents(r).value, []), c.actor, c.now)
  {
  }

  /** A create keeps everything, refused or not. */
  lemma CreateKeeps(lower: Lower, t: Tracker, r: Request, c: Context)
    requires Inv(lower, t)
    ensures Inv(lower, Create(lower, t, r, c).0)
  {
    if CreateError(t, r, c).None? {
      var issue := Stored(Applied(NewIssue(c), r), c);
      CreatedText(lower, t, r, c);
      CreateLinks(t, r, c);
      CreateDeps(t, r, c);
      CreateBlocks(t.issues, t.next, issue);
      hide CreateError, LinksKept, BlocksKept, TextKept, OnFields, Rewritten, Recorded, Traces, Stored, Applied, DependencyError,
           Or, NewIssue;
      CreatedParts(lower, t, r, c);
    }
  }

  lemma CreateDeps(t: Tracker, r: Request, c: Context)
    requires CreateError(t, r, c).None?
    ensures DependencyError(t.issues, UNSAVED, Stored(Applied(NewIssue(c), r), c).blockedBy).None?
  {
  }

  lemma UpdateLinks(t: Tracker, id: int, r: Request, c: Context)
    requires LinksKept(t.issues.Keys, t.links) && UpdateError(t, id, r, c).None?
    ensures var had := ParentsOf(t.links, id);
            var want := Or(WantedParents(r).value, had);
            && LinksKept(t.issues.Keys, if want == had then t.links else Rewritten(t.links, id, had, want, c.actor, c.now))
            && (forall p :: p in Minus(want, had) ==> p in t.issues)
            && (forall p :: p in Minus(had, want) ==> p in t.issues)
  {
    var had := ParentsOf(t.links, id);
    var want := Or(WantedParents(r).value, had);
    ParentsAre(t.links, id);
    forall p | p in had ensures p in t.issues { assert (p, id) in Edges(t.links); }
    hide ValidateError, LinksKept, Rewritten, Unready, ParentsOf;
    if want != had {
      ParentsKnown(t.issues.Keys, Edges(t.links), Some(id), want);
      hide ParentsError;
      AcceptedKept(t.issues.Keys, t.links, id, want, c.actor, c.now);
    }
  }

  lemma UpdateDescribes(lower: Lower, t: Tracker, id: int, r: Request, c: Context)
    requires UpdateError(t, id, r, c).None? && TextKept(lower, t)
    ensures Describes(Recorded(id, Updated, r, c), Some(t.issues[id]), Stored(Applied(t.issues[id], r), c))
    ensures Before(t.issues, t.activity, id, Some(t.issues[id]))
    ensures DependencyError(t.issues, id, Stored(Applied(t.issues[id], r), c).blockedBy).None?
  {
  }

  lemma UpdatedText(lower: Lower, t: Tracker, id: int, r: Request, c: Context)
    requires TextKept(lower, t) && LinksKept(t.issues.Keys, t.links) && UpdateError(t, id, r, c).None?
    ensures TextKept(lower, AfterUpdate(lower, t, id, r, c))
  {
    var issue := Stored(Applied(t.issues[id], r), c);
    var had := ParentsOf(t.links, id);
    var want := Or(WantedParents(r).value, had);
    var e := Recorded(id, Updated, r, c);
    var more := Traces(Minus(want, had), Linked, id, c) + Traces(Minus(had, want), Unlinked, id, c);
    UpdateDescribes(lower, t, id, r, c);
    UpdateLinks(t, id, r, c);
    TracesQuiet(Minus(want, had), Linked, id, c);
    TracesQuiet(Minus(had, want), Unlinked, id, c);
    assert e.issue == id && e.actor == c.actor && e.at == c.now;
    hide UpdateError, LinksKept, Agrees, Explains, Describes, OnFields, Rewritten, Recorded, Traces, Stored, Applied, Trace,
         Quiet, Minus, Before, DependencyError, ParentsOf;
    TextWritten(lower, t, id, Some(t.issues[id]), issue, e, more);
  }

  /** An update keeps everything. */
  lemma UpdateKeeps(lower: Lower, t: Tracker, id: int, r: Request, c: Context)
    requires Inv(lower, t)
    ensures Inv(lower, Update(lower, t, id, r, c).0)
  {
    if UpdateError(t, id, r, c).None? {
      var issue := Stored(Applied(t.issues[id], r), c);
      UpdatedText(lower, t, id, r, c);
      UpdateDescribes(lower, t, id, r, c);
      UpdateLinks(t, id, r, c);
      hide UpdateError, LinksKept, BlocksKept, TextKept, OnFields, Rewritten, Recorded, Traces, Stored, Applied, DependencyError,
           Minus, ParentsOf, Describes, Before;
      UpdateBlocks(t.issues, id, issue);
      assert t.issues[id := issue].Keys == t.issues.Keys;
    }
  }

  lemma StoredText(issue: Issue, c: Context)
    ensures SameText(issue, Stored(issue, c)) && Stored(issue, c).blockedBy == issue.blockedBy
  {
  }

  lemma CommentedText(lower: Lower, t: Tracker, id: int, comment: Comment, c: Context)
    requires TextKept(lower, t) && id in t.issues
    ensures TextKept(lower, AfterComment(lower, t, id, comment, c))
  {
    var issue := Stored(t.issues[id], c);
    var e := Event(id, Commented, c.actor, c.now, None, None, Some(comment), None, None);
    StoredText(t.issues[id], c);
    hide Agrees, Explains, OnComment, Stored, SameText;
    CommentAgrees(lower, t.docs, t.issues, t.activity, e, issue);
  }

  /** A comment keeps everything. */
  lemma CommentKeeps(lower: Lower, t: Tracker, id: int, comment: Comment, c: Context)
    requires Inv(lower, t)
    ensures Inv(lower, AddComment(lower, t, id, comment, c).0)
  {
    hide CommentError, LinksKept, BlocksKept, TextKept, OnComment, Stored, Deps;
    if id in t.issues {
      CommentedText(lower, t, id, comment, c);
      StoredText(t.issues[id], c);
      SameBlocks(t.issues, id, Stored(t.issues[id], c));
      assert t.issues[id := Stored(t.issues[id], c)].Keys == t.issues.Keys;
    }
    NoSuchIssue(t, id, comment);
  }

  lemma NoSuchIssue(t: Tracker, id: int, comment: Comment)
    ensures id !in t.issues ==> CommentError(t, id, comment).Some?
  {
  }

  /** Hiding and restoring keep everything. */
  lemma HideKeeps(lower: Lower, t: Tracker, id: int, event: Option<int>, conceal: bool, c: Context)
    requires Inv(lower, t)
    ensures Inv(lower, SetHidden(t, id, event, conceal, c).0)
  {
    if id in t.issues {
      if event.None? {
        HideIssueKeeps(lower, t, id, conceal, c);
      } else {
        HideCommentKeeps(lower, t, id, event.value, conceal, c);
      }
    }
  }

  lemma HideIssueKeeps(lower: Lower, t: Tracker, id: int, conceal: bool, c: Context)
    requires Inv(lower, t) && id in t.issues
    ensures Inv(lower, HideIssue(t, id, conceal, c))
  {
    if t.issues[id].hidden.Some? != conceal {
      var t' := HideIssue(t, id, conceal, c);
      SameBlocks(t.issues, id, t'.issues[id]);
      hide LinksKept, BlocksKept, Agrees, Explains;
      QuietAgrees(lower, t.docs, t.issues, t.activity, t'.activity[|t.activity|], id, t'.issues[id]);
      assert t'.issues.Keys == t.issues.Keys;
    }
  }

  lemma HideCommentKeeps(lower: Lower, t: Tracker, id: int, event: int, conceal: bool, c: Context)
    requires Inv(lower, t) && id in t.issues
    ensures Inv(lower, HideComment(t, id, event, conceal, c).0)
  {
    hide LinksKept, BlocksKept, Agrees, Explains;
    var t' := HideComment(t, id, event, conceal, c).0;
    if t' != t {
      var i := event - 1;
      var mark := if conceal then Some(Mark(c.actor, c.now)) else None;
      var marked := t.activity[i := t.activity[i].(hidden := mark)];
      MarkAgrees(lower, t.docs, t.issues, t.activity, i, mark);
      QuietAgrees(lower, t.docs, t.issues, marked, Trace(id, if conceal then Hid else Restored, Some(event), c), id, t.issues[id]);
      assert t.issues[id := t.issues[id]] == t.issues;
    }
  }

  // ---------------------------------------------------------------- batches of links

  lemma RelinkedText(lower: Lower, t: Tracker, parent: int, child: int, want: seq<int>, kind: Kind, c: Context)
    requires TextKept(lower, t) && parent in t.issues && child in t.issues && (kind.Linked? || kind.Unlinked?)
    ensures TextKept(lower, Relinked(t, parent, child, want, kind, c))
  {
    hide Agrees, Explains, Rewritten;
    QuietRun(lower, t.docs, t.issues, t.activity, [Trace(parent, kind, Some(child), c), Trace(child, kind, Some(parent), c)]);
  }

  lemma LinkOneKeeps(lower: Lower, t: Tracker, parent: int, child: int, c: Context)
    requires Inv(lower, t) && parent in t.issues
    ensures var r := LinkOne(t, parent, child, c); r.Ok? ==> Inv(lower, r.value) && r.value.issues == t.issues
  {
    hide Agrees, Explains, LinksKept, BlocksKept, Rewritten, ParentsError;
    var had := ParentsOf(t.links, child);
    var r := LinkOne(t, parent, child, c);
    if r.Ok? && parent !in had {
      AcceptedKept(t.issues.Keys, t.links, child, had + [parent], c.actor, c.now);
      RelinkedText(lower, t, parent, child, had + [parent], Linked, c);
    }
  }

  lemma {:induction false} LinkAllKeeps(lower: Lower, t: Tracker, parent: int, children: seq<int>, c: Context)
    requires Inv(lower, t) && parent in t.issues
    ensures var r := LinkAll(t, parent, children, c); r.Ok? ==> Inv(lower, r.value) && r.value.issues == t.issues
  {
    hide Inv, LinkOne;
    if children != [] {
      LinkAllKeeps(lower, t, parent, children[..|children| - 1], c);
      var before := LinkAll(t, parent, children[..|children| - 1], c);
      if before.Ok? { LinkOneKeeps(lower, before.value, parent, children[|children| - 1], c); }
    }
  }

  lemma UnlinkOneKeeps(lower: Lower, t: Tracker, parent: int, child: int, c: Context)
    requires Inv(lower, t) && parent in t.issues
    ensures var r := UnlinkOne(t, parent, child, c); r.Ok? ==> Inv(lower, r.value) && r.value.issues == t.issues
  {
    hide Agrees, Explains, LinksKept, BlocksKept, Rewritten;
    var had := ParentsOf(t.links, child);
    var r := UnlinkOne(t, parent, child, c);
    if r.Ok? && parent in had {
      FewerParentsKept(t.issues.Keys, t.links, child, parent, c.actor, c.now);
      RelinkedText(lower, t, parent, child, Minus(had, [parent]), Unlinked, c);
    }
  }

  lemma {:induction false} UnlinkAllKeeps(lower: Lower, t: Tracker, parent: int, children: seq<int>, c: Context)
    requires Inv(lower, t) && parent in t.issues
    ensures var r := UnlinkAll(t, parent, children, c); r.Ok? ==> Inv(lower, r.value) && r.value.issues == t.issues
  {
    hide Inv, UnlinkOne;
    if children != [] {
      UnlinkAllKeeps(lower, t, parent, children[..|children| - 1], c);
      var before := UnlinkAll(t, parent, children[..|children| - 1], c);
      if before.Ok? { UnlinkOneKeeps(lower, before.value, parent, children[|children| - 1], c); }
    }
  }

  /** A batch keeps everything, whichever links it adds and removes on the way. */
  lemma BatchKeeps(lower: Lower, t: Tracker, parent: int, add: seq<int>, remove: seq<int>, c: Context)
    requires Inv(lower, t)
    ensures Inv(lower, LinkChildren(t, parent, add, remove, c).0)
  {
    hide Inv, LinkAll, UnlinkAll;
    if BatchError(t, parent, add, remove, c).None? {
      LinkAllKeeps(lower, t, parent, Dedupe(add), c);
      var added := LinkAll(t, parent, Dedupe(add), c);
      if added.Ok? { UnlinkAllKeeps(lower, added.value, parent, Dedupe(remove), c); }
    }
  }

  // ---------------------------------------------------------------- runs

  datatype Step =
    | CreateStep(r: Request)
    | UpdateStep(id: int, r: Request)
    | CommentStep(id: int, comment: Comment)
    | LinkStep(parent: int, add: seq<int>, remove: seq<int>)
    | HideStep(id: int, event: Option<int>, hidden: bool)

  ghost function Next(lower: Lower, t: Tracker, s: Step, c: Context): Tracker {
    match s
    case CreateStep(r) => Create(lower, t, r, c).0
    case UpdateStep(id, r) => Update(lower, t, id, r, c).0
    case CommentStep(id, comment) => AddComment(lower, t, id, comment, c).0
    case LinkStep(parent, add, remove) => LinkChildren(t, parent, add, remove, c).0
    case HideStep(id, event, hidden) => SetHidden(t, id, event, hidden, c).0
  }

  ghost function Run(lower: Lower, steps: seq<(Step, Context)>): Tracker {
    if steps == [] then EMPTY
    else Next(lower, Run(lower, steps[..|steps| - 1]), steps[|steps| - 1].0, steps[|steps| - 1].1)
  }

  lemma NextKeeps(lower: Lower, t: Tracker, s: Step, c: Context)
    requires Inv(lower, t)
    ensures Inv(lower, Next(lower, t, s, c))
  {
    hide Inv, Create, Update, AddComment, LinkChildren, SetHidden;
    match s
    case CreateStep(r) => CreateKeeps(lower, t, r, c);
    case UpdateStep(id, r) => UpdateKeeps(lower, t, id, r, c);
    case CommentStep(id, comment) => CommentKeeps(lower, t, id, comment, c);
    case LinkStep(parent, add, remove) => BatchKeeps(lower, t, parent, add, remove, c);
    case HideStep(id, event, hidden) => HideKeeps(lower, t, id, event, hidden, c);
  }

  lemma {:induction false} RunKeeps(lower: Lower, steps: seq<(Step, Context)>)
    ensures Inv(lower, Run(lower, steps))
  {
    hide Inv, Next;
    if steps == [] {
      EmptyInv(lower);
    } else {
      RunKeeps(lower, steps[..|steps| - 1]);
      NextKeeps(lower, Run(lower, steps[..|steps| - 1]), steps[|steps| - 1].0, steps[|steps| - 1].1);
    }
  }

  /** After any run the parent relation is acyclic, and every issue has at most 50 parents, all different. */
  lemma ParentsStayAcyclic(lower: Lower, steps: seq<(Step, Context)>)
    ensures var t := Run(lower, steps);
            && Acyclic(Edges(t.links))
            && forall child :: Distinct(ParentsOf(t.links, child)) && |ParentsOf(t.links, child)| <= MAX_PARENTS
  {
    RunKeeps(lower, steps);
    var t := Run(lower, steps);
    forall child ensures Distinct(ParentsOf(t.links, child)) && |ParentsOf(t.links, child)| <= MAX_PARENTS {
      ParentsAre(t.links, child);
    }
  }

  /** Which issue waits for which: d blocks i. */
  ghost function Waits(issues: Issues): Graph {
    set i, d | i in issues && d in issues[i].blockedBy :: (d, i)
  }

  lemma WaitsAre(issues: Issues)
    ensures Waits(issues) == Blocking(Deps(issues))
    ensures Closed(Deps(issues)) <==> forall i, d :: i in issues && d in issues[i].blockedBy ==> d in issues
  {
    if forall i, d :: i in issues && d in issues[i].blockedBy ==> d in issues {
      forall i, d | i in Deps(issues) && d in Deps(issues)[i] ensures d in Deps(issues) { }
    }
    if Closed(Deps(issues)) {
      forall i, d | i in issues && d in issues[i].blockedBy ensures d in issues {
        assert i in Deps(issues) && d in Deps(issues)[i];
        assert d in Deps(issues);
      }
    }
  }

  /** After any run no issue waits for itself, however long the chain, and none for an issue that does not exist. */
  lemma DependenciesStayAcyclic(lower: Lower, steps: seq<(Step, Context)>)
    ensures var issues := Run(lower, steps).issues;
            Acyclic(Waits(issues)) && forall i, d :: i in issues && d in issues[i].blockedBy ==> d in issues
  {
    RunKeeps(lower, steps);
    WaitsAre(Run(lower, steps).issues);
  }

  /** After any run the index holds, key by key, exactly the documents that replaying the activity derives. */
  lemma IndexIsTheRebuild(lower: Lower, steps: seq<(Step, Context)>, key: Key)
    ensures var t := Run(lower, steps);
            At(t.docs, key) == DocAt(lower, t.issues, t.activity, key)
  {
    RunKeeps(lower, steps);
    var t := Run(lower, steps);
    assert Agrees(lower, t.docs, t.issues, t.activity);
  }
}
