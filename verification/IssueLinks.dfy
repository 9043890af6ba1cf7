/** The table of parent links: its order, the graph it stands for, and the checks before it is rewritten. */
module IssueLinks {
  import opened Prelude
  import opened IssueGraph

  const MAX_PARENTS := 50
  const MAX_CHILDREN := 50

  // One row of issue_parents.
  datatype Link = Link(child: int, parent: int, who: string, at: int)

  // The rows in the order in which they are read: by time, then by row id.
  type Links = seq<Link>

  datatype Error =
    | InvalidFields | InvalidField | InvalidId | TooManyParents | IssueNotFound | HierarchyTooLarge | HierarchyCycle | TooManyChildren
    | RateLimited | AssigneeUnavailable | DependencyCycle | VersionConflict | DependenciesUnresolved
    | EventNotFound | NotAComment

  // ---------------------------------------------------------------- the graph

  function Edges(links: Links): Graph {
    if links == [] then {}
    else
      var last := links[|links| - 1];
      Edges(links[..|links| - 1]) + {(last.parent, last.child)}
  }

  /** `parent_ids` of one issue, oldest link first. */
  function ParentsOf(links: Links, child: int): seq<int> {
    if links == [] then []
    else
      var last := links[|links| - 1];
      ParentsOf(links[..|links| - 1], child) + (if last.child == child then [last.parent] else [])
  }

  /** The table's primary key: no two rows for the same child and parent. */
  ghost predicate Unique(links: Links) {
    links == [] ||
    var last := links[|links| - 1];
    Unique(links[..|links| - 1]) && (last.parent, last.child) !in Edges(links[..|links| - 1])
  }

  ghost predicate Until(links: Links, t: int) {
    links == [] || (links[|links| - 1].at <= t && Until(links[..|links| - 1], t))
  }

  /** Oldest row first. */
  ghost predicate Ordered(links: Links) {
    links == [] || (Ordered(links[..|links| - 1]) && Until(links[..|links| - 1], links[|links| - 1].at))
  }

  ghost function Children(g: Graph, parent: int): (r: set<int>)
    ensures forall c :: c in r <==> (parent, c) in g
  {
    set e | e in g && e.0 == parent :: e.1
  }

  lemma {:induction false} ParentsAre(links: Links, child: int)
    ensures forall p :: p in ParentsOf(links, child) <==> (p, child) in Edges(links)
    ensures Unique(links) ==> Distinct(ParentsOf(links, child))
  {
    if links != [] { ParentsAre(links[..|links| - 1], child); }
  }

  // ---------------------------------------------------------------- inserting and deleting rows

  /** A new row has the largest row id, so it follows every row of the same time. */
  function Insert(links: Links, l: Link): Links {
    if links == [] || links[|links| - 1].at <= l.at then links + [l]
    else Insert(links[..|links| - 1], l) + [links[|links| - 1]]
  }

  function Without(links: Links, child: int, parents: set<int>): Links {
    if links == [] then []
    else
      var last := links[|links| - 1];
      var rest := Without(links[..|links| - 1], child, parents);
      if last.child == child && last.parent in parents then rest else rest + [last]
  }

  function Minus(a: seq<int>, b: seq<int>): (r: seq<int>)
    ensures forall x :: x in r <==> x in a && x !in b
    ensures Distinct(a) ==> Distinct(r)
  {
    if a == [] then []
    else
      var last := a[|a| - 1];
      assert a == a[..|a| - 1] + [last];
      Minus(a[..|a| - 1], b) + (if last in b then [] else [last])
  }

  function InsertAll(links: Links, child: int, parents: seq<int>, who: string, now: int): Links {
    if parents == [] then links
    else Insert(InsertAll(links, child, parents[..|parents| - 1], who, now),
                Link(child, parents[|parents| - 1], who, now))
  }

  /** `hierarchy.write`: the difference between two parent lists, removals first. */
  function Rewritten(links: Links, child: int, before: seq<int>, after: seq<int>, who: string, now: int): Links {
    InsertAll(Without(links, child, Elements(Minus(before, after))), child, Minus(after, before), who, now)
  }

  // One more row at the end.
  lemma Snoc(links: Links, l: Link)
    ensures (links + [l])[..|links|] == links
    ensures Edges(links + [l]) == Edges(links) + {(l.parent, l.child)}
    ensures Unique(links + [l]) <==> Unique(links) && (l.parent, l.child) !in Edges(links)
    ensures Ordered(links + [l]) <==> Ordered(links) && Until(links, l.at)
    ensures forall t :: Until(links + [l], t) <==> l.at <= t && Until(links, t)
  {
  }

  lemma {:induction false} UntilLater(links: Links, t: int, u: int)
    requires Until(links, t) && t <= u
    ensures Until(links, u)
  {
    if links != [] { UntilLater(links[..|links| - 1], t, u); }
  }

  lemma {:induction false} InsertKeeps(links: Links, l: Link)
    requires Unique(links) && Ordered(links) && (l.parent, l.child) !in Edges(links)
    ensures Unique(Insert(links, l)) && Ordered(Insert(links, l))
    ensures Edges(Insert(links, l)) == Edges(links) + {(l.parent, l.child)}
    ensures forall t :: Until(links, t) && l.at <= t ==> Until(Insert(links, l), t)
  {
    if links == [] {
      Snoc(links, l);
    } else {
      var rest, last := links[..|links| - 1], links[|links| - 1];
      if last.at <= l.at {
        UntilLater(rest, last.at, l.at);
        Snoc(links, l);
      } else {
        InsertKeeps(rest, l);
        Snoc(Insert(rest, l), last);
      }
    }
  }

  ghost function Cut(g: Graph, child: int, parents: set<int>): Graph {
    set e | e in g && !(e.1 == child && e.0 in parents)
  }

  lemma CutAdd(g: Graph, child: int, parents: set<int>, a: int, b: int)
    ensures Cut(g, child, parents) <= g
    ensures Cut(g + {(a, b)}, child, parents) ==
            Cut(g, child, parents) + if b == child && a in parents then {} else {(a, b)}
  {
  }

  lemma {:induction false} WithoutKeeps(links: Links, child: int, parents: set<int>)
    requires Unique(links) && Ordered(links)
    ensures Unique(Without(links, child, parents)) && Ordered(Without(links, child, parents))
    ensures Edges(Without(links, child, parents)) == Cut(Edges(links), child, parents)
    ensures forall t :: Until(links, t) ==> Until(Without(links, child, parents), t)
  {
    if links != [] {
      var rest, last := links[..|links| - 1], links[|links| - 1];
      WithoutKeeps(rest, child, parents);
      Snoc(Without(rest, child, parents), last);
      CutAdd(Edges(rest), child, parents, last.parent, last.child);
      hide Cut;
    }
  }

  ghost function Pointing(parents: seq<int>, child: int): Graph {
    set p | p in parents :: (p, child)
  }

  lemma PointingSnoc(parents: seq<int>, child: int)
    requires parents != [] && Distinct(parents)
    ensures var rest, last := parents[..|parents| - 1], parents[|parents| - 1];
            Pointing(parents, child) == Pointing(rest, child) + {(last, child)} && (last, child) !in Pointing(rest, child)
  {
  }

  lemma {:induction false} InsertAllKeeps(links: Links, child: int, parents: seq<int>, who: string, now: int)
    requires Unique(links) && Ordered(links) && Distinct(parents)
    requires forall p :: p in parents ==> (p, child) !in Edges(links)
    ensures var r := InsertAll(links, child, parents, who, now);
            Unique(r) && Ordered(r) && Edges(r) == Edges(links) + Pointing(parents, child)
  {
    if parents == [] {
      assert Pointing(parents, child) == {};
    } else {
      var rest, last := parents[..|parents| - 1], parents[|parents| - 1];
      PointingSnoc(parents, child);
      hide Edges, Unique, Ordered, Insert, Pointing;
      InsertAllKeeps(links, child, rest, who, now);
      assert last in parents;
      InsertKeeps(InsertAll(links, child, rest, who, now), Link(child, last, who, now));
    }
  }

  // Deleting the removed edges and adding the new ones is repointing.
  lemma CutAndPoint(g: Graph, child: int, before: seq<int>, after: seq<int>)
    requires forall p :: p in before <==> (p, child) in g
    ensures Cut(g, child, Elements(Minus(before, after))) + Pointing(Minus(after, before), child) ==
            Repoint(g, child, Elements(after))
    ensures forall p :: p in Minus(after, before) ==> (p, child) !in Cut(g, child, Elements(Minus(before, after)))
  {
    var l := Cut(g, child, Elements(Minus(before, after))) + Pointing(Minus(after, before), child);
    forall a, b ensures (a, b) in l <==> (a, b) in Repoint(g, child, Elements(after)) {
      RepointEdges(g, child, Elements(after), a, b);
    }
    hide Minus, Elements, Cut, Pointing, Repoint;
    SameGraph(l, Repoint(g, child, Elements(after)));
  }

  lemma SameGraph(g: Graph, h: Graph)
    requires forall a, b :: (a, b) in g <==> (a, b) in h
    ensures g == h
  {
    forall e: (int, int) ensures e in g <==> e in h {
      var (a, b) := e;
      assert (a, b) in g <==> (a, b) in h;
    }
  }

  /** Rewriting the parents of one issue repoints its incoming edges and touches nothing else. */
  lemma RewrittenRepoints(links: Links, child: int, after: seq<int>, who: string, now: int)
    requires Unique(links) && Ordered(links) && Distinct(after)
    ensures var r := Rewritten(links, child, ParentsOf(links, child), after, who, now);
            && Unique(r) && Ordered(r)
            && Edges(r) == Repoint(Edges(links), child, Elements(after))
  {
    hide Edges, ParentsOf, Without, InsertAll, Unique, Ordered, Repoint, Pointing, Cut;
    var before := ParentsOf(links, child);
    var gone := Elements(Minus(before, after));
    ParentsAre(links, child);
    CutAndPoint(Edges(links), child, before, after);
    WithoutKeeps(links, child, gone);
    InsertAllKeeps(Without(links, child, gone), child, Minus(after, before), who, now);
  }

  lemma ParentsSnoc(links: Links, l: Link, child: int)
    ensures ParentsOf(links + [l], child) == ParentsOf(links, child) + if l.child == child then [l.parent] else []
  {
  }

  lemma {:induction false} InsertOthers(links: Links, l: Link, other: int)
    requires other != l.child
    ensures ParentsOf(Insert(links, l), other) == ParentsOf(links, other)
  {
    if links == [] || links[|links| - 1].at <= l.at {
      ParentsSnoc(links, l, other);
    } else {
      InsertOthers(links[..|links| - 1], l, other);
      ParentsSnoc(Insert(links[..|links| - 1], l), links[|links| - 1], other);
    }
  }

  lemma {:induction false} WithoutOthers(links: Links, child: int, parents: set<int>, other: int)
    requires other != child
    ensures ParentsOf(Without(links, child, parents), other) == ParentsOf(links, other)
  {
    if links != [] {
      WithoutOthers(links[..|links| - 1], child, parents, other);
      ParentsSnoc(Without(links[..|links| - 1], child, parents), links[|links| - 1], other);
    }
  }

  lemma {:induction false} InsertAllOthers(links: Links, child: int, parents: seq<int>, who: string, now: int, other: int)
    requires other != child
    ensures ParentsOf(InsertAll(links, child, parents, who, now), other) == ParentsOf(links, other)
  {
    if parents != [] {
      var rest, last := parents[..|parents| - 1], parents[|parents| - 1];
      InsertAllOthers(links, child, rest, who, now, other);
      InsertOthers(InsertAll(links, child, rest, who, now), Link(child, last, who, now), other);
    }
  }

  lemma RewrittenOthers(links: Links, child: int, before: seq<int>, after: seq<int>, who: string, now: int, other: int)
    requires other != child
    ensures ParentsOf(Rewritten(links, child, before, after, who, now), other) == ParentsOf(links, other)
  {
    var gone := Elements(Minus(before, after));
    WithoutOthers(links, child, gone, other);
    InsertAllOthers(Without(links, child, gone), child, Minus(after, before), who, now, other);
  }

  /** The rewritten issue has exactly the parents asked for. */
  lemma RewrittenParents(links: Links, child: int, after: seq<int>, who: string, now: int)
    requires Unique(links) && Ordered(links) && Distinct(after)
    ensures var r := ParentsOf(Rewritten(links, child, ParentsOf(links, child), after, who, now), child);
            Elements(r) == Elements(after) && Distinct(r) && |r| == |after|
  {
    hide Rewritten;
    var links' := Rewritten(links, child, ParentsOf(links, child), after, who, now);
    var r := ParentsOf(links', child);
    RewrittenRepoints(links, child, after, who, now);
    ParentsAre(links', child);
    forall p ensures p in r <==> p in after {
      RepointEdges(Edges(links), child, Elements(after), p, child);
    }
    assert Elements(r) == Elements(after);
    DistinctSize(r);
    DistinctSize(after);
  }

  lemma WithoutSnoc(links: Links, l: Link, child: int, parents: set<int>)
    ensures Without(links + [l], child, parents) ==
            Without(links, child, parents) + if l.child == child && l.parent in parents then [] else [l]
  {
  }

  /** Unlinking undoes linking, row for row. */
  lemma {:induction false} UnlinkUndoesLink(links: Links, l: Link)
    requires (l.parent, l.child) !in Edges(links)
    ensures Without(Insert(links, l), l.child, {l.parent}) == links
  {
    if links == [] || links[|links| - 1].at <= l.at {
      WithoutSnoc(links, l, l.child, {l.parent});
      NothingToRemove(links, l.child, {l.parent});
    } else {
      UnlinkUndoesLink(links[..|links| - 1], l);
      WithoutSnoc(Insert(links[..|links| - 1], l), links[|links| - 1], l.child, {l.parent});
    }
  }

  lemma {:induction false} NothingToRemove(links: Links, child: int, parents: set<int>)
    requires forall p :: p in parents ==> (p, child) !in Edges(links)
    ensures Without(links, child, parents) == links
  {
    if links != [] { NothingToRemove(links[..|links| - 1], child, parents); }
  }

  // ---------------------------------------------------------------- the checks

  /** The first refusal in list order: a parent at or below the child, or one that is full. */
  ghost function LinkError(g: Graph, child: int, parents: seq<int>): Option<Error> {
    if parents == [] then None
    else if Reachable(g, child, parents[0]) then Some(HierarchyCycle)
    else if (parents[0], child) !in g && |Children(g, parents[0])| >= MAX_CHILDREN then Some(TooManyChildren)
    else LinkError(g, child, parents[1..])
  }

  ghost function ParentsError(issues: set<int>, g: Graph, child: Option<int>, parents: seq<int>): Option<Error> {
    if (exists p :: p in parents && p < 1) || !Distinct(parents) then Some(InvalidField)
    else if |parents| > MAX_PARENTS then Some(TooManyParents)
    else if exists p :: p in parents && p !in issues then Some(IssueNotFound)
    else if child.None? then None
    else if |Descendants(g, child.value)| >= MAX_NODES then Some(HierarchyTooLarge)
    else LinkError(g, child.value, parents)
  }

  /** What an accepted list promises. */
  lemma {:induction false} LinkErrorNone(g: Graph, child: int, parents: seq<int>)
    ensures LinkError(g, child, parents).None? ==> forall p :: p in parents ==> !Reachable(g, child, p)
  {
    if parents != [] {
      LinkErrorNone(g, child, parents[1..]);
      assert parents == [parents[0]] + parents[1..];
    }
  }

  /** `attach`: the children of every parent. */
  method Attach(links: Links) returns (kids: map<int, seq<int>>)
    requires Unique(links)
    ensures KidsOf(kids, Edges(links))
    ensures forall p :: p in kids ==> Distinct(kids[p])
  {
    kids := map[];
    var i := 0;
    while i < |links|
      invariant 0 <= i <= |links| && KidsOf(kids, Edges(links[..i]))
      invariant forall p :: p in kids ==> Distinct(kids[p])
    {
      var l := links[i];
      AttachStep(links, i);
      AddKid(kids, Edges(links[..i]), l.parent, l.child);
      kids := kids[l.parent := (if l.parent in kids then kids[l.parent] else []) + [l.child]];
      i := i + 1;
    }
    assert links[..|links|] == links;
  }

  lemma {:induction false} UniquePrefix(links: Links, n: nat)
    requires n <= |links| && Unique(links)
    ensures Unique(links[..n])
  {
    if n < |links| {
      UniquePrefix(links[..|links| - 1], n);
      assert links[..|links| - 1][..n] == links[..n];
    } else {
      assert links[..n] == links;
    }
  }

  // One more edge.
  lemma AddKid(kids: map<int, seq<int>>, g: Graph, parent: int, child: int)
    requires KidsOf(kids, g) && (parent, child) !in g
    requires forall p :: p in kids ==> Distinct(kids[p])
    ensures var kids' := kids[parent := (if parent in kids then kids[parent] else []) + [child]];
            KidsOf(kids', g + {(parent, child)}) && forall p :: p in kids' ==> Distinct(kids'[p])
  {
  }

  lemma AttachStep(links: Links, i: nat)
    requires i < |links| && Unique(links)
    ensures var e := (links[i].parent, links[i].child);
            e !in Edges(links[..i]) && Edges(links[..i + 1]) == Edges(links[..i]) + {e}
  {
    assert links[..i + 1] == links[..i] + [links[i]];
    UniquePrefix(links, i + 1);
    Snoc(links[..i], links[i]);
  }

  lemma KidsCount(kids: map<int, seq<int>>, g: Graph, parent: int)
    requires KidsOf(kids, g) && forall p :: p in kids ==> Distinct(kids[p])
    ensures |Children(g, parent)| == if parent in kids then |kids[parent]| else 0
  {
    var mine := if parent in kids then kids[parent] else [];
    forall c ensures c in Children(g, parent) <==> c in Elements(mine) {
      assert (parent, c) in g <==> parent in kids && c in kids[parent];
    }
    assert Children(g, parent) == Elements(mine);
    DistinctSize(mine);
  }

  /** `check_parents`: a walk and three loops, against the graph it is about. */
  method CheckParents(issues: set<int>, links: Links, child: Option<int>, parents: seq<int>) returns (e: Option<Error>)
    requires Unique(links)
    ensures e == ParentsError(issues, Edges(links), child, parents)
  {
    var low := exists p :: p in parents && p < 1;
    if low { return Some(InvalidField); }
    DistinctBySize(parents);
    if |Elements(parents)| != |parents| { return Some(InvalidField); }
    if |parents| > MAX_PARENTS { return Some(TooManyParents); }
    var missing := exists p :: p in parents && p !in issues;
    if missing { return Some(IssueNotFound); }
    if child.None? { return None; }
    ghost var g := Edges(links);
    var kids := Attach(links);
    var below, truncated := DescendantsWalk(kids, child.value, g);
    if truncated { return Some(HierarchyTooLarge); }
    var current := ParentsOf(links, child.value);
    ParentsAre(links, child.value);
    e := CheckEach(kids, child.value, parents, below, current, g);
  }

  lemma {:induction false} DistinctBySize(s: seq<int>)
    ensures |Elements(s)| <= |s|
    ensures |Elements(s)| == |s| <==> Distinct(s)
  {
    if s != [] {
      var rest, last := s[..|s| - 1], s[|s| - 1];
      DistinctBySize(rest);
      assert s == rest + [last];
      assert Elements(s) == Elements(rest) + {last};
      assert last in rest ==> Elements(s) == Elements(rest);
    }
  }

  method CheckEach(kids: map<int, seq<int>>, child: int, parents: seq<int>, below: seq<int>, current: seq<int>, ghost g: Graph)
    returns (e: Option<Error>)
    requires KidsOf(kids, g) && (forall p :: p in kids ==> Distinct(kids[p]))
    requires Elements(below) == Descendants(g, child)
    requires forall p :: p in current <==> (p, child) in g
    ensures e == LinkError(g, child, parents)
  {
    var i := 0;
    while i < |parents|
      invariant 0 <= i <= |parents|
      invariant LinkError(g, child, parents) == LinkError(g, child, parents[i..])
    {
      var parent := parents[i];
      assert parents[i..][1..] == parents[i + 1..];
      Forbidden(g, child, parent);
      if parent in below || parent == child { return Some(HierarchyCycle); }
      KidsCount(kids, g, parent);
      var count := if parent in kids then |kids[parent]| else 0;
      if parent !in current && count >= MAX_CHILDREN { return Some(TooManyChildren); }
      i := i + 1;
    }
    return None;
  }

  lemma Forbidden(g: Graph, child: int, x: int)
    ensures Reachable(g, child, x) <==> x == child || x in Descendants(g, child)
  {
    BelowIsReachable(g, child, x);
    ReachSelf(g, child);
  }

  /** `write`: delete what is gone, insert what is new. */
  method Write(links: Links, child: int, before: seq<int>, after: seq<int>, who: string, now: int)
    returns (r: Links, added: seq<int>, removed: seq<int>)
    ensures r == Rewritten(links, child, before, after, who, now)
    ensures added == Minus(after, before) && removed == Minus(before, after)
  {
    added, removed := Minus(after, before), Minus(before, after);
    r := DeleteRows(links, child, removed);
    var kept := r;
    assert added[..0] == [];
    var i := 0;
    while i < |added|
      invariant 0 <= i <= |added| && r == InsertAll(kept, child, added[..i], who, now)
    {
      assert added[..i + 1][..i] == added[..i];
      r := Insert(r, Link(child, added[i], who, now));
      i := i + 1;
    }
    assert added[..|added|] == added;
  }

  method DeleteRows(links: Links, child: int, removed: seq<int>) returns (r: Links)
    ensures r == Without(links, child, Elements(removed))
  {
    r := links;
    var i := 0;
    NothingToRemove(links, child, {});
    assert Elements(removed[..0]) == {};
    while i < |removed|
      invariant 0 <= i <= |removed| && r == Without(links, child, Elements(removed[..i]))
    {
      WithoutTwice(links, child, Elements(removed[..i]), {removed[i]});
      assert Elements(removed[..i + 1]) == Elements(removed[..i]) + {removed[i]};
      r := Without(r, child, {removed[i]});
      i := i + 1;
    }
    assert removed[..|removed|] == removed;
  }

  lemma {:induction false} WithoutTwice(links: Links, child: int, a: set<int>, b: set<int>)
    ensures Without(Without(links, child, a), child, b) == Without(links, child, a + b)
  {
    if links != [] {
      WithoutTwice(links[..|links| - 1], child, a, b);
      WithoutSnoc(Without(links[..|links| - 1], child, a), links[|links| - 1], child, b);
    }
  }
}
