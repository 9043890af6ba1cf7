/** What linking and unlinking children does, on the tables before and after; and exactly when a batch is accepted. */
module LinkBatch {
  import opened Prelude
  import opened IssueData
  import opened IssueGraph
  import opened IssueLinks
  import opened SearchIndex
  import opened IssueTracker
  import opened IssueRuns

  // ---------------------------------------------------------------- rows

  /** Rows that stay keep who linked them and when; new rows carry the caller and the time. */
  ghost predicate Stamped(a: Links, b: Links, who: string, now: int) {
    && (forall l :: l in b ==> l in a || (l.who == who && l.at == now))
    && (forall l :: l in a ==> l in b || (l.parent, l.child) !in Edges(b))
  }

  lemma {:induction false} InsertRows(links: Links, l: Link)
    ensures forall x :: x in Insert(links, l) <==> x in links || x == l
  {
    if links != [] && links[|links| - 1].at > l.at {
      var rest, last := links[..|links| - 1], links[|links| - 1];
      InsertRows(rest, l);
      assert links == rest + [last];
    }
  }

  lemma {:induction false} WithoutRows(links: Links, child: int, parents: set<int>)
    ensures forall x :: x in Without(links, child, parents) <==> x in links && !(x.child == child && x.parent in parents)
  {
    if links != [] {
      var rest, last := links[..|links| - 1], links[|links| - 1];
      WithoutRows(rest, child, parents);
      assert links == rest + [last];
    }
  }

  lemma {:induction false} InsertAllRows(links: Links, child: int, parents: seq<int>, who: string, now: int)
    ensures forall x :: x in InsertAll(links, child, parents, who, now) <==>
                        x in links || (x.child == child && x.parent in parents && x.who == who && x.at == now)
  {
    if parents != [] {
      var rest, last := parents[..|parents| - 1], parents[|parents| - 1];
      InsertAllRows(links, child, rest, who, now);
      InsertRows(InsertAll(links, child, rest, who, now), Link(child, last, who, now));
      assert parents == rest + [last];
    }
  }

  lemma {:induction false} EdgeOfRow(links: Links, l: Link)
    requires l in links
    ensures (l.parent, l.child) in Edges(links)
  {
    var rest, last := links[..|links| - 1], links[|links| - 1];
    assert links == rest + [last];
    if l != last { EdgeOfRow(rest, l); }
  }

  lemma RewrittenStamped(links: Links, child: int, after: seq<int>, who: string, now: int)
    requires Unique(links) && Ordered(links) && Distinct(after)
    ensures Stamped(links, Rewritten(links, child, ParentsOf(links, child), after, who, now), who, now)
  {
    var before := ParentsOf(links, child);
    var gone := Elements(Minus(before, after));
    var r := Rewritten(links, child, before, after, who, now);
    WithoutRows(links, child, gone);
    InsertAllRows(Without(links, child, gone), child, Minus(after, before), who, now);
    RewrittenRepoints(links, child, after, who, now);
    hide Edges, Unique, Ordered, Repoint, Without, InsertAll, ParentsOf;
    forall l | l in links && l !in r ensures (l.parent, l.child) !in Edges(r) {
      RepointEdges(Edges(links), child, Elements(after), l.parent, l.child);
    }
  }

  lemma StampedTwice(a: Links, b: Links, d: Links, who: string, now: int)
    requires Stamped(a, b, who, now) && Stamped(b, d, who, now) && Edges(a) <= Edges(b) <= Edges(d)
    ensures Stamped(a, d, who, now)
  {
    forall l | l in a ensures l in d {
      EdgeOfRow(a, l);
      EdgeOfRow(b, l);
    }
  }

  // ---------------------------------------------------------------- events

  /** One pair of events for each child: on the parent, about the child; and on the child, about the parent. */
  ghost function Noted(parent: int, kids: seq<int>, kind: Kind, c: Context): Activity {
    if kids == [] then []
    else
      var child := kids[|kids| - 1];
      Noted(parent, kids[..|kids| - 1], kind, c) +
      [Event(parent, kind, c.actor, c.now, None, None, None, Some(child), None),
       Event(child, kind, c.actor, c.now, None, None, None, Some(parent), None)]
  }

  lemma NotedSnoc(parent: int, kids: seq<int>, child: int, kind: Kind, c: Context)
    ensures Noted(parent, kids + [child], kind, c) == Noted(parent, kids, kind, c) + Noted(parent, [child], kind, c)
  {
    assert (kids + [child])[..|kids|] == kids;
    assert [child][..0] == [];
  }

  // ---------------------------------------------------------------- linking

  ghost function Under(parent: int, kids: seq<int>): Graph {
    set k | k in kids :: (parent, k)
  }

  ghost predicate SameOthers(a: Links, b: Links, kids: seq<int>) {
    forall x :: x !in kids ==> ParentsOf(b, x) == ParentsOf(a, x)
  }

  /** Every one of the children is new under the parent, and nothing else has happened. */
  ghost predicate Gained(t: Tracker, t': Tracker, parent: int, kids: seq<int>, c: Context) {
    && t' == t.(links := t'.links, activity := t.activity + Noted(parent, kids, Linked, c))
    && Edges(t'.links) == Edges(t.links) + Under(parent, kids)
    && SameOthers(t.links, t'.links, kids) && Stamped(t.links, t'.links, c.actor, c.now)
  }

  ghost predicate Lost(t: Tracker, t': Tracker, parent: int, kids: seq<int>, c: Context) {
    && t' == t.(links := t'.links, activity := t.activity + Noted(parent, kids, Unlinked, c))
    && Edges(t'.links) == Edges(t.links) - Under(parent, kids)
    && SameOthers(t.links, t'.links, kids) && Stamped(t.links, t'.links, c.actor, c.now)
  }

  lemma OneUnder(parent: int, child: int)
    ensures Under(parent, [child]) == {(parent, child)}
  {
  }

  lemma AddedEdge(g: Graph, child: int, had: seq<int>, parent: int)
    requires forall p :: p in had <==> (p, child) in g
    ensures Repoint(g, child, Elements(had + [parent])) == g + {(parent, child)}
  {
    var h := Repoint(g, child, Elements(had + [parent]));
    forall a, b ensures (a, b) in h <==> (a, b) in g + {(parent, child)} {
      RepointEdges(g, child, Elements(had + [parent]), a, b);
    }
    SameGraph(h, g + {(parent, child)});
  }

  lemma RemovedEdge(g: Graph, child: int, had: seq<int>, parent: int)
    requires forall p :: p in had <==> (p, child) in g
    ensures Repoint(g, child, Elements(Minus(had, [parent]))) == g - {(parent, child)}
  {
    var h := Repoint(g, child, Elements(Minus(had, [parent])));
    forall a, b ensures (a, b) in h <==> (a, b) in g - {(parent, child)} {
      RepointEdges(g, child, Elements(Minus(had, [parent])), a, b);
    }
    SameGraph(h, g - {(parent, child)});
  }

  lemma PairIs(t: Tracker, parent: int, child: int, want: seq<int>, kind: Kind, c: Context)
    ensures Relinked(t, parent, child, want, kind, c).activity == t.activity + Noted(parent, [child], kind, c)
  {
    assert [child][..0] == [];
  }

  lemma RelinkedOthers(t: Tracker, parent: int, child: int, want: seq<int>, kind: Kind, c: Context)
    ensures SameOthers(t.links, Relinked(t, parent, child, want, kind, c).links, [child])
  {
    forall x | x !in [child] ensures ParentsOf(Relinked(t, parent, child, want, kind, c).links, x) == ParentsOf(t.links, x) {
      assert child in [child];
      RewrittenOthers(t.links, child, ParentsOf(t.links, child), want, c.actor, c.now, x);
    }
  }

  lemma LinkOneMeans(t: Tracker, parent: int, child: int, c: Context)
    requires LinksKept(t.issues.Keys, t.links) && LinkOne(t, parent, child, c).Ok?
    ensures var t' := LinkOne(t, parent, child, c).value;
            child in t.issues && if (parent, child) in Edges(t.links) then t' == t else Gained(t, t', parent, [child], c)
  {
    hide Edges, Unique, Ordered, Acyclic, ParentsError, Rewritten, ParentsOf, Stamped, SameOthers, Noted, Repoint;
    var had := ParentsOf(t.links, child);
    ParentsAre(t.links, child);
    if parent !in had {
      AddedEdge(Edges(t.links), child, had, parent);
      RewrittenRepoints(t.links, child, had + [parent], c.actor, c.now);
      RewrittenStamped(t.links, child, had + [parent], c.actor, c.now);
      OneUnder(parent, child);
      PairIs(t, parent, child, had + [parent], Linked, c);
      RelinkedOthers(t, parent, child, had + [parent], Linked, c);
    }
  }

  lemma UnlinkOneMeans(t: Tracker, parent: int, child: int, c: Context)
    requires LinksKept(t.issues.Keys, t.links) && UnlinkOne(t, parent, child, c).Ok?
    ensures var t' := UnlinkOne(t, parent, child, c).value;
            child in t.issues && if (parent, child) !in Edges(t.links) then t' == t else Lost(t, t', parent, [child], c)
  {
    hide Edges, Unique, Ordered, Acyclic, Rewritten, ParentsOf, Stamped, SameOthers, Noted, Repoint;
    var had := ParentsOf(t.links, child);
    ParentsAre(t.links, child);
    if parent in had {
      RemovedEdge(Edges(t.links), child, had, parent);
      RewrittenRepoints(t.links, child, Minus(had, [parent]), c.actor, c.now);
      RewrittenStamped(t.links, child, Minus(had, [parent]), c.actor, c.now);
      OneUnder(parent, child);
      PairIs(t, parent, child, Minus(had, [parent]), Unlinked, c);
      RelinkedOthers(t, parent, child, Minus(had, [parent]), Unlinked, c);
    }
  }

  // ---------------------------------------------------------------- several children

  /** Those of the children that are not under the parent (`linked` false), or are (`linked` true), in order. */
  ghost function Those(g: Graph, parent: int, kids: seq<int>, linked: bool): (r: seq<int>)
    ensures forall x :: x in r <==> x in kids && ((parent, x) in g <==> linked)
    ensures Distinct(kids) ==> Distinct(r)
  {
    if kids == [] then []
    else
      var last := kids[|kids| - 1];
      assert kids == kids[..|kids| - 1] + [last];
      var rest := Those(g, parent, kids[..|kids| - 1], linked);
      if (parent, last) in g <==> linked then rest + [last] else rest
  }

  lemma UnderSnoc(parent: int, kids: seq<int>, child: int)
    ensures Under(parent, kids + [child]) == Under(parent, kids) + {(parent, child)}
  {
    forall e ensures e in Under(parent, kids + [child]) <==> e in Under(parent, kids) + {(parent, child)} {
      if e in Under(parent, kids) {
        var k :| k in kids && e == (parent, k);
        assert k in kids + [child];
      }
      assert child in kids + [child];
    }
  }

  lemma SameTwice(a: Links, b: Links, d: Links, kids: seq<int>, child: int)
    requires SameOthers(a, b, kids) && SameOthers(b, d, [child])
    ensures SameOthers(a, d, kids + [child])
  {
    forall x | x !in kids + [child] ensures ParentsOf(d, x) == ParentsOf(a, x) {
      assert x !in kids && x !in [child];
    }
  }

  lemma GainedTwice(t: Tracker, u: Tracker, v: Tracker, parent: int, kids: seq<int>, child: int, c: Context)
    requires Gained(t, u, parent, kids, c) && Gained(u, v, parent, [child], c)
    ensures Gained(t, v, parent, kids + [child], c)
  {
    hide Edges, Noted, SameOthers, Stamped, Under;
    NotedSnoc(parent, kids, child, Linked, c);
    UnderSnoc(parent, kids, child);
    OneUnder(parent, child);
    SameTwice(t.links, u.links, v.links, kids, child);
    StampedTwice(t.links, u.links, v.links, c.actor, c.now);
  }

  lemma LostStamped(a: Links, b: Links, d: Links, who: string, now: int)
    requires Stamped(a, b, who, now) && Stamped(b, d, who, now) && Edges(d) <= Edges(b)
    ensures Stamped(a, d, who, now)
  {
  }

  lemma LostTwice(t: Tracker, u: Tracker, v: Tracker, parent: int, kids: seq<int>, child: int, c: Context)
    requires Lost(t, u, parent, kids, c) && Lost(u, v, parent, [child], c)
    ensures Lost(t, v, parent, kids + [child], c)
  {
    hide Edges, Noted, SameOthers, Stamped, Under;
    NotedSnoc(parent, kids, child, Unlinked, c);
    UnderSnoc(parent, kids, child);
    OneUnder(parent, child);
    SameTwice(t.links, u.links, v.links, kids, child);
    LostStamped(t.links, u.links, v.links, c.actor, c.now);
  }

  lemma NothingGained(t: Tracker, parent: int, c: Context)
    ensures Gained(t, t, parent, [], c) && Lost(t, t, parent, [], c)
  {
    assert t.activity + [] == t.activity;
    forall l | l in t.links ensures l in t.links { }
  }

  lemma NewAfter(t: Tracker, u: Tracker, parent: int, kids: seq<int>, child: int, c: Context)
    requires Gained(t, u, parent, kids, c) && child !in kids
    ensures (parent, child) in Edges(u.links) <==> (parent, child) in Edges(t.links)
  {
  }

  lemma OldAfter(t: Tracker, u: Tracker, parent: int, kids: seq<int>, child: int, c: Context)
    requires Lost(t, u, parent, kids, c) && child !in kids
    ensures (parent, child) in Edges(u.links) <==> (parent, child) in Edges(t.links)
  {
  }

  lemma {:induction false} LinkAllMeans(lower: Lower, t: Tracker, parent: int, kids: seq<int>, c: Context)
    requires Inv(lower, t) && parent in t.issues && Distinct(kids) && LinkAll(t, parent, kids, c).Ok?
    ensures var t' := LinkAll(t, parent, kids, c).value;
            Gained(t, t', parent, Those(Edges(t.links), parent, kids, false), c)
    ensures forall x :: x in kids ==> x in t.issues
  {
    hide Inv, LinkOne, Gained, Edges, LinksKept;
    if kids == [] {
      NothingGained(t, parent, c);
    } else {
      var rest, last := kids[..|kids| - 1], kids[|kids| - 1];
      var u := LinkAll(t, parent, rest, c).value;
      LinkAllMeans(lower, t, parent, rest, c);
      LinkAllKeeps(lower, t, parent, rest, c);
      LinksSound(lower, u);
      LinkOneMeans(u, parent, last, c);
      var made := Those(Edges(t.links), parent, rest, false);
      assert last !in rest;
      NewAfter(t, u, parent, made, last, c);
      if (parent, last) !in Edges(t.links) {
        GainedTwice(t, u, LinkAll(t, parent, kids, c).value, parent, made, last, c);
      }
      assert kids == rest + [last];
    }
  }

  lemma LinksSound(lower: Lower, t: Tracker)
    requires Inv(lower, t)
    ensures LinksKept(t.issues.Keys, t.links)
  {
  }

  lemma {:induction false} UnlinkAllMeans(lower: Lower, t: Tracker, parent: int, kids: seq<int>, c: Context)
    requires Inv(lower, t) && parent in t.issues && Distinct(kids) && UnlinkAll(t, parent, kids, c).Ok?
    ensures var t' := UnlinkAll(t, parent, kids, c).value;
            Lost(t, t', parent, Those(Edges(t.links), parent, kids, true), c)
    ensures forall x :: x in kids ==> x in t.issues
  {
    hide Inv, UnlinkOne, Lost, Edges, LinksKept;
    if kids == [] {
      NothingGained(t, parent, c);
    } else {
      var rest, last := kids[..|kids| - 1], kids[|kids| - 1];
      var u := UnlinkAll(t, parent, rest, c).value;
      UnlinkAllMeans(lower, t, parent, rest, c);
      UnlinkAllKeeps(lower, t, parent, rest, c);
      LinksSound(lower, u);
      UnlinkOneMeans(u, parent, last, c);
      var gone := Those(Edges(t.links), parent, rest, true);
      assert last !in rest;
      OldAfter(t, u, parent, gone, last, c);
      if (parent, last) in Edges(t.links) {
        LostTwice(t, u, UnlinkAll(t, parent, kids, c).value, parent, gone, last, c);
      }
      assert kids == rest + [last];
    }
  }

  // ---------------------------------------------------------------- the batch

  /** The first places of the values of a list, in order: what `dict.fromkeys` keeps. */
  ghost predicate Firsts(s: seq<int>, r: seq<int>) {
    && (forall x :: x in r <==> x in s)
    && (forall i, j :: 0 <= i < j < |r| ==> r[i] != r[j] && Earlier(s, r[i], r[j]))
  }

  // Some place of x lies before every place of y.
  ghost predicate Earlier(s: seq<int>, x: int, y: int) {
    exists p :: 0 <= p < |s| && s[p] == x && forall q :: 0 <= q <= p ==> s[q] != y
  }

  lemma EarlierMore(s: seq<int>, z: int, x: int, y: int)
    requires Earlier(s, x, y)
    ensures Earlier(s + [z], x, y)
  {
    var p :| 0 <= p < |s| && s[p] == x && forall q :: 0 <= q <= p ==> s[q] != y;
    assert (s + [z])[p] == x;
  }

  lemma EarlierLast(s: seq<int>, x: int, y: int)
    requires x in s && y !in s
    ensures Earlier(s + [y], x, y)
  {
    var p :| 0 <= p < |s| && s[p] == x;
    assert (s + [y])[p] == x && forall q :: 0 <= q <= p ==> (s + [y])[q] in s;
  }

  lemma {:induction false} DedupeFirsts(s: seq<int>)
    ensures Firsts(s, Dedupe(s))
  {
    hide Earlier;
    if s != [] {
      var rest, last := s[..|s| - 1], s[|s| - 1];
      DedupeFirsts(rest);
      assert s == rest + [last];
      var r := Dedupe(s);
      forall i, j | 0 <= i < j < |r| ensures r[i] != r[j] && Earlier(s, r[i], r[j]) {
        if j < |Dedupe(rest)| {
          EarlierMore(rest, last, r[i], r[j]);
        } else {
          assert r[i] in Dedupe(rest);
          EarlierLast(rest, r[i], last);
        }
      }
    }
  }

  /**
   * What an accepted batch does. The graph gains the added children and loses the removed ones, removals last;
   * every other issue keeps its parent list; rows that stay keep their author and time; and the activity grows by
   * one pair of events for each link really made and then for each really undone, and by nothing else.
   */
  lemma BatchMeans(lower: Lower, t: Tracker, parent: int, add: seq<int>, remove: seq<int>, c: Context)
    returns (added: seq<int>, removed: seq<int>)
    requires Inv(lower, t) && LinkChildren(t, parent, add, remove, c).1.None?
    ensures var t' := LinkChildren(t, parent, add, remove, c).0;
            var g, g' := Edges(t.links), Edges(t'.links);
            && (forall a, b :: (a, b) in g' <==>
                  ((a, b) in g || (a == parent && b in add)) && !(a == parent && b in remove))
            && (forall x :: x !in add && x !in remove ==> ParentsOf(t'.links, x) == ParentsOf(t.links, x))
            && Stamped(t.links, t'.links, c.actor, c.now)
            && t' == t.(links := t'.links,
                        activity := t.activity + Noted(parent, added, Linked, c) + Noted(parent, removed, Unlinked, c))
    ensures Distinct(added) && forall x :: x in added <==> x in add && (parent, x) !in Edges(t.links)
    ensures Distinct(removed) && forall x :: x in removed <==> x in remove && ((parent, x) in Edges(t.links) || x in add)
  {
    var adds, removes := Dedupe(add), Dedupe(remove);
    var u := LinkAll(t, parent, adds, c).value;
    var t' := UnlinkAll(u, parent, removes, c).value;
    LinkAllMeans(lower, t, parent, adds, c);
    LinkAllKeeps(lower, t, parent, adds, c);
    UnlinkAllMeans(lower, u, parent, removes, c);
    hide Inv, LinkAll, UnlinkAll, Dedupe, Edges, Noted, Stamped, ParentsOf;
    added := Those(Edges(t.links), parent, adds, false);
    removed := Those(Edges(u.links), parent, removes, true);
    forall a, b ensures (a, b) in Edges(t'.links) <==>
                        ((a, b) in Edges(t.links) || (a == parent && b in add)) && !(a == parent && b in remove) {
      UnderIs(parent, added, a, b);
      UnderIs(parent, removed, a, b);
      UnderIs(parent, added, parent, b);
    }
    forall x ensures (parent, x) in Edges(u.links) <==> (parent, x) in Edges(t.links) || x in add {
      UnderIs(parent, added, parent, x);
    }
    BatchStamped(t, u, t', c);
  }

  lemma UnderIs(parent: int, kids: seq<int>, a: int, b: int)
    ensures (a, b) in Under(parent, kids) <==> a == parent && b in kids
  {
  }

  lemma BatchStamped(t: Tracker, u: Tracker, t': Tracker, c: Context)
    requires Stamped(t.links, u.links, c.actor, c.now) && Stamped(u.links, t'.links, c.actor, c.now)
    requires Edges(t'.links) <= Edges(u.links)
    ensures Stamped(t.links, t'.links, c.actor, c.now)
  {
    LostStamped(t.links, u.links, t'.links, c.actor, c.now);
  }

  // ---------------------------------------------------------------- when a batch is accepted

  lemma {:induction false} LinkErrorExactly(g: Graph, child: int, parents: seq<int>)
    ensures LinkError(g, child, parents).None? <==>
            forall p :: p in parents ==> !Reachable(g, child, p) && ((p, child) in g || |Children(g, p)| < 50)
  {
    hide Reachable;
    if parents != [] {
      LinkErrorExactly(g, child, parents[1..]);
      assert parents == [parents[0]] + parents[1..];
    }
  }

  lemma NoWayBack(g: Graph, parent: int, x: int)
    requires Acyclic(g) && (parent, x) in g
    ensures !Reachable(g, x, parent)
  {
    if Reachable(g, x, parent) { assert Below(g, x, x); }
  }

  /** One more parent for an issue: no way back from it, and room in every respect. */
  lemma JoinExactly(issues: set<int>, links: Links, parent: int, x: int)
    requires LinksKept(issues, links) && parent in issues && x in issues && (parent, x) !in Edges(links)
    requires forall i :: i in issues ==> i >= 1
    ensures var g := Edges(links);
            ParentsError(issues, g, Some(x), ParentsOf(links, x) + [parent]).None? <==>
            && !Reachable(g, x, parent) && |Descendants(g, x)| < 10000
            && |ParentsOf(links, x)| < 50 && |Children(g, parent)| < 50
  {
    var g, had := Edges(links), ParentsOf(links, x);
    ParentsAre(links, x);
    hide Edges, ParentsOf, Unique, Ordered, Acyclic, Reachable, Descendants;
    forall p | p in had ensures p in issues && !Reachable(g, x, p) {
      assert (p, x) in g;
      NoWayBack(g, p, x);
    }
    LinkErrorExactly(g, x, had + [parent]);
    hide LinkError;
    assert forall p :: p in had + [parent] <==> p in had || p == parent;
    assert Distinct(had + [parent]);
  }

  // Edges out of a node that x does not reach change nothing for x.
  lemma {:induction false} FarEdges(g: Graph, h: Graph, parent: int, x: int, y: int, n: nat)
    requires !Reachable(g, x, parent) && Reach(h, x, y, n)
    requires forall a, b :: (a, b) in h && (a, b) !in g ==> a == parent
    ensures Reachable(g, x, y)
    decreases n
  {
    if n == 0 {
      ReachSelf(g, x);
    } else {
      var z :| Reach(h, x, z, n - 1) && (z, y) in h;
      FarEdges(g, h, parent, x, z, n - 1);
      ReachEdge(g, x, z, y);
    }
  }

  lemma SameReach(g: Graph, h: Graph, parent: int, x: int, y: int)
    requires g <= h && forall a, b :: (a, b) in h && (a, b) !in g ==> a == parent
    requires !Reachable(g, x, parent)
    ensures Reachable(h, x, y) <==> Reachable(g, x, y)
  {
    if n: nat :| Reach(h, x, y, n) { FarEdges(g, h, parent, x, y, n); }
    if n: nat :| Reach(g, x, y, n) { SubgraphReach(g, h, x, y, n); }
  }

  lemma SameBelow(g: Graph, h: Graph, parent: int, x: int, y: int)
    requires g <= h && (forall a, b :: (a, b) in h && (a, b) !in g ==> a == parent) && !Reachable(g, x, parent)
    ensures Below(h, x, y) <==> Below(g, x, y)
  {
    if Below(g, x, y) { SubgraphBelow(g, h, x, y); }
    if Below(h, x, y) {
      var z :| Reachable(h, x, z) && (z, y) in h;
      SameReach(g, h, parent, x, z);
      assert z != parent;
    }
  }

  lemma SameDescendants(g: Graph, h: Graph, parent: int, x: int)
    requires g <= h && (forall a, b :: (a, b) in h && (a, b) !in g ==> a == parent) && !Reachable(g, x, parent)
    ensures !Reachable(h, x, parent) && Descendants(h, x) == Descendants(g, x)
  {
    SameReach(g, h, parent, x, parent);
    forall y ensures y in Descendants(h, x) <==> y in Descendants(g, x) {
      SameReach(g, h, parent, x, y);
      SameBelow(g, h, parent, x, y);
    }
  }

  /** An issue that may be put under the parent, in the graph before the batch. */
  ghost predicate MayJoin(links: Links, parent: int, x: int) {
    var g := Edges(links);
    !Reachable(g, x, parent) && |Descendants(g, x)| < 10000 && |ParentsOf(links, x)| < 50
  }

  /** All children exist, the new ones may join, and with them the parent has at most 50. */
  ghost predicate Joinable(t: Tracker, parent: int, kids: seq<int>) {
    var g := Edges(t.links);
    && (forall x :: x in kids ==> x in t.issues && ((parent, x) !in g ==> MayJoin(t.links, parent, x)))
    && ((exists x :: x in kids && (parent, x) !in g) ==> |Children(g, parent) + Elements(kids)| <= 50)
  }

  ghost predicate Positive(t: Tracker) {
    forall i :: i in t.issues ==> i >= 1
  }

  // The next child, after some others have been linked.
  lemma LinkOneAccepts(lower: Lower, t: Tracker, u: Tracker, parent: int, kids: seq<int>, made: seq<int>, x: int, c: Context)
    requires Inv(lower, u) && parent in t.issues && Gained(t, u, parent, made, c) && x !in kids && Positive(t)
    requires forall y :: y in made <==> y in kids && (parent, y) !in Edges(t.links)
    ensures LinkOne(u, parent, x, c).Ok? <==>
            x in t.issues && ((parent, x) !in Edges(t.links) ==>
              MayJoin(t.links, parent, x) && |Children(Edges(t.links), parent) + Elements(kids)| < 50)
  {
    var g, h := Edges(t.links), Edges(u.links);
    hide Inv, Edges, Noted, Stamped, Descendants, Children, ParentsError, Reachable, ParentsOf;
    NewAfter(t, u, parent, made, x, c);
    LinksSound(lower, u);
    ParentsAre(u.links, x);
    hide LinksKept;
    assert g <= h;
    forall a, b | (a, b) in h && (a, b) !in g ensures a == parent { UnderIs(parent, made, a, b); }
    if x in t.issues && (parent, x) !in g {
      JoinExactly(u.issues.Keys, u.links, parent, x);
      GrownChildren(g, h, parent, kids, made);
      if Reachable(g, x, parent) { StillReachable(g, h, x, parent); } else { SameDescendants(g, h, parent, x); }
    }
  }

  lemma StillReachable(g: Graph, h: Graph, x: int, y: int)
    requires g <= h && Reachable(g, x, y)
    ensures Reachable(h, x, y)
  {
    var n: nat :| Reach(g, x, y, n);
    SubgraphReach(g, h, x, y, n);
  }

  lemma GrownChildren(g: Graph, h: Graph, parent: int, kids: seq<int>, made: seq<int>)
    requires h == g + Under(parent, made) && forall y :: y in made <==> y in kids && (parent, y) !in g
    ensures Children(h, parent) == Children(g, parent) + Elements(kids)
  {
    forall y ensures y in Children(h, parent) <==> y in Children(g, parent) + Elements(kids) {
      UnderIs(parent, made, parent, y);
    }
  }

  lemma JoinableSnoc(t: Tracker, parent: int, rest: seq<int>, x: int)
    requires x !in rest
    ensures Joinable(t, parent, rest + [x]) <==>
            && Joinable(t, parent, rest) && x in t.issues
            && ((parent, x) !in Edges(t.links) ==>
                  MayJoin(t.links, parent, x) && |Children(Edges(t.links), parent) + Elements(rest)| < 50)
  {
    var g := Edges(t.links);
    var was, now := Children(g, parent) + Elements(rest), Children(g, parent) + Elements(rest + [x]);
    assert now == was + {x};
    hide MayJoin, Edges, Children, Elements;
    assert forall y :: y in rest + [x] <==> y in rest || y == x;
    if (parent, x) in g { assert x in was; assert now == was; } else { assert x !in was; }
  }

  /** Linking one after the other succeeds exactly if all may join at once: the order does not matter. */
  lemma {:induction false} LinkAllAccepts(lower: Lower, t: Tracker, parent: int, kids: seq<int>, c: Context)
    requires Inv(lower, t) && parent in t.issues && Distinct(kids) && Positive(t)
    ensures LinkAll(t, parent, kids, c).Ok? <==> Joinable(t, parent, kids)
  {
    hide Inv, LinkOne, Gained, Edges, Joinable, MayJoin, Children;
    if kids == [] {
      NoneJoin(t, parent);
    } else {
      var rest, last := kids[..|kids| - 1], kids[|kids| - 1];
      LinkAllAccepts(lower, t, parent, rest, c);
      assert kids == rest + [last] && last !in rest;
      JoinableSnoc(t, parent, rest, last);
      if LinkAll(t, parent, rest, c).Ok? {
        LinkAllMeans(lower, t, parent, rest, c);
        LinkAllKeeps(lower, t, parent, rest, c);
        LinkOneAccepts(lower, t, LinkAll(t, parent, rest, c).value, parent, rest,
                       Those(Edges(t.links), parent, rest, false), last, c);
      }
    }
  }

  lemma NoneJoin(t: Tracker, parent: int)
    ensures Joinable(t, parent, [])
  {
  }

  lemma UnlinkOneAccepts(t: Tracker, parent: int, child: int, c: Context)
    ensures UnlinkOne(t, parent, child, c).Ok? <==> child in t.issues
  {
    hide ParentsOf, Relinked, Minus;
  }

  lemma {:induction false} UnlinkAllAccepts(lower: Lower, t: Tracker, parent: int, kids: seq<int>, c: Context)
    requires Inv(lower, t) && parent in t.issues
    ensures UnlinkAll(t, parent, kids, c).Ok? <==> forall x :: x in kids ==> x in t.issues
  {
    hide Inv, UnlinkOne;
    if kids != [] {
      var rest, last := kids[..|kids| - 1], kids[|kids| - 1];
      UnlinkAllAccepts(lower, t, parent, rest, c);
      UnlinkAllKeeps(lower, t, parent, rest, c);
      var before := UnlinkAll(t, parent, rest, c);
      if before.Ok? { UnlinkOneAccepts(before.value, parent, last, c); }
      assert kids == rest + [last];
    }
  }

  /** A batch as the caller may check it beforehand. */
  ghost predicate Acceptable(t: Tracker, parent: int, add: seq<int>, remove: seq<int>, c: Context) {
    && |add| <= 50 && |remove| <= 50 && |add| + |remove| > 0
    && (forall x :: x in add || x in remove ==> x >= 1)
    && parent in t.issues && (c.limited ==> add == [])
    && Joinable(t, parent, add) && forall x :: x in remove ==> x in t.issues
  }

  /** A batch succeeds exactly if it is acceptable; otherwise nothing changes. */
  lemma BatchExactly(lower: Lower, t: Tracker, parent: int, add: seq<int>, remove: seq<int>, c: Context)
    requires Inv(lower, t)
    ensures var (t', e) := LinkChildren(t, parent, add, remove, c);
            (e.None? <==> Acceptable(t, parent, add, remove, c)) && (e.Some? ==> t' == t)
  {
    hide Inv, LinkAll, UnlinkAll, Dedupe, BatchError, Joinable, Distinct;
    var adds, removes := Dedupe(add), Dedupe(remove);
    IssuesPositive(lower, t);
    BatchChecks(t, parent, add, remove, c);
    SameJoinable(t, parent, add, adds);
    if parent in t.issues {
      LinkAllAccepts(lower, t, parent, adds, c);
      var added := LinkAll(t, parent, adds, c);
      LinkAllKeeps(lower, t, parent, adds, c);
      if added.Ok? { UnlinkAllAccepts(lower, added.value, parent, removes, c); }
    }
  }

  lemma IssuesPositive(lower: Lower, t: Tracker)
    requires Inv(lower, t)
    ensures Positive(t)
  {
  }

  lemma BatchChecks(t: Tracker, parent: int, add: seq<int>, remove: seq<int>, c: Context)
    ensures BatchError(t, parent, add, remove, c).None? <==>
            && |add| <= 50 && |remove| <= 50 && |add| + |remove| > 0 && (forall x :: x in add || x in remove ==> x >= 1)
            && parent in t.issues && (c.limited ==> add == [])
  {
    DedupeSome(add);
    hide Dedupe;
  }

  lemma DedupeSome(s: seq<int>)
    ensures |Dedupe(s)| > 0 <==> s != []
  {
    if s != [] { assert s[0] in Dedupe(s); }
    if |Dedupe(s)| > 0 { assert Dedupe(s)[0] in s; }
  }

  lemma SameJoinable(t: Tracker, parent: int, a: seq<int>, b: seq<int>)
    requires forall x :: x in a <==> x in b
    ensures Joinable(t, parent, a) <==> Joinable(t, parent, b)
  {
    forall x ensures x in Elements(a) <==> x in Elements(b) { }
    assert Elements(a) == Elements(b);
    hide MayJoin, Edges, Children;
  }
}
